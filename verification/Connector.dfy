/** The CSV and database connectors: accept rows inside the window and fold them into one
    record per entity. Cells are taken as already decoded. */
module Connector {
  import opened Options
  import opened Sums

  /** An accepted row. `source` is what a new record starts its counts of sources with. */
  datatype Item = Item(
    key: string, entityType: string, source: int, eventType: string,
    count: int, weight: int, flags: set<string>, at: Option<int>)

  datatype Record = Record(
    entityKey: string, entityType: string, eventCount: int, sourceCount: int, degree: int,
    weightedDegree: int, riskFlags: set<string>, eventTypes: map<string, int>,
    firstSeen: Option<int>, lastSeen: Option<int>)

  // ----- Accepting rows -----

  datatype Counts = Counts(events: int, sources: int)

  /** at is None when the timestamp does not parse, counts when one of the numbers does not. */
  datatype CsvRow = CsvRow(
    at: Option<int>, key: string, entityType: string, eventType: string, counts: Option<Counts>, flags: set<string>)

  /** weight is the logarithmic amount weight, at least 1; at is None for a missing timestamp. */
  datatype DbRow = DbRow(
    key: string, entityType: string, eventType: string, at: Option<int>, flags: set<string>, weight: nat)

  predicate InWindow(t: int, start: int, end: int) {
    start <= t <= end
  }

  function CsvItem(row: CsvRow): Item {
    var n := if row.counts.Some? then row.counts.value else Counts(0, 0);
    Item(row.key, row.entityType, n.sources, row.eventType, n.events, n.events, row.flags, row.at)
  }

  /** The numbers are read after the timestamp was accepted; a bad one raises ValueError. */
  predicate CsvRaises(row: CsvRow, start: int, end: int) {
    row.at.Some? && InWindow(row.at.value, start, end) && row.counts.None?
  }

  /** A row without a readable timestamp is dropped. */
  function CsvAccepted(rows: seq<CsvRow>, start: int, end: int): seq<Item> {
    if rows == [] then []
    else
      var row := rows[|rows| - 1];
      CsvAccepted(rows[..|rows| - 1], start, end)
      + if row.at.Some? && InWindow(row.at.value, start, end) then [CsvItem(row)] else []
  }

  /** Keys without a type prefix get one. */
  function FullKey(row: DbRow): string {
    if ':' in row.key then row.key else row.entityType + ":" + row.key
  }

  function DbItem(row: DbRow): Item {
    Item(FullKey(row), row.entityType, 1, row.eventType, 1, if row.weight < 1 then 1 else row.weight, row.flags, row.at)
  }

  /** A row without a timestamp is kept; one without a key is dropped. */
  function DbAccepted(rows: seq<DbRow>, start: int, end: int): seq<Item> {
    if rows == [] then []
    else
      var row := rows[|rows| - 1];
      DbAccepted(rows[..|rows| - 1], start, end)
      + if row.key != "" && (row.at.Some? ==> InWindow(row.at.value, start, end)) then [DbItem(row)] else []
  }

  // ----- Folding -----

  function Fresh(it: Item): Record {
    Record(it.key, it.entityType, 0, it.source, it.source, 0, {}, map[], it.at, it.at)
  }

  function Bump(m: map<string, int>, k: string, n: int): map<string, int> {
    m[k := (if k in m then m[k] else 0) + n]
  }

  function Touched(r: Record, it: Item): Record {
    r.(eventCount := r.eventCount + it.count,
       weightedDegree := r.weightedDegree + it.weight,
       eventTypes := Bump(r.eventTypes, it.eventType, it.count),
       riskFlags := r.riskFlags + it.flags,
       firstSeen := if it.at.Some? && (r.firstSeen.None? || it.at.value < r.firstSeen.value) then it.at else r.firstSeen,
       lastSeen := if it.at.Some? && (r.lastSeen.None? || it.at.value > r.lastSeen.value) then it.at else r.lastSeen)
  }

  function Folded(items: seq<Item>): map<string, Record> {
    if items == [] then map[]
    else
      var m, it := Folded(items[..|items| - 1]), items[|items| - 1];
      m[it.key := Touched(if it.key in m then m[it.key] else Fresh(it), it)]
  }

  /** Keys in order of first appearance. */
  function KeyOrder(items: seq<Item>): seq<string> {
    if items == [] then []
    else
      var before, it := KeyOrder(items[..|items| - 1]), items[|items| - 1];
      if it.key in before then before else before + [it.key]
  }

  lemma {:induction false} OrderIsKeys(items: seq<Item>)
    ensures forall k :: k in KeyOrder(items) <==> k in Folded(items)
  {
    if items != [] { OrderIsKeys(items[..|items| - 1]); }
  }

  /** Records in dictionary order. */
  function Listed(items: seq<Item>): seq<Record> {
    OrderIsKeys(items);
    seq(|KeyOrder(items)|, i requires 0 <= i < |KeyOrder(items)| =>
      assert KeyOrder(items)[i] in KeyOrder(items); Folded(items)[KeyOrder(items)[i]])
  }

  method Absorb(entities: map<string, Record>, order: seq<string>, it: Item, ghost items: seq<Item>)
    returns (entities': map<string, Record>, order': seq<string>)
    requires entities == Folded(items) && order == KeyOrder(items)
    ensures entities' == Folded(items + [it]) && order' == KeyOrder(items + [it])
  {
    ghost var more := items + [it];
    assert more[..|more| - 1] == items && more[|more| - 1] == it;
    OrderIsKeys(items);
    entities', order' := entities, order;
    if it.key !in entities' {
      entities' := entities'[it.key := Fresh(it)];
      order' := order' + [it.key];
    }
    entities' := entities'[it.key := Touched(entities'[it.key], it)];
  }

  lemma CsvStep(rows: seq<CsvRow>, n: nat, start: int, end: int)
    requires n < |rows|
    ensures CsvAccepted(rows[..n + 1], start, end) ==
              CsvAccepted(rows[..n], start, end)
              + if rows[n].at.Some? && InWindow(rows[n].at.value, start, end) then [CsvItem(rows[n])] else []
  {
    assert rows[..n + 1][..n] == rows[..n];
  }

  /** `list(entity_map.values())`. */
  method Values(entities: map<string, Record>, order: seq<string>, ghost items: seq<Item>) returns (records: seq<Record>)
    requires entities == Folded(items) && order == KeyOrder(items)
    ensures records == Listed(items)
  {
    OrderIsKeys(items);
    records := seq(|order|, i requires 0 <= i < |order| => assert order[i] in order; entities[order[i]]);
  }

  ghost predicate CsvFails(rows: seq<CsvRow>, start: int, end: int) {
    exists row :: row in rows && CsvRaises(row, start, end)
  }

  lemma CsvFailsStep(rows: seq<CsvRow>, n: nat, start: int, end: int)
    requires n < |rows|
    ensures CsvFails(rows[..n + 1], start, end) <==> CsvFails(rows[..n], start, end) || CsvRaises(rows[n], start, end)
    ensures CsvFails(rows[..n + 1], start, end) ==> CsvFails(rows, start, end)
    ensures CsvRaises(rows[n], start, end) <==>
              rows[n].at.Some? && InWindow(rows[n].at.value, start, end) && rows[n].counts.None?
  {
    assert rows[..n + 1] == rows[..n] + [rows[n]];
    assert rows[n] in rows[..n + 1];
    assert forall row :: row in rows[..n + 1] <==> row in rows[..n] || row == rows[n];
  }

  /** None: some row in the window has a number that does not parse, and the fetch raises. */
  method FetchCsv(rows: seq<CsvRow>, start: int, end: int) returns (records: Option<seq<Record>>)
    ensures records.None? <==> CsvFails(rows, start, end)
    ensures records.Some? ==> records.value == Listed(CsvAccepted(rows, start, end))
  {
    var entities: map<string, Record>, order: seq<string> := map[], [];
    assert CsvAccepted(rows[..0], start, end) == [] && entities == Folded([]) && order == KeyOrder([]);
    hide *;
    var n := 0;
    assert !CsvFails(rows[..0], start, end) by { NoRows(rows, start, end); }
    while n < |rows|
      invariant n <= |rows|
      invariant entities == Folded(CsvAccepted(rows[..n], start, end))
      invariant order == KeyOrder(CsvAccepted(rows[..n], start, end))
      invariant !CsvFails(rows[..n], start, end)
    {
      var row := rows[n];
      CsvStep(rows, n, start, end);
      CsvFailsStep(rows, n, start, end);
      if row.at.Some? && InWindow(row.at.value, start, end) {
        if row.counts.None? { return None; }
        entities, order := Absorb(entities, order, CsvItem(row), CsvAccepted(rows[..n], start, end));
      } else {
        assert CsvAccepted(rows[..n + 1], start, end) == CsvAccepted(rows[..n], start, end);
      }
      n := n + 1;
    }
    assert rows[..n] == rows;
    var listed := Values(entities, order, CsvAccepted(rows, start, end));
    records := Some(listed);
  }

  lemma NoRows(rows: seq<CsvRow>, start: int, end: int)
    ensures !CsvFails(rows[..0], start, end)
  {
  }

  /** `degree` is recomputed at the end as the number of event types. */
  function WithDegree(r: Record): Record {
    r.(degree := if |r.eventTypes| < 1 then 1 else |r.eventTypes|)
  }

  function AllWithDegree(rs: seq<Record>): seq<Record> {
    seq(|rs|, i requires 0 <= i < |rs| => WithDegree(rs[i]))
  }

  lemma DbStep(rows: seq<DbRow>, n: nat, start: int, end: int)
    requires n < |rows|
    ensures DbAccepted(rows[..n + 1], start, end) ==
              DbAccepted(rows[..n], start, end)
              + if rows[n].key != "" && (rows[n].at.Some? ==> InWindow(rows[n].at.value, start, end)) then [DbItem(rows[n])] else []
  {
    assert rows[..n + 1][..n] == rows[..n];
  }

  method FetchDb(rows: seq<DbRow>, start: int, end: int) returns (records: seq<Record>)
    ensures records == AllWithDegree(Listed(DbAccepted(rows, start, end)))
  {
    var entities: map<string, Record>, order: seq<string> := map[], [];
    assert DbAccepted(rows[..0], start, end) == [] && entities == Folded([]) && order == KeyOrder([]);
    hide *;
    var n := 0;
    while n < |rows|
      invariant n <= |rows|
      invariant entities == Folded(DbAccepted(rows[..n], start, end))
      invariant order == KeyOrder(DbAccepted(rows[..n], start, end))
    {
      var row := rows[n];
      DbStep(rows, n, start, end);
      if row.key != "" && (row.at.None? || InWindow(row.at.value, start, end)) {
        entities, order := Absorb(entities, order, DbItem(row), DbAccepted(rows[..n], start, end));
      } else {
        assert DbAccepted(rows[..n + 1], start, end) == DbAccepted(rows[..n], start, end);
      }
      n := n + 1;
    }
    assert rows[..n] == rows;
    var listed := Values(entities, order, DbAccepted(rows, start, end));
    records := AllWithDegree(listed);
  }

  // ----- What a record means -----

  ghost function CountOf(k: string): Item -> int {
    (it: Item) => if it.key == k then it.count else 0
  }

  ghost function WeightOf(k: string): Item -> int {
    (it: Item) => if it.key == k then it.weight else 0
  }

  ghost function TypeCountOf(k: string, t: string): Item -> int {
    (it: Item) => if it.key == k && it.eventType == t then it.count else 0
  }

  ghost predicate Earliest(items: seq<Item>, k: string, t: Option<int>) {
    if t.None? then forall it :: it in items && it.key == k ==> it.at.None?
    else
      && (exists it :: it in items && it.key == k && it.at == t)
      && forall it :: it in items && it.key == k && it.at.Some? ==> t.value <= it.at.value
  }

  ghost predicate Latest(items: seq<Item>, k: string, t: Option<int>) {
    if t.None? then forall it :: it in items && it.key == k ==> it.at.None?
    else
      && (exists it :: it in items && it.key == k && it.at == t)
      && forall it :: it in items && it.key == k && it.at.Some? ==> it.at.value <= t.value
  }

  ghost predicate HasKey(items: seq<Item>, k: string) {
    exists it :: it in items && it.key == k
  }

  ghost predicate HasType(items: seq<Item>, k: string, t: string) {
    exists it :: it in items && it.key == k && it.eventType == t
  }

  ghost predicate HasFlag(items: seq<Item>, k: string, f: string) {
    exists it :: it in items && it.key == k && f in it.flags
  }

  /** The order-free content of the record of k: totals, unions, minimum and maximum over
      exactly the items with that key. */
  ghost predicate Summarises(items: seq<Item>, k: string, r: Record) {
    && r.entityKey == k
    && r.eventCount == Total(items, CountOf(k))
    && r.weightedDegree == Total(items, WeightOf(k))
    && (forall t :: t in r.eventTypes <==> HasType(items, k, t))
    && (forall t :: t in r.eventTypes ==> r.eventTypes[t] == Total(items, TypeCountOf(k, t)))
    && (forall f :: f in r.riskFlags <==> HasFlag(items, k, f))
    && Earliest(items, k, r.firstSeen) && Latest(items, k, r.lastSeen)
  }

  lemma {:induction false} NoTypeNoCount(items: seq<Item>, k: string, t: string)
    requires !HasType(items, k, t)
    ensures Total(items, TypeCountOf(k, t)) == 0
  {
    if items != [] {
      var init, last := items[..|items| - 1], items[|items| - 1];
      assert items == init + [last] && last in items;
      forall it | it in init ensures it in items { }
      NoTypeNoCount(init, k, t);
    }
  }

  lemma {:induction false} NoKeyNoCount(items: seq<Item>, k: string)
    requires !HasKey(items, k)
    ensures Total(items, CountOf(k)) == 0 && Total(items, WeightOf(k)) == 0
  {
    if items != [] {
      var init, last := items[..|items| - 1], items[|items| - 1];
      assert items == init + [last] && last in items;
      forall it | it in init ensures it in items { }
      NoKeyNoCount(init, k);
    }
  }

  lemma InAppend(items: seq<Item>, it: Item)
    ensures forall x :: x in items + [it] <==> x in items || x == it
  {
  }

  lemma TotalAppend(items: seq<Item>, it: Item, f: Item -> int)
    ensures Total(items + [it], f) == Total(items, f) + f(it)
  {
    assert (items + [it])[..|items|] == items;
  }

  lemma OtherKeySummary(items: seq<Item>, k: string, r: Record, it: Item)
    requires Summarises(items, k, r) && it.key != k
    ensures Summarises(items + [it], k, r)
  {
    hide Total;
    InAppend(items, it);
    TotalAppend(items, it, CountOf(k));
    TotalAppend(items, it, WeightOf(k));
    forall t | t in r.eventTypes ensures r.eventTypes[t] == Total(items + [it], TypeCountOf(k, t)) {
      TotalAppend(items, it, TypeCountOf(k, t));
    }
    forall t ensures HasType(items, k, t) <==> HasType(items + [it], k, t) { }
    forall f ensures HasFlag(items, k, f) <==> HasFlag(items + [it], k, f) { }
  }

  lemma TypesTouched(items: seq<Item>, k: string, types: map<string, int>, it: Item)
    requires it.key == k
    requires forall t :: t in types <==> HasType(items, k, t)
    requires forall t :: t in types ==> types[t] == Total(items, TypeCountOf(k, t))
    ensures var types' := Bump(types, it.eventType, it.count);
            && (forall t :: t in types' <==> HasType(items + [it], k, t))
            && (forall t :: t in types' ==> types'[t] == Total(items + [it], TypeCountOf(k, t)))
  {
    hide Total;
    InAppend(items, it);
    var types' := Bump(types, it.eventType, it.count);
    forall t ensures t in types' <==> HasType(items + [it], k, t) {
      assert HasType(items + [it], k, t) <==> HasType(items, k, t) || t == it.eventType by {
        assert it in items + [it];
      }
    }
    forall t | t in types' ensures types'[t] == Total(items + [it], TypeCountOf(k, t)) {
      TotalAppend(items, it, TypeCountOf(k, t));
      if t !in types { NoTypeNoCount(items, k, t); }
    }
  }

  lemma FlagsTouched(items: seq<Item>, k: string, flags: set<string>, it: Item)
    requires it.key == k
    requires forall f :: f in flags <==> HasFlag(items, k, f)
    ensures forall f :: f in flags + it.flags <==> HasFlag(items + [it], k, f)
  {
    InAppend(items, it);
    forall f ensures HasFlag(items + [it], k, f) <==> HasFlag(items, k, f) || f in it.flags {
      assert it in items + [it];
    }
  }

  lemma TimesTouched(items: seq<Item>, k: string, r: Record, it: Item)
    requires it.key == k && Earliest(items, k, r.firstSeen) && Latest(items, k, r.lastSeen)
    ensures Earliest(items + [it], k, Touched(r, it).firstSeen) && Latest(items + [it], k, Touched(r, it).lastSeen)
  {
    InAppend(items, it);
    assert it in items + [it];
  }

  lemma SameKeySummary(items: seq<Item>, k: string, r: Record, it: Item)
    requires Summarises(items, k, r) && it.key == k
    ensures Summarises(items + [it], k, Touched(r, it))
  {
    TotalAppend(items, it, CountOf(k));
    TotalAppend(items, it, WeightOf(k));
    TypesTouched(items, k, r.eventTypes, it);
    FlagsTouched(items, k, r.riskFlags, it);
    TimesTouched(items, k, r, it);
    hide Total, HasType, HasFlag, Earliest, Latest;
  }

  lemma FreshSummary(items: seq<Item>, it: Item)
    requires !HasKey(items, it.key)
    ensures Summarises(items + [it], it.key, Touched(Fresh(it), it))
  {
    var k := it.key;
    NoKeyNoCount(items, k);
    TotalAppend(items, it, CountOf(k));
    TotalAppend(items, it, WeightOf(k));
    assert forall t :: !HasType(items, k, t);
    assert forall f :: !HasFlag(items, k, f);
    TypesTouched(items, k, map[], it);
    FlagsTouched(items, k, {}, it);
    InAppend(items, it);
    hide Total, HasType, HasFlag;
    assert it in items + [it];
  }

  /** Every record is exactly the summary of its own items, and there is one per key. */
  lemma {:induction false} FoldSummarises(items: seq<Item>, k: string)
    ensures k in Folded(items) <==> HasKey(items, k)
    ensures k in Folded(items) ==> Summarises(items, k, Folded(items)[k])
  {
    if items != [] {
      var init, it := items[..|items| - 1], items[|items| - 1];
      assert items == init + [it];
      FoldSummarises(init, k);
      InAppend(init, it);
      if it.key != k {
        if k in Folded(init) { OtherKeySummary(init, k, Folded(init)[k], it); }
      } else if k in Folded(init) {
        SameKeySummary(init, k, Folded(init)[k], it);
      } else {
        FreshSummary(init, it);
      }
      hide Summarises;
    }
  }

  // ----- Conservation -----

  ghost function TypeCounts(m: map<string, int>): string -> int {
    (t: string) => if t in m then m[t] else 0
  }

  ghost function EventCounts(m: map<string, Record>): string -> int {
    (k: string) => if k in m then m[k].eventCount else 0
  }

  /** Per entity, event_count is the sum of its event-type counts. */
  lemma {:induction false} TypesAddUp(items: seq<Item>, k: string)
    requires k in Folded(items)
    ensures var r := Folded(items)[k]; SumOver(r.eventTypes.Keys, TypeCounts(r.eventTypes)) == r.eventCount
  {
    var init, it := items[..|items| - 1], items[|items| - 1];
    if k in Folded(init) { TypesAddUp(init, k); }
    if it.key == k {
      var before := if k in Folded(init) then Folded(init)[k].eventTypes else map[];
      var after := Bump(before, it.eventType, it.count);
      SumAbsent(before.Keys, TypeCounts(before), TypeCounts(after), it.eventType, it.count);
      assert after.Keys == before.Keys + {it.eventType};
      SumZero({}, TypeCounts(before));
    }
  }

  ghost function AnyCount(): Item -> int {
    (it: Item) => it.count
  }

  /** Over all entities, event counts total the counts of the accepted rows. */
  lemma {:induction false} CountsAddUp(items: seq<Item>)
    ensures SumOver(Folded(items).Keys, EventCounts(Folded(items))) == Total(items, AnyCount())
  {
    if items == [] {
      SumZero({}, EventCounts(Folded(items)));
    } else {
      var init, it := items[..|items| - 1], items[|items| - 1];
      CountsAddUp(init);
      SumAbsent(Folded(init).Keys, EventCounts(Folded(init)), EventCounts(Folded(items)), it.key, it.count);
      assert Folded(items).Keys == Folded(init).Keys + {it.key};
    }
  }

  lemma {:induction false} DbCountsOnes(rows: seq<DbRow>, start: int, end: int)
    ensures var items := DbAccepted(rows, start, end); Total(items, AnyCount()) == |items|
  {
    if rows != [] {
      var init := DbAccepted(rows[..|rows| - 1], start, end);
      var items := DbAccepted(rows, start, end);
      DbCountsOnes(rows[..|rows| - 1], start, end);
      if items != init { TotalAppend(init, DbItem(rows[|rows| - 1]), AnyCount()); }
    }
  }

  // ----- Order independence -----

  /** Equal except for the fields taken from an entity's first row. */
  ghost predicate SameSummary(r: Record, r': Record) {
    r' == r.(entityType := r'.entityType, sourceCount := r'.sourceCount, degree := r'.degree)
  }

  lemma SummaryIsUnique(items: seq<Item>, k: string, r: Record, r': Record)
    requires Summarises(items, k, r) && Summarises(items, k, r')
    ensures SameSummary(r, r')
  {
    hide Total, HasType, HasFlag;
    assert r.eventTypes == r'.eventTypes by {
      assert forall t :: t in r.eventTypes <==> t in r'.eventTypes;
    }
    assert r.riskFlags == r'.riskFlags;
    EarliestIsUnique(items, k, r.firstSeen, r'.firstSeen);
    LatestIsUnique(items, k, r.lastSeen, r'.lastSeen);
  }

  lemma EarliestIsUnique(items: seq<Item>, k: string, t: Option<int>, u: Option<int>)
    requires Earliest(items, k, t) && Earliest(items, k, u)
    ensures t == u
  {
  }

  lemma LatestIsUnique(items: seq<Item>, k: string, t: Option<int>, u: Option<int>)
    requires Latest(items, k, t) && Latest(items, k, u)
    ensures t == u
  {
  }

  lemma SummaryPermutes(items: seq<Item>, items': seq<Item>, k: string, r: Record)
    requires multiset(items) == multiset(items') && Summarises(items, k, r)
    ensures Summarises(items', k, r)
  {
    forall it ensures it in items <==> it in items' {
      assert it in multiset(items) <==> it in multiset(items');
    }
    TotalPermutes(items, items', CountOf(k));
    TotalPermutes(items, items', WeightOf(k));
    forall t ensures Total(items, TypeCountOf(k, t)) == Total(items', TypeCountOf(k, t)) {
      TotalPermutes(items, items', TypeCountOf(k, t));
    }
    forall t ensures HasType(items, k, t) <==> HasType(items', k, t) { }
    forall f ensures HasFlag(items, k, f) <==> HasFlag(items', k, f) { }
    hide Total, HasType, HasFlag;
  }

  /** Permuting the accepted rows changes at most the first-row fields of each record. */
  lemma OrderDoesNotMatter(items: seq<Item>, items': seq<Item>, k: string)
    requires multiset(items) == multiset(items')
    ensures k in Folded(items) <==> k in Folded(items')
    ensures k in Folded(items) ==> SameSummary(Folded(items)[k], Folded(items')[k])
  {
    FoldSummarises(items, k);
    FoldSummarises(items', k);
    hide Folded, Summarises;
    forall it ensures it in items <==> it in items' {
      assert it in multiset(items) <==> it in multiset(items');
    }
    if k in Folded(items) {
      SummaryPermutes(items, items', k, Folded(items)[k]);
      SummaryIsUnique(items', k, Folded(items)[k], Folded(items')[k]);
    }
  }

  ghost function CsvHits(start: int, end: int, it: Item): CsvRow -> int {
    (row: CsvRow) => if row.at.Some? && InWindow(row.at.value, start, end) && CsvItem(row) == it then 1 else 0
  }

  ghost function DbHits(start: int, end: int, it: Item): DbRow -> int {
    (row: DbRow) =>
      if row.key != "" && (row.at.Some? ==> InWindow(row.at.value, start, end)) && DbItem(row) == it then 1 else 0
  }

  lemma {:induction false} CsvMultiplicity(rows: seq<CsvRow>, start: int, end: int, it: Item)
    ensures multiset(CsvAccepted(rows, start, end))[it] == Total(rows, CsvHits(start, end, it))
  {
    if rows != [] { CsvMultiplicity(rows[..|rows| - 1], start, end, it); }
  }

  lemma {:induction false} DbMultiplicity(rows: seq<DbRow>, start: int, end: int, it: Item)
    ensures multiset(DbAccepted(rows, start, end))[it] == Total(rows, DbHits(start, end, it))
  {
    if rows != [] { DbMultiplicity(rows[..|rows| - 1], start, end, it); }
  }

  /** CSV: shuffling the file changes at most entity_type, source_count and degree, and never
      whether the fetch raises. */
  lemma CsvOrderDoesNotMatter(rows: seq<CsvRow>, rows': seq<CsvRow>, start: int, end: int, k: string)
    requires multiset(rows) == multiset(rows')
    ensures var m, m' := Folded(CsvAccepted(rows, start, end)), Folded(CsvAccepted(rows', start, end));
            (k in m <==> k in m') && (k in m ==> SameSummary(m[k], m'[k]))
    ensures CsvFails(rows, start, end) <==> CsvFails(rows', start, end)
  {
    forall row ensures row in rows <==> row in rows' {
      assert row in multiset(rows) <==> row in multiset(rows');
    }
    forall it ensures multiset(CsvAccepted(rows, start, end))[it] == multiset(CsvAccepted(rows', start, end))[it] {
      CsvMultiplicity(rows, start, end, it);
      CsvMultiplicity(rows', start, end, it);
      TotalPermutes(rows, rows', CsvHits(start, end, it));
    }
    assert multiset(CsvAccepted(rows, start, end)) == multiset(CsvAccepted(rows', start, end));
    OrderDoesNotMatter(CsvAccepted(rows, start, end), CsvAccepted(rows', start, end), k);
  }

  lemma {:induction false} DbSourceIsOne(rows: seq<DbRow>, start: int, end: int)
    ensures forall it :: it in DbAccepted(rows, start, end) ==> it.source == 1
  {
    if rows != [] { DbSourceIsOne(rows[..|rows| - 1], start, end); }
  }

  lemma {:induction false} SourceKept(items: seq<Item>, k: string)
    requires k in Folded(items) && forall it :: it in items ==> it.source == 1
    ensures Folded(items)[k].sourceCount == 1
  {
    var init, it := items[..|items| - 1], items[|items| - 1];
    assert items == init + [it] && it in items;
    forall x | x in init ensures x in items { }
    if k in Folded(init) { SourceKept(init, k); }
  }

  /** Database: shuffling the result set changes at most entity_type. */
  lemma DbOrderDoesNotMatter(rows: seq<DbRow>, rows': seq<DbRow>, start: int, end: int, k: string)
    requires multiset(rows) == multiset(rows')
    ensures var m, m' := Folded(DbAccepted(rows, start, end)), Folded(DbAccepted(rows', start, end));
            && (k in m <==> k in m')
            && (k in m ==> WithDegree(m'[k]) == WithDegree(m[k]).(entityType := m'[k].entityType))
  {
    var items, items' := DbAccepted(rows, start, end), DbAccepted(rows', start, end);
    forall it ensures multiset(items)[it] == multiset(items')[it] {
      DbMultiplicity(rows, start, end, it);
      DbMultiplicity(rows', start, end, it);
      TotalPermutes(rows, rows', DbHits(start, end, it));
    }
    assert multiset(items) == multiset(items');
    OrderDoesNotMatter(items, items', k);
    DbSourceIsOne(rows, start, end);
    DbSourceIsOne(rows', start, end);
    if k in Folded(items) {
      SourceKept(items, k);
      SourceKept(items', k);
    }
  }
}
