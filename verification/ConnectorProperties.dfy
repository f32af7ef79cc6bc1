/** The connectors' records in terms of the rows they came from, column by column. */
module ConnectorProperties {
  import opened Options
  import opened Sums
  import opened Connector

  lemma {:induction false} TotalSame<T>(xs: seq<T>, f: T -> int, g: T -> int)
    requires forall x :: x in xs ==> f(x) == g(x)
    ensures Total(xs, f) == Total(xs, g)
  {
    if xs != [] {
      var init := xs[..|xs| - 1];
      forall x | x in init ensures x in xs { }
      assert xs[|xs| - 1] in xs;
      TotalSame(init, f, g);
    }
  }

  // ----- First rows and order -----

  /** Place p holds the first item of key k. */
  ghost predicate FirstItem(items: seq<Item>, k: string, p: nat) {
    p < |items| && items[p].key == k && forall j :: 0 <= j < p ==> items[j].key != k
  }

  /** A record's type, source count and initial degree come from its first item. */
  lemma {:induction false} FirstItemKept(items: seq<Item>, k: string) returns (p: nat)
    requires k in Folded(items)
    ensures FirstItem(items, k, p)
    ensures var r, it := Folded(items)[k], items[p];
            r.entityType == it.entityType && r.sourceCount == it.source && r.degree == it.source
  {
    var n := |items| - 1;
    if k in Folded(items[..n]) {
      p := FirstItemKept(items[..n], k);
    } else {
      p := n;
      forall j | 0 <= j < n ensures items[j].key != k {
        FoldSummarises(items[..n], k);
        assert items[..n][j] in items[..n];
      }
    }
  }

  /** Records are listed by the first appearance of their keys: the i-th one's first item comes
      after exactly the keys listed before it. */
  lemma {:induction false} ListedInOrder(items: seq<Item>, i: nat) returns (p: nat)
    requires i < |KeyOrder(items)|
    ensures Listed(items)[i].entityKey == KeyOrder(items)[i]
    ensures FirstItem(items, KeyOrder(items)[i], p) && KeyOrder(items[..p]) == KeyOrder(items)[..i]
  {
    p := KeyOrderAt(items, i);
    OrderIsKeys(items);
    var k := KeyOrder(items)[i];
    assert k in KeyOrder(items);
    FoldSummarises(items, k);
    hide Folded, Summarises, FirstItem;
    KeyIsKept(items, k);
  }

  lemma KeyIsKept(items: seq<Item>, k: string)
    requires k in Folded(items)
    ensures Folded(items)[k].entityKey == k
  {
    FoldSummarises(items, k);
  }

  lemma {:induction false} KeyOrderAt(items: seq<Item>, i: nat) returns (p: nat)
    requires i < |KeyOrder(items)|
    ensures FirstItem(items, KeyOrder(items)[i], p) && KeyOrder(items[..p]) == KeyOrder(items)[..i]
  {
    var n := |items| - 1;
    if i < |KeyOrder(items[..n])| {
      p := KeyOrderAt(items[..n], i);
      assert items[..n][..p] == items[..p];
    } else {
      p := n;
      forall j | 0 <= j < n ensures items[j].key != items[n].key {
        KeyOrderHas(items[..n], j);
      }
    }
  }

  lemma {:induction false} KeyOrderHas(items: seq<Item>, j: nat)
    requires j < |items|
    ensures items[j].key in KeyOrder(items)
  {
    if j < |items| - 1 { KeyOrderHas(items[..|items| - 1], j); }
  }

  // ----- CSV rows -----

  /** The row's timestamp parses and lies in the window. */
  predicate CsvIn(row: CsvRow, start: int, end: int) {
    row.at.Some? && start <= row.at.value <= end
  }

  ghost function CsvTerm(start: int, end: int, f: Item -> int): CsvRow -> int {
    (row: CsvRow) => if CsvIn(row, start, end) then f(CsvItem(row)) else 0
  }

  lemma {:induction false} CsvTotal(rows: seq<CsvRow>, start: int, end: int, f: Item -> int)
    ensures Total(CsvAccepted(rows, start, end), f) == Total(rows, CsvTerm(start, end, f))
  {
    if rows != [] {
      var init, last := rows[..|rows| - 1], rows[|rows| - 1];
      var before := CsvAccepted(init, start, end);
      CsvTotal(init, start, end, f);
      TotalAppend(before, CsvItem(last), f);
      assert before + [] == before;
    }
  }

  lemma {:induction false} CsvMembers(rows: seq<CsvRow>, start: int, end: int, it: Item)
    ensures it in CsvAccepted(rows, start, end) <==> exists row :: row in rows && CsvIn(row, start, end) && it == CsvItem(row)
  {
    if rows != [] {
      var init, last := rows[..|rows| - 1], rows[|rows| - 1];
      CsvMembers(init, start, end, it);
      assert rows == init + [last];
      assert forall row :: row in rows <==> row in init || row == last;
    }
  }

  lemma {:induction false} CsvAt(rows: seq<CsvRow>, start: int, end: int, p: nat) returns (q: nat)
    requires p < |CsvAccepted(rows, start, end)|
    ensures q < |rows| && CsvIn(rows[q], start, end) && CsvAccepted(rows, start, end)[p] == CsvItem(rows[q])
    ensures CsvAccepted(rows[..q], start, end) == CsvAccepted(rows, start, end)[..p]
  {
    var n := |rows| - 1;
    if p < |CsvAccepted(rows[..n], start, end)| {
      q := CsvAt(rows[..n], start, end, p);
      assert rows[..n][..q] == rows[..q];
    } else {
      q := n;
    }
  }

  predicate CsvOf(row: CsvRow, start: int, end: int, k: string) {
    CsvIn(row, start, end) && row.key == k
  }

  ghost function CsvEvents(start: int, end: int, k: string): CsvRow -> int {
    (row: CsvRow) => if CsvOf(row, start, end, k) && row.counts.Some? then row.counts.value.events else 0
  }

  ghost function CsvTypeEvents(start: int, end: int, k: string, t: string): CsvRow -> int {
    (row: CsvRow) => if CsvOf(row, start, end, k) && row.eventType == t && row.counts.Some? then row.counts.value.events else 0
  }

  /** Row q is the first of key k in the window. */
  ghost predicate FirstCsvRow(rows: seq<CsvRow>, start: int, end: int, k: string, q: nat) {
    q < |rows| && CsvOf(rows[q], start, end, k) && forall j :: 0 <= j < q ==> !CsvOf(rows[j], start, end, k)
  }

  /** What the CSV record of k holds, column by column. */
  ghost predicate CsvRecord(rows: seq<CsvRow>, start: int, end: int, k: string, r: Record) {
    && r.entityKey == k
    && r.eventCount == Total(rows, CsvEvents(start, end, k)) && r.weightedDegree == r.eventCount
    && (forall t :: t in r.eventTypes <==> exists row :: row in rows && CsvOf(row, start, end, k) && row.eventType == t)
    && (forall t :: t in r.eventTypes ==> r.eventTypes[t] == Total(rows, CsvTypeEvents(start, end, k, t)))
    && (forall f :: f in r.riskFlags <==> exists row :: row in rows && CsvOf(row, start, end, k) && f in row.flags)
    && r.firstSeen.Some? && r.lastSeen.Some?
    && (exists row :: row in rows && CsvOf(row, start, end, k) && row.at == r.firstSeen)
    && (exists row :: row in rows && CsvOf(row, start, end, k) && row.at == r.lastSeen)
    && forall row :: row in rows && CsvOf(row, start, end, k) ==> r.firstSeen.value <= row.at.value <= r.lastSeen.value
  }

  lemma CsvItemOf(row: CsvRow)
    ensures var it := CsvItem(row);
            && it.key == row.key && it.eventType == row.eventType
            && it.count == it.weight == (if row.counts.Some? then row.counts.value.events else 0)
  {
  }

  lemma CsvTypes(rows: seq<CsvRow>, start: int, end: int, k: string, t: string)
    ensures HasType(CsvAccepted(rows, start, end), k, t) <==>
              exists row :: row in rows && CsvOf(row, start, end, k) && row.eventType == t
    ensures Total(CsvAccepted(rows, start, end), TypeCountOf(k, t)) == Total(rows, CsvTypeEvents(start, end, k, t))
  {
    var items := CsvAccepted(rows, start, end);
    CsvTotal(rows, start, end, TypeCountOf(k, t));
    forall row: CsvRow ensures CsvTerm(start, end, TypeCountOf(k, t))(row) == CsvTypeEvents(start, end, k, t)(row) {
      CsvItemOf(row);
    }
    TotalSame(rows, CsvTerm(start, end, TypeCountOf(k, t)), CsvTypeEvents(start, end, k, t));
    hide Total;
    if it :| it in items && it.key == k && it.eventType == t { CsvMembers(rows, start, end, it); }
    if row :| row in rows && CsvOf(row, start, end, k) && row.eventType == t { CsvMembers(rows, start, end, CsvItem(row)); }
  }

  lemma CsvFlags(rows: seq<CsvRow>, start: int, end: int, k: string, f: string)
    ensures HasFlag(CsvAccepted(rows, start, end), k, f) <==>
              exists row :: row in rows && CsvOf(row, start, end, k) && f in row.flags
  {
    var items := CsvAccepted(rows, start, end);
    if it :| it in items && it.key == k && f in it.flags { CsvMembers(rows, start, end, it); }
    if row :| row in rows && CsvOf(row, start, end, k) && f in row.flags { CsvMembers(rows, start, end, CsvItem(row)); }
  }

  lemma CsvKeys(rows: seq<CsvRow>, start: int, end: int, k: string)
    ensures k in Folded(CsvAccepted(rows, start, end)) <==> exists row :: row in rows && CsvOf(row, start, end, k)
  {
    var items := CsvAccepted(rows, start, end);
    FoldSummarises(items, k);
    hide Folded;
    if it :| it in items && it.key == k { CsvMembers(rows, start, end, it); }
    if row :| row in rows && CsvOf(row, start, end, k) { CsvMembers(rows, start, end, CsvItem(row)); }
  }

  lemma CsvTimes(rows: seq<CsvRow>, start: int, end: int, k: string, first: Option<int>, last: Option<int>)
    requires Earliest(CsvAccepted(rows, start, end), k, first) && Latest(CsvAccepted(rows, start, end), k, last)
    requires exists row :: row in rows && CsvOf(row, start, end, k)
    ensures first.Some? && last.Some?
    ensures exists row :: row in rows && CsvOf(row, start, end, k) && row.at == first
    ensures exists row :: row in rows && CsvOf(row, start, end, k) && row.at == last
    ensures forall row :: row in rows && CsvOf(row, start, end, k) ==> first.value <= row.at.value <= last.value
  {
    var items := CsvAccepted(rows, start, end);
    forall row | row in rows && CsvOf(row, start, end, k) ensures CsvItem(row) in items && CsvItem(row).key == k {
      CsvMembers(rows, start, end, CsvItem(row));
    }
    var row :| row in rows && CsvOf(row, start, end, k);
    assert CsvItem(row) in items;
    var a :| a in items && a.key == k && a.at == first;
    CsvMembers(rows, start, end, a);
    var b :| b in items && b.key == k && b.at == last;
    CsvMembers(rows, start, end, b);
    forall x | x in rows && CsvOf(x, start, end, k) ensures first.value <= x.at.value <= last.value {
      assert CsvItem(x) in items && CsvItem(x).at == x.at;
    }
  }

  lemma CsvSums(rows: seq<CsvRow>, start: int, end: int, k: string)
    ensures Total(CsvAccepted(rows, start, end), CountOf(k)) == Total(rows, CsvEvents(start, end, k))
    ensures Total(CsvAccepted(rows, start, end), WeightOf(k)) == Total(rows, CsvEvents(start, end, k))
  {
    CsvTotal(rows, start, end, CountOf(k));
    CsvTotal(rows, start, end, WeightOf(k));
    hide Total, CsvAccepted;
    forall row: CsvRow
      ensures CsvTerm(start, end, CountOf(k))(row) == CsvEvents(start, end, k)(row)
      ensures CsvTerm(start, end, WeightOf(k))(row) == CsvEvents(start, end, k)(row)
    {
      CsvItemOf(row);
    }
    TotalSame(rows, CsvTerm(start, end, CountOf(k)), CsvEvents(start, end, k));
    TotalSame(rows, CsvTerm(start, end, WeightOf(k)), CsvEvents(start, end, k));
  }

  lemma CsvFromSummary(rows: seq<CsvRow>, start: int, end: int, k: string, r: Record)
    requires Summarises(CsvAccepted(rows, start, end), k, r)
    requires exists row :: row in rows && CsvOf(row, start, end, k)
    ensures CsvRecord(rows, start, end, k, r)
  {
    var items := CsvAccepted(rows, start, end);
    hide CsvAccepted, CsvOf, Total, HasType, HasFlag, Earliest, Latest;
    CsvSums(rows, start, end, k);
    forall t
      ensures HasType(items, k, t) <==> exists row :: row in rows && CsvOf(row, start, end, k) && row.eventType == t
      ensures Total(items, TypeCountOf(k, t)) == Total(rows, CsvTypeEvents(start, end, k, t))
    {
      CsvTypes(rows, start, end, k, t);
    }
    forall f ensures HasFlag(items, k, f) <==> exists row :: row in rows && CsvOf(row, start, end, k) && f in row.flags {
      CsvFlags(rows, start, end, k, f);
    }
    CsvTimes(rows, start, end, k, r.firstSeen, r.lastSeen);
  }

  /** Every CSV record, from its rows: sums of event_count, flags, earliest and latest time. */
  lemma CsvRecordMeaning(rows: seq<CsvRow>, start: int, end: int, k: string)
    ensures var m := Folded(CsvAccepted(rows, start, end));
            && (k in m <==> exists row :: row in rows && CsvOf(row, start, end, k))
            && (k in m ==> CsvRecord(rows, start, end, k, m[k]))
  {
    hide *;
    var m := Folded(CsvAccepted(rows, start, end));
    CsvKeys(rows, start, end, k);
    FoldSummarises(CsvAccepted(rows, start, end), k);
    if k in m { CsvFromSummary(rows, start, end, k, m[k]); }
  }

  /** Its type, source count and degree are those of the first row of the key. */
  lemma CsvFirstRow(rows: seq<CsvRow>, start: int, end: int, k: string) returns (q: nat)
    requires k in Folded(CsvAccepted(rows, start, end)) && !CsvFails(rows, start, end)
    ensures FirstCsvRow(rows, start, end, k, q) && rows[q].counts.Some?
    ensures var r := Folded(CsvAccepted(rows, start, end))[k];
            r.entityType == rows[q].entityType && r.sourceCount == r.degree == rows[q].counts.value.sources
  {
    var items := CsvAccepted(rows, start, end);
    var p := FirstItemKept(items, k);
    q := CsvAt(rows, start, end, p);
    assert rows[q] in rows && !CsvRaises(rows[q], start, end);
    forall j | 0 <= j < q ensures !CsvOf(rows[j], start, end, k) {
      CsvMembers(rows[..q], start, end, CsvItem(rows[j]));
      assert rows[j] in rows[..q];
      if CsvIn(rows[j], start, end) {
        var i :| 0 <= i < p && items[..p][i] == CsvItem(rows[j]);
        assert items[i].key == rows[j].key;
      }
    }
  }

  // ----- Database rows -----

  /** A row counts if it has a key, and its timestamp, if any, lies in the window. */
  predicate DbIn(row: DbRow, start: int, end: int) {
    row.key != "" && (row.at.None? || start <= row.at.value <= end)
  }

  /** k is the row's key, or the row's type and key where the key has no type prefix. */
  predicate DbOf(row: DbRow, start: int, end: int, k: string) {
    && DbIn(row, start, end)
    && if ':' in row.key then row.key == k else row.entityType + ":" + row.key == k
  }

  ghost function DbTerm(start: int, end: int, f: Item -> int): DbRow -> int {
    (row: DbRow) => if DbIn(row, start, end) then f(DbItem(row)) else 0
  }

  lemma {:induction false} DbTotal(rows: seq<DbRow>, start: int, end: int, f: Item -> int)
    ensures Total(DbAccepted(rows, start, end), f) == Total(rows, DbTerm(start, end, f))
  {
    if rows != [] {
      var init, last := rows[..|rows| - 1], rows[|rows| - 1];
      var before := DbAccepted(init, start, end);
      DbTotal(init, start, end, f);
      TotalAppend(before, DbItem(last), f);
      assert before + [] == before;
    }
  }

  lemma {:induction false} DbMembers(rows: seq<DbRow>, start: int, end: int, it: Item)
    ensures it in DbAccepted(rows, start, end) <==> exists row :: row in rows && DbIn(row, start, end) && it == DbItem(row)
  {
    if rows != [] {
      var init, last := rows[..|rows| - 1], rows[|rows| - 1];
      DbMembers(init, start, end, it);
      hide DbItem;
      assert rows == init + [last];
      assert forall row :: row in rows <==> row in init || row == last;
    }
  }

  ghost function DbCount(start: int, end: int, k: string): DbRow -> int {
    (row: DbRow) => if DbOf(row, start, end, k) then 1 else 0
  }

  ghost function DbWeight(start: int, end: int, k: string): DbRow -> int {
    (row: DbRow) => if DbOf(row, start, end, k) then (if row.weight >= 1 then row.weight else 1) else 0
  }

  ghost function DbTypeCount(start: int, end: int, k: string, t: string): DbRow -> int {
    (row: DbRow) => if DbOf(row, start, end, k) && row.eventType == t then 1 else 0
  }

  /** What the database record of k holds, column by column; rows without a time bear no time. */
  ghost predicate DbRecord(rows: seq<DbRow>, start: int, end: int, k: string, r: Record) {
    && r.entityKey == k && r.sourceCount == 1
    && r.eventCount == Total(rows, DbCount(start, end, k)) && r.weightedDegree == Total(rows, DbWeight(start, end, k))
    && (forall t :: t in r.eventTypes <==> exists row :: row in rows && DbOf(row, start, end, k) && row.eventType == t)
    && (forall t :: t in r.eventTypes ==> r.eventTypes[t] == Total(rows, DbTypeCount(start, end, k, t)))
    && (forall f :: f in r.riskFlags <==> exists row :: row in rows && DbOf(row, start, end, k) && f in row.flags)
    && (r.firstSeen.None? <==> forall row :: row in rows && DbOf(row, start, end, k) ==> row.at.None?)
    && (r.lastSeen.None? <==> r.firstSeen.None?)
    && (exists row :: row in rows && DbOf(row, start, end, k) && row.at == r.firstSeen)
    && (exists row :: row in rows && DbOf(row, start, end, k) && row.at == r.lastSeen)
    && forall row :: row in rows && DbOf(row, start, end, k) && row.at.Some? ==>
         r.firstSeen.Some? && r.lastSeen.Some? && r.firstSeen.value <= row.at.value <= r.lastSeen.value
  }

  lemma DbItemOf(row: DbRow, start: int, end: int, k: string)
    ensures DbOf(row, start, end, k) <==> DbIn(row, start, end) && DbItem(row).key == k
    ensures DbItem(row).at == row.at && DbItem(row).flags == row.flags && DbItem(row).eventType == row.eventType
    ensures DbItem(row).count == 1 && DbItem(row).source == 1 && DbItem(row).weight == if row.weight >= 1 then row.weight else 1
  {
  }

  lemma DbMember(rows: seq<DbRow>, start: int, end: int, k: string)
    ensures forall it :: it in DbAccepted(rows, start, end) && it.key == k ==>
              exists row :: row in rows && DbOf(row, start, end, k) && it == DbItem(row)
    ensures forall row :: row in rows && DbOf(row, start, end, k) ==>
              DbItem(row) in DbAccepted(rows, start, end) && DbItem(row).key == k
  {
    forall it | it in DbAccepted(rows, start, end) && it.key == k
      ensures exists row :: row in rows && DbOf(row, start, end, k) && it == DbItem(row)
    {
      DbMembers(rows, start, end, it);
    }
    forall row | row in rows && DbOf(row, start, end, k)
      ensures DbItem(row) in DbAccepted(rows, start, end) && DbItem(row).key == k
    {
      DbMembers(rows, start, end, DbItem(row));
    }
  }

  lemma DbTypes(rows: seq<DbRow>, start: int, end: int, k: string, t: string)
    ensures HasType(DbAccepted(rows, start, end), k, t) <==>
              exists row :: row in rows && DbOf(row, start, end, k) && row.eventType == t
    ensures Total(DbAccepted(rows, start, end), TypeCountOf(k, t)) == Total(rows, DbTypeCount(start, end, k, t))
  {
    hide DbItem, DbOf, DbIn, DbAccepted, Total;
    DbTotal(rows, start, end, TypeCountOf(k, t));
    DbMember(rows, start, end, k);
    forall row: DbRow
      ensures DbTerm(start, end, TypeCountOf(k, t))(row) == DbTypeCount(start, end, k, t)(row)
      ensures DbItem(row).eventType == row.eventType
    {
      DbItemOf(row, start, end, k);
    }
    TotalSame(rows, DbTerm(start, end, TypeCountOf(k, t)), DbTypeCount(start, end, k, t));
    if it :| it in DbAccepted(rows, start, end) && it.key == k && it.eventType == t {
      var row :| row in rows && DbOf(row, start, end, k) && it == DbItem(row);
    }
  }

  lemma DbFlags(rows: seq<DbRow>, start: int, end: int, k: string, f: string)
    ensures HasFlag(DbAccepted(rows, start, end), k, f) <==>
              exists row :: row in rows && DbOf(row, start, end, k) && f in row.flags
  {
    DbMember(rows, start, end, k);
    hide DbItem, DbOf, DbAccepted;
    forall row ensures DbItem(row).flags == row.flags { DbItemOf(row, start, end, k); }
    if it :| it in DbAccepted(rows, start, end) && it.key == k && f in it.flags {
      var row :| row in rows && DbOf(row, start, end, k) && it == DbItem(row);
    }
  }

  lemma DbTimes(rows: seq<DbRow>, start: int, end: int, k: string, first: Option<int>, last: Option<int>)
    requires Earliest(DbAccepted(rows, start, end), k, first) && Latest(DbAccepted(rows, start, end), k, last)
    requires exists row :: row in rows && DbOf(row, start, end, k)
    ensures first.None? <==> forall row :: row in rows && DbOf(row, start, end, k) ==> row.at.None?
    ensures last.None? <==> first.None?
    ensures exists row :: row in rows && DbOf(row, start, end, k) && row.at == first
    ensures exists row :: row in rows && DbOf(row, start, end, k) && row.at == last
    ensures forall row :: row in rows && DbOf(row, start, end, k) && row.at.Some? ==>
              first.Some? && last.Some? && first.value <= row.at.value <= last.value
  {
    var items := DbAccepted(rows, start, end);
    DbMember(rows, start, end, k);
    hide DbItem, DbOf, DbAccepted;
    forall row ensures DbItem(row).at == row.at { DbItemOf(row, start, end, k); }
    var row :| row in rows && DbOf(row, start, end, k);
    assert DbItem(row) in items;
    if first.Some? {
      var a :| a in items && a.key == k && a.at == first;
      var x :| x in rows && DbOf(x, start, end, k) && a == DbItem(x);
    }
    if last.Some? {
      var a :| a in items && a.key == k && a.at == last;
      var x :| x in rows && DbOf(x, start, end, k) && a == DbItem(x);
    }
    forall x | x in rows && DbOf(x, start, end, k) && x.at.Some?
      ensures first.Some? && last.Some? && first.value <= x.at.value <= last.value
    {
      assert DbItem(x) in items && DbItem(x).key == k && DbItem(x).at == x.at;
    }
  }

  lemma DbSums(rows: seq<DbRow>, start: int, end: int, k: string)
    ensures Total(DbAccepted(rows, start, end), CountOf(k)) == Total(rows, DbCount(start, end, k))
    ensures Total(DbAccepted(rows, start, end), WeightOf(k)) == Total(rows, DbWeight(start, end, k))
  {
    hide DbItem, DbOf, DbIn, DbAccepted, Total;
    DbTotal(rows, start, end, CountOf(k));
    DbTotal(rows, start, end, WeightOf(k));
    forall row: DbRow
      ensures DbTerm(start, end, CountOf(k))(row) == DbCount(start, end, k)(row)
      ensures DbTerm(start, end, WeightOf(k))(row) == DbWeight(start, end, k)(row)
    {
      DbItemOf(row, start, end, k);
    }
    TotalSame(rows, DbTerm(start, end, CountOf(k)), DbCount(start, end, k));
    TotalSame(rows, DbTerm(start, end, WeightOf(k)), DbWeight(start, end, k));
  }

  lemma DbKeys(rows: seq<DbRow>, start: int, end: int, k: string)
    ensures k in Folded(DbAccepted(rows, start, end)) <==> exists row :: row in rows && DbOf(row, start, end, k)
  {
    FoldSummarises(DbAccepted(rows, start, end), k);
    DbMember(rows, start, end, k);
    hide Folded, DbItem, DbOf, DbAccepted;
    if it :| it in DbAccepted(rows, start, end) && it.key == k {
      var row :| row in rows && DbOf(row, start, end, k) && it == DbItem(row);
    }
  }

  lemma DbFromSummary(rows: seq<DbRow>, start: int, end: int, k: string, r: Record)
    requires Summarises(DbAccepted(rows, start, end), k, r) && r.sourceCount == 1
    requires exists row :: row in rows && DbOf(row, start, end, k)
    ensures DbRecord(rows, start, end, k, r)
  {
    var items := DbAccepted(rows, start, end);
    hide DbAccepted, DbOf, Total, HasType, HasFlag, Earliest, Latest;
    DbSums(rows, start, end, k);
    forall t
      ensures HasType(items, k, t) <==> exists row :: row in rows && DbOf(row, start, end, k) && row.eventType == t
      ensures Total(items, TypeCountOf(k, t)) == Total(rows, DbTypeCount(start, end, k, t))
    {
      DbTypes(rows, start, end, k, t);
    }
    forall f ensures HasFlag(items, k, f) <==> exists row :: row in rows && DbOf(row, start, end, k) && f in row.flags {
      DbFlags(rows, start, end, k, f);
    }
    DbTimes(rows, start, end, k, r.firstSeen, r.lastSeen);
  }

  /** Every database record, from its rows. */
  lemma DbRecordMeaning(rows: seq<DbRow>, start: int, end: int, k: string)
    ensures var m := Folded(DbAccepted(rows, start, end));
            && (k in m <==> exists row :: row in rows && DbOf(row, start, end, k))
            && (k in m ==> DbRecord(rows, start, end, k, m[k]))
  {
    hide *;
    var items := DbAccepted(rows, start, end);
    DbKeys(rows, start, end, k);
    FoldSummarises(items, k);
    DbSourceIsOne(rows, start, end);
    if k in Folded(items) {
      SourceKept(items, k);
      DbFromSummary(rows, start, end, k, Folded(items)[k]);
    }
  }

  lemma {:induction false} DbAt(rows: seq<DbRow>, start: int, end: int, p: nat) returns (q: nat)
    requires p < |DbAccepted(rows, start, end)|
    ensures q < |rows| && DbIn(rows[q], start, end) && DbAccepted(rows, start, end)[p] == DbItem(rows[q])
    ensures DbAccepted(rows[..q], start, end) == DbAccepted(rows, start, end)[..p]
  {
    var n := |rows| - 1;
    if p < |DbAccepted(rows[..n], start, end)| {
      q := DbAt(rows[..n], start, end, p);
      assert rows[..n][..q] == rows[..q];
    } else {
      q := n;
    }
  }

  /** A record's type is that of the first row of its key. */
  lemma DbFirstRow(rows: seq<DbRow>, start: int, end: int, k: string) returns (q: nat)
    requires k in Folded(DbAccepted(rows, start, end))
    ensures q < |rows| && DbOf(rows[q], start, end, k) && forall j :: 0 <= j < q ==> !DbOf(rows[j], start, end, k)
    ensures Folded(DbAccepted(rows, start, end))[k].entityType == rows[q].entityType
  {
    var items := DbAccepted(rows, start, end);
    var p := FirstItemKept(items, k);
    q := DbAt(rows, start, end, p);
    DbItemOf(rows[q], start, end, k);
    DbMember(rows[..q], start, end, k);
    forall i | 0 <= i < p ensures items[..p][i].key != k { assert items[i].key != k; }
    forall j | 0 <= j < q ensures !DbOf(rows[j], start, end, k) {
      assert rows[j] in rows[..q];
    }
  }

  /** The degree that is reported counts the event types of the rows. */
  lemma DbDegree(rows: seq<DbRow>, start: int, end: int, i: nat)
    requires i < |AllWithDegree(Listed(DbAccepted(rows, start, end)))|
    ensures var r := AllWithDegree(Listed(DbAccepted(rows, start, end)))[i];
            r.degree == |r.eventTypes.Keys| || (r.eventTypes == map[] && r.degree == 1)
  {
    hide Listed, DbAccepted;
  }
}
