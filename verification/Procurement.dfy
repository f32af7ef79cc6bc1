/** OCDS procurement ingest: per-party accounting of buyers and suppliers. */
module Procurement {
  import opened Options
  import opened Sums

  datatype Meta = Meta(directorConflict: bool, priceInflated: bool, singleSource: bool, shell: bool)

  datatype Award = Award(value: real, suppliers: seq<string>)

  /** contracts: amendment counts of the listed contracts; None when the field is absent. An
      absent buyer is "". */
  datatype Release = Release(
    buyer: string, contracts: Option<seq<nat>>, fyEnd: bool, awards: seq<Award>, meta: Meta)

  datatype Party = Party(
    totalValue: real, counterparties: set<string>, amendmentCount: nat, totalContracts: nat, fyEndCount: nat,
    meta: Meta)

  type Parties = map<string, Party>

  const NO_FLAGS: Meta := Meta(false, false, false, false)
  const NEW_PARTY: Party := Party(0.0, {}, 0, 0, 0, NO_FLAGS)

  /** One supplier of one award, with what it takes from its release. */
  datatype Entry = Entry(buyer: string, supplier: string, value: real, amendments: nat, fyEnd: bool, meta: Meta)

  function Get(ps: Parties, id: string): Party {
    if id in ps then ps[id] else NEW_PARTY
  }

  function OrFlags(m: Meta, n: Meta): Meta {
    Meta(m.directorConflict || n.directorConflict, m.priceInflated || n.priceInflated,
         m.singleSource || n.singleSource, m.shell || n.shell)
  }

  function Credited(p: Party, e: Entry, counterparty: Option<string>): Party {
    Party(p.totalValue + e.value,
          p.counterparties + (if counterparty.Some? then {counterparty.value} else {}),
          p.amendmentCount + e.amendments, p.totalContracts + 1, p.fyEndCount + (if e.fyEnd then 1 else 0),
          OrFlags(p.meta, e.meta))
  }

  /** The loop over (buyer, supplier); an absent buyer is passed over. */
  function Recorded(ps: Parties, e: Entry): Parties {
    var withBuyer := if e.buyer == "" then ps else ps[e.buyer := Credited(Get(ps, e.buyer), e, Some(e.supplier))];
    withBuyer[e.supplier :=
      Credited(Get(withBuyer, e.supplier), e,
               if e.buyer == "" then None else Some(if e.supplier == e.buyer then e.supplier else e.buyer))]
  }

  function Ledger(es: seq<Entry>): Parties {
    if es == [] then map[] else Recorded(Ledger(es[..|es| - 1]), es[|es| - 1])
  }

  // ----- The entries of a file -----

  /** `contracts[0].amendments`: an absent field means none, an empty list has no element 0. */
  function Amendments(r: Release): Option<nat> {
    if r.contracts.None? then Some(0)
    else if r.contracts.value == [] then None
    else Some(r.contracts.value[0])
  }

  function AwardEntries(r: Release, amendments: nat, value: real, suppliers: seq<string>): seq<Entry> {
    if suppliers == [] then []
    else
      var s := suppliers[|suppliers| - 1];
      AwardEntries(r, amendments, value, suppliers[..|suppliers| - 1])
      + if s != "" then [Entry(r.buyer, s, value, amendments, r.fyEnd, r.meta)] else []
  }

  function ReleaseEntries(r: Release, amendments: nat, awards: seq<Award>): seq<Entry> {
    if awards == [] then []
    else
      var a := awards[|awards| - 1];
      ReleaseEntries(r, amendments, awards[..|awards| - 1]) + AwardEntries(r, amendments, a.value, a.suppliers)
  }

  /** None: some release has an empty contracts list and the ingest raises IndexError. */
  function EntriesOf(rs: seq<Release>): Option<seq<Entry>> {
    if rs == [] then Some([])
    else
      var before, r := EntriesOf(rs[..|rs| - 1]), rs[|rs| - 1];
      if before.None? || Amendments(r).None? then None
      else Some(before.value + ReleaseEntries(r, Amendments(r).value, r.awards))
  }

  lemma {:induction false} LedgerAppend(a: seq<Entry>, b: seq<Entry>, e: Entry)
    ensures Ledger(a + b + [e]) == Recorded(Ledger(a + b), e)
  {
    assert (a + b + [e])[..|a + b|] == a + b;
  }

  /** `for pid in (buyer_id, supplier_id)`. */
  method CreditBoth(ps0: Parties, e: Entry) returns (ps: Parties)
    requires e.supplier != ""
    ensures ps == Recorded(ps0, e)
  {
    ps := ps0;
    var ids, n := [e.buyer, e.supplier], 0;
    while n < 2
      invariant n <= 2
      invariant ps == if n == 0 then ps0
                      else if n == 1 then
                        if e.buyer == "" then ps0 else ps0[e.buyer := Credited(Get(ps0, e.buyer), e, Some(e.supplier))]
                      else Recorded(ps0, e)
    {
      var id := ids[n];
      if id != "" {
        var counterparty := if e.buyer != "" then Some(if id == e.buyer then e.supplier else e.buyer) else None;
        ps := ps[id := Credited(Get(ps, id), e, counterparty)];
      }
      n := n + 1;
    }
  }

  method CreditAward(ps0: Parties, r: Release, amendments: nat, value: real, suppliers: seq<string>, ghost es: seq<Entry>)
    returns (ps: Parties)
    requires ps0 == Ledger(es)
    ensures ps == Ledger(es + AwardEntries(r, amendments, value, suppliers))
  {
    hide Recorded, Ledger;
    ps := ps0;
    var n := 0;
    assert es + AwardEntries(r, amendments, value, suppliers[..n]) == es;
    while n < |suppliers|
      invariant n <= |suppliers|
      invariant ps == Ledger(es + AwardEntries(r, amendments, value, suppliers[..n]))
    {
      var s := suppliers[n];
      assert suppliers[..n + 1][..n] == suppliers[..n];
      ghost var sofar := AwardEntries(r, amendments, value, suppliers[..n]);
      if s != "" {
        var e := Entry(r.buyer, s, value, amendments, r.fyEnd, r.meta);
        LedgerAppend(es, sofar, e);
        assert es + (sofar + [e]) == es + sofar + [e];
        ps := CreditBoth(ps, e);
      } else {
        assert AwardEntries(r, amendments, value, suppliers[..n + 1]) == sofar;
      }
      n := n + 1;
    }
    assert suppliers[..n] == suppliers;
  }

  method CreditRelease(ps0: Parties, r: Release, amendments: nat, ghost es: seq<Entry>) returns (ps: Parties)
    requires ps0 == Ledger(es)
    ensures ps == Ledger(es + ReleaseEntries(r, amendments, r.awards))
  {
    hide Ledger, AwardEntries;
    ps := ps0;
    var n := 0;
    assert es + ReleaseEntries(r, amendments, r.awards[..n]) == es;
    while n < |r.awards|
      invariant n <= |r.awards|
      invariant ps == Ledger(es + ReleaseEntries(r, amendments, r.awards[..n]))
    {
      assert r.awards[..n + 1][..n] == r.awards[..n];
      var a := r.awards[n];
      ghost var before := ReleaseEntries(r, amendments, r.awards[..n]);
      ps := CreditAward(ps, r, amendments, a.value, a.suppliers, es + before);
      assert es + before + AwardEntries(r, amendments, a.value, a.suppliers)
             == es + (before + AwardEntries(r, amendments, a.value, a.suppliers));
      n := n + 1;
    }
    assert r.awards[..n] == r.awards;
  }

  /** The aggregation part of ingest_ocds_file. */
  method Aggregate(rs: seq<Release>) returns (ps: Option<Parties>)
    ensures ps.Some? <==> EntriesOf(rs).Some?
    ensures ps.Some? ==> ps.value == Ledger(EntriesOf(rs).value)
  {
    var parties: Parties := map[];
    assert parties == Ledger(EntriesOf(rs[..0]).value);
    hide Ledger, ReleaseEntries;
    var n := 0;
    while n < |rs|
      invariant n <= |rs|
      invariant EntriesOf(rs[..n]).Some? && parties == Ledger(EntriesOf(rs[..n]).value)
    {
      var r := rs[n];
      assert rs[..n + 1][..n] == rs[..n];
      var amendments := Amendments(r);
      if amendments.None? {
        StaysFailed(rs, n + 1);
        return None;
      }
      parties := CreditRelease(parties, r, amendments.value, EntriesOf(rs[..n]).value);
      n := n + 1;
    }
    assert rs[..n] == rs;
    ps := Some(parties);
  }

  lemma {:induction false} StaysFailed(rs: seq<Release>, n: nat)
    requires n <= |rs| && EntriesOf(rs[..n]).None?
    ensures EntriesOf(rs).None?
  {
    if n < |rs| {
      var init := rs[..|rs| - 1];
      assert init[..n] == rs[..n];
      StaysFailed(init, n);
    } else {
      assert rs[..n] == rs;
    }
  }

  /** The ingest fails exactly on a release whose contracts field is an empty list. */
  lemma {:induction false} FailsExactly(rs: seq<Release>)
    ensures EntriesOf(rs).None? <==> exists r :: r in rs && r.contracts == Some([])
  {
    if rs != [] {
      FailsExactly(rs[..|rs| - 1]);
      assert rs == rs[..|rs| - 1] + [rs[|rs| - 1]];
    }
  }

  // ----- What a party's record means -----

  /** How often an entry credits a party: once per side it is on. */
  function Times(e: Entry, id: string): nat {
    (if e.buyer == id && id != "" then 1 else 0) + (if e.supplier == id then 1 else 0)
  }

  ghost function ContractsOf(id: string): Entry -> int {
    (e: Entry) => Times(e, id)
  }

  ghost function AmendmentsOf(id: string): Entry -> int {
    (e: Entry) => if Times(e, id) == 0 then 0 else if Times(e, id) == 1 then e.amendments else e.amendments + e.amendments
  }

  ghost function YearEndsOf(id: string): Entry -> int {
    (e: Entry) => if e.fyEnd then Times(e, id) else 0
  }

  /** e puts c opposite id. */
  ghost predicate Opposite(e: Entry, id: string, c: string) {
    e.buyer != "" && ((e.buyer == id && e.supplier == c) || (e.supplier == id && e.buyer == c))
  }

  /** The value that an entry brings to a party. */
  ghost function ValueFor(id: string): Entry -> real {
    (e: Entry) => if Times(e, id) == 0 then 0.0 else if Times(e, id) == 1 then e.value else e.value + e.value
  }

  /** Every counter is the total over the entries that name the party. */
  ghost predicate CountersAdd(es: seq<Entry>, id: string, p: Party) {
    && p.totalContracts == Total(es, ContractsOf(id))
    && p.amendmentCount == Total(es, AmendmentsOf(id))
    && p.fyEndCount == Total(es, YearEndsOf(id))
    && p.totalValue == RealTotal(es, ValueFor(id))
  }

  ghost predicate FacedBy(es: seq<Entry>, id: string, c: string) {
    exists e :: e in es && Opposite(e, id, c)
  }

  /** Which of its entries raise flags: the disjunction of their flags. */
  function FlagsOf(es: seq<Entry>, id: string): Meta {
    if es == [] then NO_FLAGS
    else
      var before, e := FlagsOf(es[..|es| - 1], id), es[|es| - 1];
      if Times(e, id) > 0 then OrFlags(before, e.meta) else before
  }

  /** Counters total the entries naming the party, counterparties are the parties opposite to
      it, and flags are those of its entries. */
  ghost predicate Accounts(es: seq<Entry>, id: string, p: Party) {
    && CountersAdd(es, id, p)
    && (forall c :: c in p.counterparties <==> FacedBy(es, id, c))
    && p.meta == FlagsOf(es, id)
  }

  lemma FacedAppend(es: seq<Entry>, e: Entry, id: string, c: string)
    ensures FacedBy(es + [e], id, c) <==> FacedBy(es, id, c) || Opposite(e, id, c)
  {
    assert forall x :: x in es + [e] <==> x in es || x == e;
  }

  /** One entry's effect on one party, whichever sides it is on. */
  lemma RecordedParty(ps: Parties, e: Entry, id: string)
    requires e.supplier != ""
    ensures var p, q := Get(ps, id), Get(Recorded(ps, e), id);
            && q.totalContracts == p.totalContracts + ContractsOf(id)(e)
            && q.amendmentCount == p.amendmentCount + AmendmentsOf(id)(e)
            && q.fyEndCount == p.fyEndCount + YearEndsOf(id)(e)
            && q.totalValue == p.totalValue + ValueFor(id)(e)
            && (forall c :: c in q.counterparties <==> c in p.counterparties || Opposite(e, id, c))
            && q.meta == (if Times(e, id) > 0 then OrFlags(p.meta, e.meta) else p.meta)
  {
  }

  lemma {:induction false} PartyMeaning(es: seq<Entry>, id: string)
    requires forall e :: e in es ==> e.supplier != ""
    ensures Accounts(es, id, Get(Ledger(es), id))
  {
    hide Recorded, Times, Opposite, FacedBy;
    if es != [] {
      var init, e := es[..|es| - 1], es[|es| - 1];
      assert es == init + [e] && e in es;
      forall x | x in init ensures x in es { }
      PartyMeaning(init, id);
      RecordedParty(Ledger(init), e, id);
      forall c ensures c in Get(Ledger(es), id).counterparties <==> FacedBy(es, id, c) {
        FacedAppend(init, e, id, c);
      }
    } else {
      forall c ensures !FacedBy(es, id, c) { NobodyFaced(id, c); }
    }
  }

  // ----- From releases to entries -----

  /** What supplier `s` of award a takes from release r; an absent contracts field counts as no
      amendments, else those of the first contract. */
  function EntryFor(r: Release, a: Award, s: string): Entry {
    Entry(r.buyer, s, a.value,
          if r.contracts.Some? && r.contracts.value != [] then r.contracts.value[0] else 0, r.fyEnd, r.meta)
  }

  /** e is the entry of some named supplier of some award of release r. */
  ghost predicate EntryOf(r: Release, e: Entry) {
    exists a, supplier :: a in r.awards && supplier in a.suppliers && SupplierEntry(r, a, supplier, e)
  }

  predicate SupplierEntry(r: Release, a: Award, supplier: string, e: Entry) {
    supplier != "" && e == EntryFor(r, a, supplier)
  }

  lemma {:induction false} AwardEntriesExact(r: Release, a: Award, suppliers: seq<string>, e: Entry)
    requires Amendments(r).Some?
    ensures e in AwardEntries(r, Amendments(r).value, a.value, suppliers) <==>
              exists s :: s in suppliers && SupplierEntry(r, a, s, e)
  {
    if suppliers != [] {
      var init, last := suppliers[..|suppliers| - 1], suppliers[|suppliers| - 1];
      AwardEntriesExact(r, a, init, e);
      assert suppliers == init + [last];
      assert last in suppliers && forall s :: s in suppliers <==> s in init || s == last;
      var one := if last != "" then [Entry(r.buyer, last, a.value, Amendments(r).value, r.fyEnd, r.meta)] else [];
      assert e in one <==> SupplierEntry(r, a, last, e);
      assert AwardEntries(r, Amendments(r).value, a.value, suppliers)
             == AwardEntries(r, Amendments(r).value, a.value, init) + one;
      hide SupplierEntry, AwardEntries;
    }
  }

  lemma {:induction false} ReleaseEntriesExact(r: Release, awards: seq<Award>, e: Entry)
    requires Amendments(r).Some?
    ensures e in ReleaseEntries(r, Amendments(r).value, awards) <==>
              exists a, s :: a in awards && s in a.suppliers && SupplierEntry(r, a, s, e)
  {
    if awards != [] {
      var init, last := awards[..|awards| - 1], awards[|awards| - 1];
      ReleaseEntriesExact(r, init, e);
      AwardEntriesExact(r, last, last.suppliers, e);
      hide AwardEntries, SupplierEntry;
      assert awards == init + [last];
      assert forall a :: a in awards <==> a in init || a == last;
    }
  }

  /** The entries of a file are exactly those of its releases. */
  lemma {:induction false} EntriesExact(rs: seq<Release>, e: Entry)
    requires EntriesOf(rs).Some?
    ensures e in EntriesOf(rs).value <==> exists r :: r in rs && EntryOf(r, e)
  {
    if rs != [] {
      var init, last := rs[..|rs| - 1], rs[|rs| - 1];
      EntriesExact(init, e);
      ReleaseEntriesExact(last, last.awards, e);
      hide ReleaseEntries, SupplierEntry;
      assert e in ReleaseEntries(last, Amendments(last).value, last.awards) <==> EntryOf(last, e);
      hide EntryOf;
      assert rs == init + [last];
      assert forall r :: r in rs <==> r in init || r == last;
    }
  }

  // ----- How often: sums over releases, awards and suppliers -----

  ghost function SupplierTerm(r: Release, a: Award, f: Entry -> int): string -> int {
    (s: string) => if s == "" then 0 else f(EntryFor(r, a, s))
  }

  ghost function AwardTerm(r: Release, f: Entry -> int): Award -> int {
    (a: Award) => Total(a.suppliers, SupplierTerm(r, a, f))
  }

  /** The sum of f over the named suppliers of the awards of a release. */
  ghost function ReleaseTerm(f: Entry -> int): Release -> int {
    (r: Release) => Total(r.awards, AwardTerm(r, f))
  }

  lemma AwardStep(r: Release, a: Award, suppliers: seq<string>)
    requires Amendments(r).Some? && suppliers != []
    ensures var last := suppliers[|suppliers| - 1];
            AwardEntries(r, Amendments(r).value, a.value, suppliers)
              == AwardEntries(r, Amendments(r).value, a.value, suppliers[..|suppliers| - 1])
                 + if last == "" then [] else [EntryFor(r, a, last)]
  {
  }

  lemma MaybeAppend(es: seq<Entry>, e: Entry, here: bool, f: Entry -> int)
    ensures Total(es + if here then [e] else [], f) == Total(es, f) + if here then f(e) else 0
  {
    if here {
      assert (es + [e])[..|es|] == es;
    } else {
      assert es + [] == es;
    }
  }

  lemma {:induction false} AwardTotal(r: Release, a: Award, suppliers: seq<string>, f: Entry -> int)
    requires Amendments(r).Some?
    ensures Total(AwardEntries(r, Amendments(r).value, a.value, suppliers), f) == Total(suppliers, SupplierTerm(r, a, f))
  {
    if suppliers != [] {
      var init, last := suppliers[..|suppliers| - 1], suppliers[|suppliers| - 1];
      AwardTotal(r, a, init, f);
      AwardStep(r, a, suppliers);
      MaybeAppend(AwardEntries(r, Amendments(r).value, a.value, init), EntryFor(r, a, last), last != "", f);
      hide AwardEntries, EntryFor;
    }
  }

  lemma {:induction false} ReleaseTotal(r: Release, awards: seq<Award>, f: Entry -> int)
    requires Amendments(r).Some?
    ensures Total(ReleaseEntries(r, Amendments(r).value, awards), f) == Total(awards, AwardTerm(r, f))
  {
    if awards != [] {
      var init, last := awards[..|awards| - 1], awards[|awards| - 1];
      ReleaseTotal(r, init, f);
      AwardTotal(r, last, last.suppliers, f);
      TotalConcat(ReleaseEntries(r, Amendments(r).value, init), AwardEntries(r, Amendments(r).value, last.value, last.suppliers), f);
    }
  }

  /** Any total over the ledger's entries is the sum over the file: each named supplier of each
      award of each release counts exactly once. */
  lemma {:induction false} FileTotal(rs: seq<Release>, f: Entry -> int)
    requires EntriesOf(rs).Some?
    ensures Total(EntriesOf(rs).value, f) == Total(rs, ReleaseTerm(f))
  {
    if rs != [] {
      var init, last := rs[..|rs| - 1], rs[|rs| - 1];
      FileTotal(init, f);
      ReleaseTotal(last, last.awards, f);
      TotalConcat(EntriesOf(init).value, ReleaseEntries(last, Amendments(last).value, last.awards), f);
    }
  }

  ghost function SameEntry(e: Entry): Entry -> int {
    (x: Entry) => if x == e then 1 else 0
  }

  /** The ledger holds entry e once for every place in the file that yields it. */
  lemma EntryMultiplicity(rs: seq<Release>, e: Entry)
    requires EntriesOf(rs).Some?
    ensures multiset(EntriesOf(rs).value)[e] == Total(rs, ReleaseTerm(SameEntry(e)))
  {
    EntryCount(EntriesOf(rs).value, e);
    FileTotal(rs, SameEntry(e));
  }

  lemma {:induction false} EntryCount(es: seq<Entry>, e: Entry)
    ensures multiset(es)[e] == Total(es, SameEntry(e))
  {
    if es != [] {
      EntryCount(es[..|es| - 1], e);
      assert es == es[..|es| - 1] + [es[|es| - 1]];
    }
  }

  ghost function RealSupplierTerm(r: Release, a: Award, f: Entry -> real): string -> real {
    (s: string) => if s == "" then 0.0 else f(EntryFor(r, a, s))
  }

  ghost function RealAwardTerm(r: Release, f: Entry -> real): Award -> real {
    (a: Award) => RealTotal(a.suppliers, RealSupplierTerm(r, a, f))
  }

  ghost function RealReleaseTerm(f: Entry -> real): Release -> real {
    (r: Release) => RealTotal(r.awards, RealAwardTerm(r, f))
  }

  lemma {:induction false} RealAwardTotal(r: Release, a: Award, suppliers: seq<string>, f: Entry -> real)
    requires Amendments(r).Some?
    ensures RealTotal(AwardEntries(r, Amendments(r).value, a.value, suppliers), f) == RealTotal(suppliers, RealSupplierTerm(r, a, f))
  {
    if suppliers != [] {
      var init, last := suppliers[..|suppliers| - 1], suppliers[|suppliers| - 1];
      var before := AwardEntries(r, Amendments(r).value, a.value, init);
      RealAwardTotal(r, a, init, f);
      RealTotalAppend(before, EntryFor(r, a, last), f);
      assert before + [] == before;
    }
  }

  lemma {:induction false} RealReleaseTotal(r: Release, awards: seq<Award>, f: Entry -> real)
    requires Amendments(r).Some?
    ensures RealTotal(ReleaseEntries(r, Amendments(r).value, awards), f) == RealTotal(awards, RealAwardTerm(r, f))
  {
    if awards != [] {
      var init, last := awards[..|awards| - 1], awards[|awards| - 1];
      RealReleaseTotal(r, init, f);
      RealAwardTotal(r, last, last.suppliers, f);
      RealTotalConcat(ReleaseEntries(r, Amendments(r).value, init), AwardEntries(r, Amendments(r).value, last.value, last.suppliers), f);
    }
  }

  lemma {:induction false} RealFileTotal(rs: seq<Release>, f: Entry -> real)
    requires EntriesOf(rs).Some?
    ensures RealTotal(EntriesOf(rs).value, f) == RealTotal(rs, RealReleaseTerm(f))
  {
    if rs != [] {
      var init, last := rs[..|rs| - 1], rs[|rs| - 1];
      RealFileTotal(init, f);
      RealReleaseTotal(last, last.awards, f);
      RealTotalConcat(EntriesOf(init).value, ReleaseEntries(last, Amendments(last).value, last.awards), f);
    }
  }

  /** What the aggregation returns for a party, for every file it does not reject, as sums over
      the releases, awards and named suppliers of the file. */
  lemma PartyTotals(rs: seq<Release>, id: string)
    requires EntriesOf(rs).Some?
    ensures var p := Get(Ledger(EntriesOf(rs).value), id);
            && p.totalValue == RealTotal(rs, RealReleaseTerm(ValueFor(id)))
            && p.totalContracts == Total(rs, ReleaseTerm(ContractsOf(id)))
            && p.amendmentCount == Total(rs, ReleaseTerm(AmendmentsOf(id)))
            && p.fyEndCount == Total(rs, ReleaseTerm(YearEndsOf(id)))
  {
    NamedSuppliers(rs);
    PartyMeaning(EntriesOf(rs).value, id);
    RealFileTotal(rs, ValueFor(id));
    FileTotal(rs, ContractsOf(id));
    FileTotal(rs, AmendmentsOf(id));
    FileTotal(rs, YearEndsOf(id));
  }

  lemma NamedSuppliers(rs: seq<Release>)
    requires EntriesOf(rs).Some?
    ensures forall e :: e in EntriesOf(rs).value ==> e.supplier != ""
  {
    forall e | e in EntriesOf(rs).value ensures e.supplier != "" {
      EntriesExact(rs, e);
      var r :| r in rs && EntryOf(r, e);
    }
  }

  // ----- Who trades with whom, and under which flags -----

  /** s is a named supplier of some award of r. */
  ghost predicate Supplies(r: Release, s: string) {
    s != "" && exists a :: a in r.awards && s in a.suppliers
  }

  /** Party id is on some side of some award of r. */
  ghost predicate Involves(r: Release, id: string) {
    Supplies(r, id) || (id != "" && r.buyer == id && exists s :: Supplies(r, s))
  }

  lemma {:induction false} FlagRaised(es: seq<Entry>, id: string, flag: Meta -> bool)
    requires !flag(NO_FLAGS) && forall m, n :: flag(OrFlags(m, n)) == (flag(m) || flag(n))
    ensures flag(FlagsOf(es, id)) <==> exists e :: e in es && Times(e, id) > 0 && flag(e.meta)
  {
    if es != [] {
      var init, last := es[..|es| - 1], es[|es| - 1];
      FlagRaised(init, id, flag);
      assert es == init + [last];
      assert forall e :: e in es <==> e in init || e == last;
    }
  }

  lemma EntryInvolves(r: Release, e: Entry, id: string)
    requires EntryOf(r, e) && Times(e, id) > 0
    ensures Involves(r, id) && e.meta == r.meta && e.buyer == r.buyer && Supplies(r, e.supplier)
  {
    var a, s :| a in r.awards && s in a.suppliers && SupplierEntry(r, a, s, e);
    assert Supplies(r, s);
  }

  lemma SupplierHasEntry(r: Release, s: string) returns (e: Entry)
    requires Supplies(r, s)
    ensures EntryOf(r, e) && e.supplier == s && e.buyer == r.buyer && e.meta == r.meta
  {
    var a :| a in r.awards && s in a.suppliers;
    e := EntryFor(r, a, s);
    assert SupplierEntry(r, a, s, e);
  }

  lemma InvolvedHasEntry(r: Release, id: string) returns (e: Entry)
    requires Involves(r, id)
    ensures EntryOf(r, e) && Times(e, id) > 0 && e.meta == r.meta
  {
    if Supplies(r, id) {
      e := SupplierHasEntry(r, id);
    } else {
      var s :| Supplies(r, s);
      e := SupplierHasEntry(r, s);
    }
  }

  lemma FileFlag(rs: seq<Release>, id: string, flag: Meta -> bool)
    requires EntriesOf(rs).Some?
    requires !flag(NO_FLAGS) && forall m, n :: flag(OrFlags(m, n)) == (flag(m) || flag(n))
    ensures flag(Get(Ledger(EntriesOf(rs).value), id).meta) <==> exists r :: r in rs && Involves(r, id) && flag(r.meta)
  {
    var es := EntriesOf(rs).value;
    NamedSuppliers(rs);
    PartyMeaning(es, id);
    FlagRaised(es, id, flag);
    hide EntryOf, Involves, Times, Accounts;
    if e :| e in es && Times(e, id) > 0 && flag(e.meta) {
      EntriesExact(rs, e);
      var r :| r in rs && EntryOf(r, e);
      EntryInvolves(r, e, id);
    }
    if r :| r in rs && Involves(r, id) && flag(r.meta) {
      var e := InvolvedHasEntry(r, id);
      EntriesExact(rs, e);
    }
  }

  /** A party carries a flag if and only if some release involving it does. */
  lemma PartyFlags(rs: seq<Release>, id: string)
    requires EntriesOf(rs).Some?
    ensures var m := Get(Ledger(EntriesOf(rs).value), id).meta;
            && (m.directorConflict <==> exists r :: r in rs && Involves(r, id) && r.meta.directorConflict)
            && (m.priceInflated <==> exists r :: r in rs && Involves(r, id) && r.meta.priceInflated)
            && (m.singleSource <==> exists r :: r in rs && Involves(r, id) && r.meta.singleSource)
            && (m.shell <==> exists r :: r in rs && Involves(r, id) && r.meta.shell)
  {
    hide EntriesOf, Ledger, Involves, Get;
    FileFlag(rs, id, (m: Meta) => m.directorConflict);
    FileFlag(rs, id, (m: Meta) => m.priceInflated);
    FileFlag(rs, id, (m: Meta) => m.singleSource);
    FileFlag(rs, id, (m: Meta) => m.shell);
  }

  /** c is a counterparty of id if and only if one buys and the other supplies in some release. */
  lemma PartyCounterparties(rs: seq<Release>, id: string, c: string)
    requires EntriesOf(rs).Some?
    ensures c in Get(Ledger(EntriesOf(rs).value), id).counterparties <==>
              exists r :: r in rs && r.buyer != "" && ((r.buyer == id && Supplies(r, c)) || (r.buyer == c && Supplies(r, id)))
  {
    var es := EntriesOf(rs).value;
    NamedSuppliers(rs);
    PartyMeaning(es, id);
    if e :| e in es && Opposite(e, id, c) {
      EntriesExact(rs, e);
      var r :| r in rs && EntryOf(r, e);
      EntryInvolves(r, e, e.supplier);
    }
    if r :| r in rs && r.buyer != "" && ((r.buyer == id && Supplies(r, c)) || (r.buyer == c && Supplies(r, id))) {
      var e := SupplierHasEntry(r, if r.buyer == id && Supplies(r, c) then c else id);
      EntriesExact(rs, e);
      assert Opposite(e, id, c);
    }
  }

  lemma NobodyFaced(id: string, c: string)
    ensures !FacedBy([], id, c)
  {
  }

  // ----- Accounting -----

  ghost predicate MutualCounterparties(ps: Parties) {
    forall a, b :: a in ps && b in ps[a].counterparties ==> b in ps && a in ps[b].counterparties
  }

  lemma {:induction false} CounterpartiesAreMutual(es: seq<Entry>)
    ensures MutualCounterparties(Ledger(es))
  {
    if es != [] { CounterpartiesAreMutual(es[..|es| - 1]); }
  }

  ghost predicate Bounded(p: Party) {
    p.fyEndCount <= p.totalContracts && |p.counterparties| <= p.totalContracts
  }

  lemma CreditKeepsBound(p: Party, e: Entry, c: Option<string>)
    requires Bounded(p)
    ensures Bounded(Credited(p, e, c))
  {
    if c.Some? && c.value !in p.counterparties {
      assert |p.counterparties + {c.value}| == |p.counterparties| + 1;
    } else if c.Some? {
      assert p.counterparties + {c.value} == p.counterparties;
    } else {
      assert p.counterparties + {} == p.counterparties;
    }
  }

  /** Year-end contracts and distinct counterparties never exceed a party's contracts. */
  lemma {:induction false} CountsAreBounded(es: seq<Entry>, id: string)
    ensures Bounded(Get(Ledger(es), id))
  {
    if es != [] {
      var init, e := es[..|es| - 1], es[|es| - 1];
      CountsAreBounded(init, id);
      CreditKeepsBound(Get(Ledger(init), id), e, Some(e.supplier));
      var p := if e.buyer == id && id != "" then Credited(Get(Ledger(init), id), e, Some(e.supplier)) else Get(Ledger(init), id);
      var c := if e.buyer == "" then None else Some(if e.supplier == e.buyer then e.supplier else e.buyer);
      CreditKeepsBound(p, e, c);
    }
  }

  ghost function Contracts(ps: Parties): string -> int {
    (id: string) => Get(ps, id).totalContracts
  }

  ghost function Sides(): Entry -> int {
    (e: Entry) => if e.buyer == "" then 1 else 2
  }

  lemma CreditAddsOne(ps: Parties, id: string, e: Entry, c: Option<string>)
    ensures var ps' := ps[id := Credited(Get(ps, id), e, c)];
            SumOver(ps'.Keys, Contracts(ps')) == SumOver(ps.Keys, Contracts(ps)) + 1
  {
    var ps' := ps[id := Credited(Get(ps, id), e, c)];
    assert ps'.Keys == ps.Keys + {id};
    SumAbsent(ps.Keys, Contracts(ps), Contracts(ps'), id, 1);
  }

  /** Every entry with a buyer is counted by two parties, every other by one. */
  lemma {:induction false} ContractsAddUp(es: seq<Entry>)
    ensures SumOver(Ledger(es).Keys, Contracts(Ledger(es))) == Total(es, Sides())
  {
    if es == [] {
      SumZero({}, Contracts(Ledger(es)));
    } else {
      var init, e := es[..|es| - 1], es[|es| - 1];
      ContractsAddUp(init);
      var ps := Ledger(init);
      var withBuyer := if e.buyer == "" then ps else ps[e.buyer := Credited(Get(ps, e.buyer), e, Some(e.supplier))];
      if e.buyer != "" { CreditAddsOne(ps, e.buyer, e, Some(e.supplier)); }
      CreditAddsOne(withBuyer, e.supplier, e,
                    if e.buyer == "" then None else Some(if e.supplier == e.buyer then e.supplier else e.buyer));
    }
  }

  ghost function Values(ps: Parties): string -> real {
    (id: string) => Get(ps, id).totalValue
  }

  ghost function ValueSum(es: seq<Entry>): real {
    if es == [] then 0.0 else ValueSum(es[..|es| - 1]) + es[|es| - 1].value
  }

  /** Whichever side a set of ids is on, it collects each entry's value once. */
  lemma {:induction false} OneSideCollects(es: seq<Entry>, side: set<string>)
    requires forall e :: e in es ==> e.buyer != "" && (e.buyer in side <==> e.supplier !in side)
    ensures RealSum(side, Values(Ledger(es))) == ValueSum(es)
  {
    if es == [] {
      RealSumZero(side, Values(Ledger(es)));
    } else {
      var init, e := es[..|es| - 1], es[|es| - 1];
      assert es == init + [e] && e in es;
      forall x | x in init ensures x in es { }
      OneSideCollects(init, side);
      RealSumBump(side, Values(Ledger(init)), Values(Ledger(es)), if e.buyer in side then e.buyer else e.supplier, e.value);
    }
  }

  /** Double entry: with buyers throughout and no id on both sides, what buyers paid equals
      what suppliers were paid, and both equal the value of the entries. */
  lemma ValueBalances(es: seq<Entry>)
    requires forall e :: e in es ==> e.buyer != ""
    requires forall e, f :: e in es && f in es ==> e.buyer != f.supplier
    ensures var buyers, suppliers := set e | e in es :: e.buyer, set e | e in es :: e.supplier;
            RealSum(buyers, Values(Ledger(es))) == RealSum(suppliers, Values(Ledger(es))) == ValueSum(es)
  {
    OneSideCollects(es, set e | e in es :: e.buyer);
    OneSideCollects(es, set e | e in es :: e.supplier);
  }
}
