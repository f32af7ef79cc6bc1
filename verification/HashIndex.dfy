/** The edge node's hash index: which hashed entities it has seen lately, so that hub
    warnings can be resolved back to raw keys. Times are integer microseconds. */
module HashIndex {
  import opened Arithmetic
  import opened Options

  datatype GNNResult = GNNResult(
    entityKey: string, entityType: string, riskScore: real, uncertainty: real,
    fraudFamily: Option<string>, chainScore: real, riskFlags: seq<string>)

  /** One stored entry. A timestamp that is absent or does not parse is None. */
  datatype Entry = Entry(
    entityKey: string, entityType: string, firstSeen: Option<int>, lastSeen: Option<int>,
    observedCount: int, lastRisk: real, lastUncertainty: real, chainScore: real,
    fraudFamily: Option<string>, riskFlags: set<string>)

  type Entries = map<string, Entry>
  type Hash = string -> string

  const DAY: int := 86_400_000_000

  /** At least one day. */
  function Span(retentionDays: int): (span: int)
    ensures span >= DAY
    ensures retentionDays >= 1 ==> span == retentionDays * 24 * 60 * 60 * 1_000_000
    ensures retentionDays <= 1 ==> span == 24 * 60 * 60 * 1_000_000
  {
    AtLeastOne(retentionDays) * DAY
  }

  predicate Keeps(e: Entry, cutoff: int) {
    e.lastSeen.None? || e.lastSeen.value >= cutoff
  }

  function Pruned(entries: Entries, cutoff: int): Entries {
    map h | h in entries && Keeps(entries[h], cutoff) :: entries[h]
  }

  function FlagSet(flags: seq<string>): set<string> {
    set f | f in flags
  }

  /** The entry after one more observation of its hash. */
  function Touched(existing: Option<Entry>, r: GNNResult, now: int): Entry {
    Entry(r.entityKey, r.entityType,
          if existing.Some? && existing.value.firstSeen.Some? then existing.value.firstSeen else Some(now),
          Some(now),
          (if existing.Some? then existing.value.observedCount else 0) + 1,
          Round4(r.riskScore), Round4(r.uncertainty), Round4(r.chainScore), r.fraudFamily,
          (if existing.Some? then existing.value.riskFlags else {}) + FlagSet(r.riskFlags))
  }

  function Absorbed(entries: Entries, results: seq<GNNResult>, now: int, hash: Hash): Entries {
    if results == [] then entries
    else
      var before, r := Absorbed(entries, results[..|results| - 1], now, hash), results[|results| - 1];
      var h := hash(r.entityKey);
      before[h := Touched(Lookup(before, h), r, now)]
  }

  function Updated(entries: Entries, results: seq<GNNResult>, now: int, span: int, hash: Hash): Entries {
    Absorbed(Pruned(entries, now - span), results, now, hash)
  }

  datatype Resolution = ResolvedLocalMatch(entry: Entry) | HashNotSeenLocally

  /** A warning without a hash is looked up under the empty string. */
  function Resolve(entries: Entries, entityHash: Option<string>): Resolution {
    var h := if entityHash.Some? then entityHash.value else "";
    if h in entries then ResolvedLocalMatch(entries[h]) else HashNotSeenLocally
  }

  /** The index file and the operations on it. */
  class IndexFile {
    var entries: Entries
    var updatedAt: Option<int>
    const retentionDays: int
    const hash: Hash

    constructor (retentionDays: int, hash: Hash)
      ensures entries == map[] && updatedAt == None
      ensures this.retentionDays == retentionDays && this.hash == hash
    {
      entries, updatedAt := map[], None;
      this.retentionDays, this.hash := retentionDays, hash;
    }

    method Prune(all: Entries, now: int) returns (kept: Entries)
      ensures kept == Pruned(all, now - Span(retentionDays))
      ensures forall h :: h in kept <==>
                h in all && (all[h].lastSeen.None? || now - all[h].lastSeen.value <= Span(retentionDays))
      ensures forall h :: h in kept ==> kept[h] == all[h]
    {
      var cutoff := now - Span(retentionDays);
      kept := map[];
      var left := all.Keys;
      while left != {}
        invariant left <= all.Keys
        invariant kept == map h | h in all && h !in left && Keeps(all[h], cutoff) :: all[h]
        decreases left
      {
        var h :| h in left;
        var e := all[h];
        if e.lastSeen.None? {
          kept := kept[h := e];
        } else if e.lastSeen.value >= cutoff {
          kept := kept[h := e];
        }
        left := left - {h};
      }
    }

    /** The loop over one run's results. */
    method Absorb(pruned: Entries, results: seq<GNNResult>, now: int) returns (current: Entries)
      ensures current == Absorbed(pruned, results, now, hash)
    {
      hide Touched;
      current := pruned;
      var n := 0;
      while n < |results|
        invariant n <= |results|
        invariant current == Absorbed(pruned, results[..n], now, hash)
      {
        var h := hash(results[n].entityKey);
        assert results[..n + 1][..n] == results[..n];
        current := current[h := Touched(Lookup(current, h), results[n], now)];
        n := n + 1;
      }
      assert results[..n] == results;
    }

    /** Prunes, absorbs the results of one run, and rewrites the file. */
    method Update(results: seq<GNNResult>, now: int) returns (updated: nat, entryCount: nat)
      modifies this
      ensures entries == Updated(old(entries), results, now, Span(retentionDays), hash)
      ensures updatedAt == Some(now)
      ensures updated == |results| && entryCount == |entries|
    {
      hide Absorbed, Pruned;
      var kept := Prune(entries, now);
      var current := Absorb(kept, results, now);
      entries, updatedAt := current, Some(now);
      updated, entryCount := |results|, |entries|;
    }
  }

  // ----- The index as a function of the observation log -----

  /** One call of update_hash_index. */
  datatype Batch = Batch(at: int, results: seq<GNNResult>)

  datatype Observation = Observation(at: int, result: GNNResult)

  function IndexOf(log: seq<Batch>, span: int, hash: Hash): Entries {
    if log == [] then map[]
    else
      var last := log[|log| - 1];
      Updated(IndexOf(log[..|log| - 1], span, hash), last.results, last.at, span, hash)
  }

  function Matching(results: seq<GNNResult>, at: int, h: string, hash: Hash): seq<Observation> {
    if results == [] then []
    else
      var r := results[|results| - 1];
      Matching(results[..|results| - 1], at, h, hash)
      + if hash(r.entityKey) == h then [Observation(at, r)] else []
  }

  /** Every observation of hash h, oldest first. */
  function History(log: seq<Batch>, h: string, hash: Hash): seq<Observation> {
    if log == [] then []
    else
      var last := log[|log| - 1];
      History(log[..|log| - 1], h, hash) + Matching(last.results, last.at, h, hash)
  }

  predicate Chronological(log: seq<Batch>) {
    forall i, j :: 0 <= i < j < |log| ==> log[i].at <= log[j].at
  }

  function Gap(obs: seq<Observation>, i: nat): int
    requires 0 < i < |obs|
  {
    obs[i].at - obs[i - 1].at
  }

  /** obs[k..] is the longest final run of observations with no gap above the span. */
  ghost predicate StreakFrom(obs: seq<Observation>, span: int, k: nat) {
    && k < |obs|
    && (forall i :: k < i < |obs| ==> Gap(obs, i) <= span)
    && (k > 0 ==> Gap(obs, k) > span)
  }

  function FinalStreak(obs: seq<Observation>, span: int): seq<Observation> {
    if |obs| <= 1 then obs
    else
      var last := obs[|obs| - 1];
      if last.at - obs[|obs| - 2].at > span then [last]
      else FinalStreak(obs[..|obs| - 1], span) + [last]
  }

  lemma {:induction false} StreakNonempty(obs: seq<Observation>, span: int)
    requires obs != []
    ensures FinalStreak(obs, span) != []
    ensures FinalStreak(obs, span)[|FinalStreak(obs, span)| - 1] == obs[|obs| - 1]
  {
  }

  lemma StreakExtends(obs: seq<Observation>, span: int, k: nat)
    requires |obs| >= 2 && StreakFrom(obs[..|obs| - 1], span, k) && Gap(obs, |obs| - 1) <= span
    ensures StreakFrom(obs, span, k)
  {
    var init := obs[..|obs| - 1];
    forall i | 0 < i < |init| ensures Gap(obs, i) == Gap(init, i) {
    }
  }

  lemma {:induction false} StreakIsFinal(obs: seq<Observation>, span: int) returns (k: nat)
    requires obs != []
    ensures StreakFrom(obs, span, k) && FinalStreak(obs, span) == obs[k..]
  {
    var n := |obs|;
    if n == 1 {
      k := 0;
    } else if Gap(obs, n - 1) > span {
      k := n - 1;
    } else {
      k := StreakIsFinal(obs[..n - 1], span);
      StreakExtends(obs, span, k);
      hide StreakFrom;
      assert obs[k..] == obs[..n - 1][k..] + [obs[n - 1]];
    }
  }

  function FlagsOf(obs: seq<Observation>): set<string> {
    set i, f | 0 <= i < |obs| && f in obs[i].result.riskFlags :: f
  }

  /** What the index stores for an unbroken run of observations. */
  function Summary(s: seq<Observation>): Entry
    requires s != []
  {
    var last := s[|s| - 1].result;
    Entry(last.entityKey, last.entityType, Some(s[0].at), Some(s[|s| - 1].at), |s|,
          Round4(last.riskScore), Round4(last.uncertainty), Round4(last.chainScore), last.fraudFamily, FlagsOf(s))
  }

  /** E says about h exactly what its observations up to now say. */
  ghost predicate Reflects(E: Entries, obs: seq<Observation>, h: string, now: int, span: int) {
    && (h in E <==> obs != [] && obs[|obs| - 1].at >= now - span)
    && (h in E ==> FinalStreak(obs, span) != [] && E[h] == Summary(FinalStreak(obs, span)))
  }

  lemma PruneReflects(E: Entries, obs: seq<Observation>, h: string, before: int, now: int, span: int)
    requires Reflects(E, obs, h, before, span) && before <= now
    ensures Reflects(Pruned(E, now - span), obs, h, now, span)
  {
    if obs != [] { StreakNonempty(obs, span); }
  }

  lemma TouchReflects(E: Entries, obs: seq<Observation>, h: string, now: int, span: int, r: GNNResult, g: string)
    requires Reflects(E, obs, h, now, span) && span >= 0
    ensures Reflects(E[g := Touched(Lookup(E, g), r, now)],
                     obs + (if g == h then [Observation(now, r)] else []), h, now, span)
  {
    if g != h {
      assert obs + [] == obs;
    } else {
      var o := Observation(now, r);
      var obs' := obs + [o];
      assert obs'[..|obs'| - 1] == obs;
      if h in E {
        var s := FinalStreak(obs, span);
        StreakNonempty(obs, span);
        assert FinalStreak(obs', span) == s + [o];
        assert FlagsOf(s + [o]) == FlagsOf(s) + FlagSet(r.riskFlags) by { FlagsGrow(s, o); }
      } else {
        assert FinalStreak(obs', span) == [o];
        assert FlagsOf([o]) == FlagSet(r.riskFlags) by { FlagsGrow([], o); assert [] + [o] == [o]; }
      }
    }
  }

  lemma FlagsGrow(s: seq<Observation>, o: Observation)
    ensures FlagsOf(s + [o]) == FlagsOf(s) + FlagSet(o.result.riskFlags)
  {
    var t := s + [o];
    forall f ensures f in FlagsOf(t) <==> f in FlagsOf(s) || f in FlagSet(o.result.riskFlags) {
      if f in FlagsOf(s) {
        var i :| 0 <= i < |s| && f in s[i].result.riskFlags;
        assert t[i] == s[i];
      }
      if f in FlagSet(o.result.riskFlags) {
        assert t[|s|] == o;
      }
    }
  }

  lemma {:induction false} AbsorbReflects(E: Entries, obs: seq<Observation>, h: string, now: int, span: int,
                                          results: seq<GNNResult>, hash: Hash)
    requires Reflects(E, obs, h, now, span) && span >= 0
    ensures Reflects(Absorbed(E, results, now, hash), obs + Matching(results, now, h, hash), h, now, span)
  {
    if results == [] {
      assert obs + [] == obs;
    } else {
      var init, r := results[..|results| - 1], results[|results| - 1];
      AbsorbReflects(E, obs, h, now, span, init, hash);
      TouchReflects(Absorbed(E, init, now, hash), obs + Matching(init, now, h, hash), h, now, span,
                    r, hash(r.entityKey));
      assert obs + Matching(results, now, h, hash)
             == obs + Matching(init, now, h, hash) + (if hash(r.entityKey) == h then [Observation(now, r)] else []);
    }
  }

  lemma LogStep(log: seq<Batch>, h: string, span: int, hash: Hash)
    requires log != []
    ensures var init, last := log[..|log| - 1], log[|log| - 1];
            && IndexOf(log, span, hash) == Absorbed(Pruned(IndexOf(init, span, hash), last.at - span), last.results, last.at, hash)
            && History(log, h, hash) == History(init, h, hash) + Matching(last.results, last.at, h, hash)
            && (init == [] ==> IndexOf(init, span, hash) == map[] && History(init, h, hash) == [])
            && (Chronological(log) && init != [] ==> Chronological(init) && init[|init| - 1].at <= last.at)
  {
    hide Absorbed, Pruned, Matching;
  }

  /** The index refines the log: after updates in time order, a hash is present exactly when
      its last observation is within the retention span of the latest update, and its entry
      summarises its final unbroken streak of observations. */
  lemma {:induction false} IndexRefinesLog(log: seq<Batch>, h: string, span: int, hash: Hash)
    requires log != [] && Chronological(log) && span >= 0
    ensures Reflects(IndexOf(log, span, hash), History(log, h, hash), h, log[|log| - 1].at, span)
  {
    hide *;
    LogStep(log, h, span, hash);
    var init, last := log[..|log| - 1], log[|log| - 1];
    var E, obs := IndexOf(init, span, hash), History(init, h, hash);
    if init == [] {
      NothingReflected(h, last.at, span);
    } else {
      IndexRefinesLog(init, h, span, hash);
      PruneReflects(E, obs, h, init[|init| - 1].at, last.at, span);
    }
    AbsorbReflects(Pruned(E, last.at - span), obs, h, last.at, span, last.results, hash);
  }

  lemma NothingReflected(h: string, now: int, span: int)
    ensures Reflects(Pruned(map[], now - span), [], h, now, span)
  {
  }

  /** The stored entry of h, field by field, in terms of the log alone: times, count and flags
      of its final streak, everything else from its last observation. */
  lemma EntryMeaning(log: seq<Batch>, h: string, span: int, hash: Hash) returns (k: nat)
    requires log != [] && Chronological(log) && span >= 0
    requires h in IndexOf(log, span, hash)
    ensures var obs, e := History(log, h, hash), IndexOf(log, span, hash)[h];
            && StreakFrom(obs, span, k)
            && e.firstSeen == Some(obs[k].at)
            && e.lastSeen == Some(obs[|obs| - 1].at)
            && e.observedCount == |obs| - k
            && (forall f :: f in e.riskFlags <==> exists i :: k <= i < |obs| && f in obs[i].result.riskFlags)
            && LastKnown(e, obs[|obs| - 1].result)
  {
    hide IndexOf, History, FinalStreak, Chronological, Round4;
    IndexRefinesLog(log, h, span, hash);
    var obs := History(log, h, hash);
    k := StreakIsFinal(obs, span);
    FlagsInStreak(obs, k);
  }

  /** The descriptive fields of an entry are those of result r, scores to four places. */
  ghost predicate LastKnown(e: Entry, r: GNNResult) {
    && e.entityKey == r.entityKey && e.entityType == r.entityType && e.fraudFamily == r.fraudFamily
    && e.lastRisk == Round4(r.riskScore) && e.lastUncertainty == Round4(r.uncertainty)
    && e.chainScore == Round4(r.chainScore)
  }

  lemma FlagsInStreak(obs: seq<Observation>, k: nat)
    requires k <= |obs|
    ensures forall f :: f in FlagsOf(obs[k..]) <==> exists i :: k <= i < |obs| && f in obs[i].result.riskFlags
  {
    var s := obs[k..];
    forall f ensures f in FlagsOf(s) <==> exists i :: k <= i < |obs| && f in obs[i].result.riskFlags {
      if f in FlagsOf(s) {
        var i :| 0 <= i < |s| && f in s[i].result.riskFlags;
        assert obs[k + i] == s[i];
      }
      if i :| k <= i < |obs| && f in obs[i].result.riskFlags {
        assert s[i - k] == obs[i];
      }
    }
  }
}
