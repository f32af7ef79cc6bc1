/** Whole-run properties of the edge agent: publish/resolve round trip and model staleness. */
module AgentProperties {
  import opened Options
  import opened HashIndex
  import opened Publisher
  import opened EdgeAgent

  // ----- What every reachable state satisfies -----

  ghost predicate Observed(log: seq<Batch>, key: string) {
    exists i, r :: 0 <= i < |log| && r in log[i].results && r.entityKey == key
  }

  /** The hash separates the raw keys that were actually observed. */
  ghost predicate InjectiveOn(log: seq<Batch>, hash: Hash) {
    forall k, k' :: Observed(log, k) && Observed(log, k') && hash(k) == hash(k') ==> k == k'
  }

  ghost predicate HashSeen(log: seq<Batch>, hash: Hash, h: string) {
    exists k :: Observed(log, k) && hash(k) == h
  }

  /** Every published pattern carries the hash of a key observed by some index update. */
  ghost predicate PublishedWasObserved(log: seq<Batch>, sent: seq<Payload>, hash: Hash) {
    forall p, q :: p in sent && q in p.patterns ==> HashSeen(log, hash, q.entityKeyHash)
  }

  ghost predicate Consistent(cfg: Config, s: AgentState) {
    && s.entries == IndexOf(s.log, Span(cfg.retentionDays), cfg.hash)
    && PublishedWasObserved(s.log, s.sent, cfg.hash)
  }

  lemma ObservedGrows(log: seq<Batch>, b: Batch, key: string)
    requires Observed(log, key)
    ensures Observed(log + [b], key)
  {
    var i, r :| 0 <= i < |log| && r in log[i].results && r.entityKey == key;
    assert (log + [b])[i] == log[i];
  }

  lemma LogGrows(cfg: Config, log: seq<Batch>, sent: seq<Payload>, b: Batch)
    requires PublishedWasObserved(log, sent, cfg.hash)
    ensures PublishedWasObserved(log + [b], sent, cfg.hash)
    ensures forall r :: r in b.results ==> Observed(log + [b], r.entityKey)
  {
    var log' := log + [b];
    forall p, q | p in sent && q in p.patterns ensures HashSeen(log', cfg.hash, q.entityKeyHash) {
      assert HashSeen(log, cfg.hash, q.entityKeyHash);
      var k :| Observed(log, k) && cfg.hash(k) == q.entityKeyHash;
      ObservedGrows(log, b, k);
    }
    forall r | r in b.results ensures Observed(log', r.entityKey) {
      assert r in log'[|log|].results;
    }
  }

  lemma PayloadObserved(cfg: Config, log: seq<Batch>, results: seq<GNNResult>, now: int, q: Pattern)
    requires forall r :: r in results ==> Observed(log, r.entityKey)
    requires q in PayloadOf(results, now, cfg.threshold, cfg.hash).patterns
    ensures HashSeen(log, cfg.hash, q.entityKeyHash)
  {
    var high := HighRisk(results, cfg.threshold);
    var i :| 0 <= i < |high| && PatternsOf(high, cfg.hash)[i] == q;
    HighRiskExact(results, cfg.threshold, high[i]);
    assert high[i] in results;
  }

  /** The run got as far as the index update: its batch is logged and absorbed. */
  ghost predicate Absorbs(cfg: Config, s: AgentState, input: RunInput, t: AgentState) {
    && input.fetched.Some?
    && t.log == s.log + [Batch(input.now, input.fetched.value)]
    && t.entries == Updated(s.entries, input.fetched.value, input.now, Span(cfg.retentionDays), cfg.hash)
  }

  /** A run touches index, log and hub only by absorbing its batch, and then sends at most
      that batch's payload. */
  lemma RunEffects(cfg: Config, s: AgentState, input: RunInput)
    ensures var t := RunOnce(cfg, s, input);
            || (t.log == s.log && t.entries == s.entries && t.sent == s.sent)
            || (Absorbs(cfg, s, input, t)
                && (t.sent == s.sent
                    || t.sent == s.sent + [PayloadOf(input.fetched.value, input.now, cfg.threshold, cfg.hash)]))
  {
    hide RunModel, PayloadOf, Updated;
  }

  lemma StepConsistent(cfg: Config, s: AgentState, input: RunInput)
    requires Consistent(cfg, s)
    ensures Consistent(cfg, RunOnce(cfg, s, input))
  {
    RunEffects(cfg, s, input);
    hide RunOnce, PayloadOf, HashSeen, Updated;
    var t := RunOnce(cfg, s, input);
    if t.log != s.log {
      var b := Batch(input.now, input.fetched.value);
      assert t.log[..|t.log| - 1] == s.log && t.log[|t.log| - 1] == b;
      LogGrows(cfg, s.log, s.sent, b);
      var payload := PayloadOf(input.fetched.value, input.now, cfg.threshold, cfg.hash);
      forall q | q in payload.patterns ensures HashSeen(t.log, cfg.hash, q.entityKeyHash) {
        PayloadObserved(cfg, t.log, input.fetched.value, input.now, q);
      }
      forall p, q | p in t.sent && q in p.patterns ensures HashSeen(t.log, cfg.hash, q.entityKeyHash) {
        if p != payload { assert p in s.sent; }
      }
    }
  }

  lemma {:induction false} AlwaysConsistent(cfg: Config, events: seq<Event>)
    ensures Consistent(cfg, After(cfg, events))
  {
    if events != [] {
      AlwaysConsistent(cfg, events[..|events| - 1]);
      if events[|events| - 1].Run? {
        StepConsistent(cfg, After(cfg, events[..|events| - 1]), events[|events| - 1].input);
      }
    }
  }

  // ----- Publish / resolve round trip -----

  lemma {:induction false} MatchingKeys(results: seq<GNNResult>, at: int, h: string, hash: Hash)
    ensures forall o :: o in Matching(results, at, h, hash) ==> o.result in results && hash(o.result.entityKey) == h
    ensures forall r :: r in results && hash(r.entityKey) == h ==> Observation(at, r) in Matching(results, at, h, hash)
  {
    if results != [] {
      MatchingKeys(results[..|results| - 1], at, h, hash);
      assert results == results[..|results| - 1] + [results[|results| - 1]];
    }
  }

  lemma {:induction false} HistoryKeys(log: seq<Batch>, h: string, hash: Hash, o: Observation)
    requires o in History(log, h, hash)
    ensures hash(o.result.entityKey) == h && Observed(log, o.result.entityKey)
  {
    var init, last := log[..|log| - 1], log[|log| - 1];
    if o in History(init, h, hash) {
      HistoryKeys(init, h, hash, o);
      ObservedGrows(init, last, o.result.entityKey);
      assert log == init + [last];
    } else {
      MatchingKeys(last.results, last.at, h, hash);
      assert o.result in log[|log| - 1].results;
    }
  }

  lemma {:induction false} ObservedHasHistory(log: seq<Batch>, key: string, hash: Hash)
    requires Observed(log, key)
    ensures History(log, hash(key), hash) != []
  {
    var i, r :| 0 <= i < |log| && r in log[i].results && r.entityKey == key;
    var init, last := log[..|log| - 1], log[|log| - 1];
    if i == |log| - 1 {
      MatchingKeys(last.results, last.at, hash(key), hash);
    } else {
      assert r in init[i].results;
      ObservedHasHistory(init, key, hash);
    }
  }

  /** When hash h was last observed. */
  ghost function LastObserved(log: seq<Batch>, h: string, hash: Hash): int
    requires History(log, h, hash) != []
  {
    var obs := History(log, h, hash);
    obs[|obs| - 1].at
  }

  /** A hash the hub was sent resolves back to the raw key it was made from exactly until an
      index update later than its last observation plus the retention span. */
  lemma RoundTrip(cfg: Config, events: seq<Event>, p: Payload, q: Pattern, key: string)
    requires var s := After(cfg, events);
             && Chronological(s.log) && InjectiveOn(s.log, cfg.hash)
             && p in s.sent && q in p.patterns
             && Observed(s.log, key) && cfg.hash(key) == q.entityKeyHash
    ensures var s := After(cfg, events);
            var found := Resolve(s.entries, Some(q.entityKeyHash));
            && s.log != [] && History(s.log, q.entityKeyHash, cfg.hash) != []
            && (found.ResolvedLocalMatch? <==>
                  s.log[|s.log| - 1].at <= LastObserved(s.log, q.entityKeyHash, cfg.hash) + Span(cfg.retentionDays))
            && (found.ResolvedLocalMatch? ==> found.entry.entityKey == key)
  {
    AlwaysConsistent(cfg, events);
    hide After, IndexOf, FinalStreak, InjectiveOn;
    var s, h, span := After(cfg, events), q.entityKeyHash, Span(cfg.retentionDays);
    ObservedHasHistory(s.log, key, cfg.hash);
    IndexRefinesLog(s.log, h, span, cfg.hash);
    if h in s.entries {
      var obs := History(s.log, h, cfg.hash);
      StreakNonempty(obs, span);
      HistoryKeys(s.log, h, cfg.hash, obs[|obs| - 1]);
      SameKey(s.log, cfg.hash, obs[|obs| - 1].result.entityKey, key);
    }
  }

  lemma SameKey(log: seq<Batch>, hash: Hash, k: string, k': string)
    requires InjectiveOn(log, hash) && Observed(log, k) && Observed(log, k') && hash(k) == hash(k')
    ensures k == k'
  {
  }

  lemma {:induction false} AbsorbedHas(E: Entries, results: seq<GNNResult>, now: int, hash: Hash, r: GNNResult)
    requires r in results
    ensures var E' := Absorbed(E, results, now, hash);
            hash(r.entityKey) in E' && E'[hash(r.entityKey)].lastSeen == Some(now)
  {
    var init, last := results[..|results| - 1], results[|results| - 1];
    assert results == init + [last];
    if r != last { AbsorbedHas(E, init, now, hash, r); }
  }

  /** Every hash in a batch already has a stored entry, stamped with this run, when the batch
      is sent: the index update comes first and both sides use the same hash. */
  lemma IndexedBeforeSent(cfg: Config, s: AgentState, input: RunInput, q: Pattern)
    requires input.fetched.Some?
    requires q in PayloadOf(input.fetched.value, input.now, cfg.threshold, cfg.hash).patterns
    requires RunOnce(cfg, s, input).sent != s.sent
    ensures var t := RunOnce(cfg, s, input);
            q.entityKeyHash in t.entries && t.entries[q.entityKeyHash].lastSeen == Some(input.now)
  {
    hide RunOnce, PayloadOf, Absorbed, Pruned;
    var results, cutoff := input.fetched.value, input.now - Span(cfg.retentionDays);
    RunEffects(cfg, s, input);
    PatternOrigin(results, input.now, cfg, q);
    var r :| r in results && cfg.hash(r.entityKey) == q.entityKeyHash;
    AbsorbedHas(Pruned(s.entries, cutoff), results, input.now, cfg.hash, r);
  }

  lemma PatternOrigin(results: seq<GNNResult>, now: int, cfg: Config, q: Pattern)
    requires q in PayloadOf(results, now, cfg.threshold, cfg.hash).patterns
    ensures exists r :: r in results && cfg.hash(r.entityKey) == q.entityKeyHash
  {
    var high := HighRisk(results, cfg.threshold);
    var i :| 0 <= i < |high| && PatternsOf(high, cfg.hash)[i] == q;
    HighRiskExact(results, cfg.threshold, high[i]);
    assert high[i] in results;
  }

  /** After a failed run the publish status says "ok" exactly when it said so before: a batch
      that was refused does not show once an earlier one went through. */
  lemma FailureHidesPublishError(cfg: Config, s: AgentState, input: RunInput)
    requires !TryRun(cfg, s, input).ok
    ensures var t := RunOnce(cfg, s, input);
            && t.mem.lastRun == Error && t.mem.runCount == s.mem.runCount
            && t.mem.lastPublish == (if s.mem.lastPublish == Ok then Ok else Error)
  {
    hide RunModel, PayloadOf, Updated;
  }

  /** Warnings synced by a successful run are resolved against the index that run stored. */
  lemma CacheMatchesIndex(cfg: Config, s: AgentState, input: RunInput, i: nat)
    requires TryRun(cfg, s, input).ok && input.inbox.Some? && i < |input.inbox.value|
    ensures var t := RunOnce(cfg, s, input);
            && |t.cache| == |input.inbox.value|
            && t.cache[i] == ResolvedWarning(input.inbox.value[i], Resolve(t.entries, input.inbox.value[i].entityHash))
  {
    hide RunModel, PayloadOf, Updated, Resolve;
  }
}
