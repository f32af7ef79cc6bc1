/** What one pipeline run does, from its inputs alone: when it succeeds, and what it records. */
module RunProperties {
  import opened Options
  import opened HashIndex
  import opened Publisher
  import opened PublisherProperties
  import opened EdgeAgent
  import opened ModelStaleness

  /** Scoring ends without an error: nothing to score, or inference works and so does training
      if there is any. */
  predicate ScoringWorks(cfg: Config, s: AgentState, input: RunInput) {
    && input.fetched.Some?
    && (input.fetched.value != [] ==>
          && input.inferenceOk
          && (input.force || NothingToLoad(s, input) || Due(cfg, s.mem.runCount + 1) ==> input.training.TrainingSucceeds?))
  }

  ghost function HighCount(cfg: Config, input: RunInput): nat
    requires input.fetched.Some?
  {
    |HighPositions(input.fetched.value, cfg.threshold)|
  }

  lemma ModelScores(cfg: Config, s: AgentState, input: RunInput)
    requires input.fetched.Some?
    ensures ScoringWorks(cfg, s, input) <==>
              RunModel(cfg, Damaged(s.artifact, input.fault), s.mem.runCount + 1, input).Scored?
  {
  }

  lemma SentIsHigh(cfg: Config, input: RunInput)
    requires input.fetched.Some?
    ensures |PayloadOf(input.fetched.value, input.now, cfg.threshold, cfg.hash).patterns| == HighCount(cfg, input)
    ensures |HighRisk(input.fetched.value, cfg.threshold)| == HighCount(cfg, input)
  {
    HighRiskCount(input.fetched.value, cfg.threshold);
  }

  /** Exactly when a run succeeds: the fetch and the scoring worked, the index was saved, and
      the hub accepted the batch if there was anything to send. */
  lemma SucceedsExactly(cfg: Config, s: AgentState, input: RunInput)
    ensures RunOnce(cfg, s, input).mem.runCount == s.mem.runCount + 1 <==>
              && ScoringWorks(cfg, s, input) && input.indexSaved
              && (HighCount(cfg, input) > 0 ==> input.hub.Accepts?)
  {
    CounterEffects(cfg, s, input);
    if input.fetched.Some? {
      ModelScores(cfg, s, input);
      SentIsHigh(cfg, input);
    }
    hide RunModel, PayloadOf, Updated, ScoringWorks, HighCount;
  }

  /** What a successful run records. */
  lemma SuccessBooks(cfg: Config, s: AgentState, input: RunInput)
    requires RunOnce(cfg, s, input).mem.runCount == s.mem.runCount + 1
    ensures input.fetched.Some?
    ensures var t, n := RunOnce(cfg, s, input), HighCount(cfg, input);
            && t.mem.lastRun == Ok
            && t.mem.lastScored == |input.fetched.value| && t.mem.lastHighRisk == n
            && t.mem.lastAccepted == (if n == 0 then 0 else input.hub.n)
            && t.mem.lastPublish == (if n == 0 || input.hub.saysSkipped then Skipped else Ok)
            && t.mem.indexEntries == |t.entries|
            && t.mem.warningCount == (if input.inbox.Some? then |input.inbox.value| else s.mem.warningCount)
            && t.log == s.log + [Batch(input.now, input.fetched.value)]
            && t.disk == (if input.stateSaved then t.mem else s.disk)
            && |t.sent| == |s.sent| + (if n == 0 then 0 else 1) && s.sent <= t.sent
            && t.cache == (if input.inbox.Some? then ResolveAll(input.inbox.value, t.entries) else s.cache)
  {
    SucceedsExactly(cfg, s, input);
    CounterEffects(cfg, s, input);
    SentIsHigh(cfg, input);
    hide RunModel, PayloadOf, Updated, ScoringWorks, HighCount, ResolveAll;
  }

  /** What a failed run leaves: the counters of the last run but for the two statuses and the
      index size, the published batches plus at most the one in flight, and the same cache. */
  lemma FailureBooks(cfg: Config, s: AgentState, input: RunInput)
    requires RunOnce(cfg, s, input).mem.runCount != s.mem.runCount + 1
    ensures var t := RunOnce(cfg, s, input);
            && t.mem == s.mem.(lastRun := Error, lastPublish := if s.mem.lastPublish == Ok then Ok else Error,
                               indexEntries := t.mem.indexEntries)
            && t.disk == (if input.stateSaved then t.mem else s.disk)
            && t.cache == s.cache
            && (t.log == s.log ==> t.sent == s.sent && t.entries == s.entries && t.mem.indexEntries == s.mem.indexEntries)
            && (t.log != s.log ==> t.log == s.log + [Batch(input.now, input.fetched.value)] && t.mem.indexEntries == |t.entries|)
            && (t.sent != s.sent ==> input.hub == Raises(true) && |t.sent| == |s.sent| + 1 && s.sent <= t.sent)
  {
    CounterEffects(cfg, s, input);
    hide RunModel, PayloadOf, Updated;
    if input.fetched.Some? { assert s.log + [Batch(input.now, input.fetched.value)] != s.log; }
  }
}
