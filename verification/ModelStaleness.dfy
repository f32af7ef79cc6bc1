/** How old the weights of a run can be. Runs count from 1; a run at index i is scheduled to
    retrain when (i - 1) is a multiple of the interval. */
module ModelStaleness {
  import opened Arithmetic
  import opened Options
  import opened HashIndex
  import opened Publisher
  import opened EdgeAgent

  function RunIndex(s: AgentState): int {
    s.mem.runCount + 1
  }

  predicate Scheduled(cfg: Config, i: int) {
    i >= 1 && (i - 1) % Interval(cfg.retrainEvery) == 0
  }

  /** The index at which the weights used by this run were trained; None when the run scores
      nothing. */
  function WeightsUsed(cfg: Config, s: AgentState, input: RunInput): Option<int> {
    if input.fetched.None? then None
    else
      var m := RunModel(cfg, Damaged(s.artifact, input.fault), RunIndex(s), input);
      if m.Scored? then m.used else None
  }

  /** No run completes a scheduled index without records to train on. */
  ghost predicate ScheduledRunsHaveRecords(cfg: Config, events: seq<Event>) {
    forall j :: 0 <= j < |events| && events[j].Run? ==>
      HasRecordsIfScheduled(cfg, After(cfg, events[..j]), events[j].input)
  }

  ghost predicate HasRecordsIfScheduled(cfg: Config, s: AgentState, input: RunInput) {
    TryRun(cfg, s, input).ok && Scheduled(cfg, RunIndex(s)) ==> input.fetched.value != []
  }

  /** The last scheduled index up to n. */
  function LastScheduled(n: int, k: int): (l: int)
    requires n >= 1 && k >= 1
    ensures n - k < l <= n
  {
    n - (n - 1) % k
  }

  lemma NextScheduled(n: int, k: int)
    requires n >= 1 && k >= 1
    ensures LastScheduled(n + 1, k) == if n % k == 0 then n + 1 else LastScheduled(n, k)
  {
    var q, r := (n - 1) / k, (n - 1) % k;
    assert n == q * k + (r + 1);
    if r + 1 < k {
      DivModUnique(n, k, q, r + 1);
    } else {
      assert n == (q + 1) * k + 0;
      DivModUnique(n, k, q + 1, 0);
    }
  }

  lemma {:induction false} LastScheduledMonotone(m: int, n: int, k: int)
    requires 1 <= m <= n && k >= 1
    ensures LastScheduled(m, k) <= LastScheduled(n, k)
    decreases n - m
  {
    if m < n {
      LastScheduledMonotone(m, n - 1, k);
      NextScheduled(n - 1, k);
    }
  }

  /** The stored weights are at least as recent as the last scheduled index completed. */
  ghost predicate Recent(cfg: Config, s: AgentState) {
    && s.disk.runCount <= s.mem.runCount
    && (s.artifact.Readable? && s.mem.runCount >= 1 ==>
          s.artifact.trainedAt >= LastScheduled(s.mem.runCount, Interval(cfg.retrainEvery)))
  }

  lemma ModelKeepsRecent(cfg: Config, s: AgentState, input: RunInput)
    requires Recent(cfg, s) && input.fetched.Some?
    ensures var m := RunModel(cfg, Damaged(s.artifact, input.fault), RunIndex(s), input);
            Recent(cfg, s.(artifact := m.artifact))
    ensures var m := RunModel(cfg, Damaged(s.artifact, input.fault), RunIndex(s), input);
            m.Scored? && input.fetched.value != [] ==>
              && m.artifact == Readable(m.used.value)
              && m.used.value >= LastScheduled(RunIndex(s), Interval(cfg.retrainEvery))
  {
    if s.mem.runCount >= 1 { NextScheduled(s.mem.runCount, Interval(cfg.retrainEvery)); }
  }

  lemma EmptyModel(cfg: Config, artifact: Artifact, i: int, input: RunInput)
    requires input.fetched.Some?
    ensures input.fetched.value == [] ==> RunModel(cfg, artifact, i, input) == Scored(artifact, None)
  {
  }

  lemma RunKeepsRecent(cfg: Config, s: AgentState, input: RunInput)
    requires Recent(cfg, s) && HasRecordsIfScheduled(cfg, s, input)
    ensures Recent(cfg, RunOnce(cfg, s, input))
  {
    hide RunOnce, TryRun, RunModel, LastScheduled;
    if input.fetched.Some? {
      ModelKeepsRecent(cfg, s, input);
      EmptyModel(cfg, Damaged(s.artifact, input.fault), RunIndex(s), input);
      if s.mem.runCount >= 1 { NextScheduled(s.mem.runCount, Interval(cfg.retrainEvery)); }
    }
    CounterEffects(cfg, s, input);
  }

  /** The counter moves only on success, the artifact only in the model phase. */
  lemma CounterEffects(cfg: Config, s: AgentState, input: RunInput)
    ensures var t, a := RunOnce(cfg, s, input), TryRun(cfg, s, input);
            && t.mem.runCount == s.mem.runCount + (if a.ok then 1 else 0)
            && t.disk == (if input.stateSaved then t.mem else s.disk)
            && t.artifact == (if input.fetched.None? then Damaged(s.artifact, input.fault)
                              else RunModel(cfg, Damaged(s.artifact, input.fault), RunIndex(s), input).artifact)
            && (a.ok ==> input.fetched.Some? && RunModel(cfg, Damaged(s.artifact, input.fault), RunIndex(s), input).Scored?)
  {
    hide RunModel, PayloadOf, Updated, Damaged;
  }

  lemma {:induction false} AlwaysRecent(cfg: Config, events: seq<Event>)
    requires ScheduledRunsHaveRecords(cfg, events)
    ensures Recent(cfg, After(cfg, events))
  {
    if events != [] {
      var init, last := events[..|events| - 1], events[|events| - 1];
      forall j | 0 <= j < |init| && init[j].Run?
        ensures HasRecordsIfScheduled(cfg, After(cfg, init[..j]), init[j].input)
      {
        assert events[j] == init[j] && events[..j] == init[..j];
      }
      AlwaysRecent(cfg, init);
      var s := After(cfg, init);
      match last
      case Run(input) =>
        assert HasRecordsIfScheduled(cfg, After(cfg, events[..|events| - 1]), events[|events| - 1].input);
        RunKeepsRecent(cfg, s, input);
      case Restart(readable) =>
        if readable && s.artifact.Readable? && s.disk.runCount >= 1 {
          LastScheduledMonotone(s.disk.runCount, s.mem.runCount, Interval(cfg.retrainEvery));
        }
    }
  }

  /** Staleness bound: as long as scheduled runs have records, every run that scores uses
      weights trained fewer than k indices ago, through any mix of failures, forced runs,
      lost artifacts, unsaved counters and restarts. */
  lemma StalenessBound(cfg: Config, events: seq<Event>, input: RunInput)
    requires ScheduledRunsHaveRecords(cfg, events)
    ensures var s := After(cfg, events);
            WeightsUsed(cfg, s, input).Some? ==>
              WeightsUsed(cfg, s, input).value > RunIndex(s) - Interval(cfg.retrainEvery)
  {
    AlwaysRecent(cfg, events);
    if input.fetched.Some? { ModelKeepsRecent(cfg, After(cfg, events), input); }
  }

  /** A run that fails never skips a scheduled retrain: the next one has the same index. */
  lemma FailureKeepsSchedule(cfg: Config, s: AgentState, input: RunInput)
    requires !TryRun(cfg, s, input).ok
    ensures RunIndex(RunOnce(cfg, s, input)) == RunIndex(s)
  {
    CounterEffects(cfg, s, input);
  }

  // ----- When a run trains, in terms of the run alone -----

  /** There is no artifact that loads: none is stored, or it was damaged or deleted meanwhile. */
  predicate NothingToLoad(s: AgentState, input: RunInput) {
    !s.artifact.Readable? || input.fault != NoFault
  }

  /** The interval is at most 1, or the run's index is 1, k + 1, 2k + 1, ... */
  predicate Due(cfg: Config, i: int) {
    cfg.retrainEvery <= 1 || (i >= 1 && (i - 1) % cfg.retrainEvery == 0)
  }

  /** Weights and artifact of a run with records. It trains exactly when it is forced, finds
      nothing to load, or is due; then it scores with its own weights and stores them, unless
      training fails before writing. Otherwise it scores with the stored weights and leaves
      them alone. A failure in between scores nothing. */
  lemma TrainsExactly(cfg: Config, s: AgentState, input: RunInput)
    requires input.fetched.Some? && input.fetched.value != []
    ensures var i, t := s.mem.runCount + 1, RunOnce(cfg, s, input);
            if input.force || NothingToLoad(s, input) || Due(cfg, i) then
              && WeightsUsed(cfg, s, input) == (if input.training.TrainingSucceeds? && input.inferenceOk then Some(i) else None)
              && t.artifact == (if !input.training.TrainingFails? then Readable(i)
                                else if s.artifact.Missing? || input.fault.Deleted? then Missing
                                else if input.fault.Corrupted? then Unreadable else s.artifact)
            else
              && WeightsUsed(cfg, s, input) == (if input.inferenceOk then Some(s.artifact.trainedAt) else None)
              && t.artifact == s.artifact
  {
    CounterEffects(cfg, s, input);
    hide RunOnce, TryRun;
  }

  /** A forced run whose training and inference succeed scores with weights of its own index
      and stores them, whatever was stored before and wherever the schedule stands. */
  lemma ForcedRunRetrains(cfg: Config, s: AgentState, input: RunInput)
    requires input.force && input.fetched.Some? && input.fetched.value != []
    requires input.training.TrainingSucceeds? && input.inferenceOk
    ensures WeightsUsed(cfg, s, input) == Some(RunIndex(s))
    ensures RunOnce(cfg, s, input).artifact == Readable(RunIndex(s))
  {
    TrainsExactly(cfg, s, input);
    hide RunOnce, WeightsUsed;
  }

  /** An unforced run off the schedule with a sound artifact never trains. */
  lemma UnscheduledRunKeepsWeights(cfg: Config, s: AgentState, input: RunInput)
    requires !input.force && input.fault == NoFault && s.artifact.Readable? && input.fetched.Some? && input.fetched.value != []
    requires cfg.retrainEvery >= 2 && RunIndex(s) >= 1 && (RunIndex(s) - 1) % cfg.retrainEvery != 0
    ensures RunOnce(cfg, s, input).artifact == s.artifact
    ensures input.inferenceOk ==> WeightsUsed(cfg, s, input) == Some(s.artifact.trainedAt)
  {
    TrainsExactly(cfg, s, input);
    hide RunOnce, WeightsUsed;
  }

  /** The reported mode says whether the decision was to train. */
  lemma ModeMatches(stored: bool, i: Option<int>, force: bool, retrainEvery: int)
    ensures var (train, mode) := ShouldRetrain(stored, i, force, retrainEvery);
            && (train <==> mode != InferenceOnly)
            && (mode == ForcedRetrain <==> force) && (mode == MissingArtifact <==> !force && !stored)
  {
  }

  // ----- Without that condition the bound fails; exactly when it holds -----

  /** The early return for an empty window skips training, but the run still counts. So an
      empty run at a scheduled index leaves the next one with weights from a whole interval
      earlier, whenever the stored ones are that old. */
  lemma EmptyScheduledRunBreaksBound(cfg: Config, s: AgentState, empty: RunInput, next: RunInput)
    requires s.artifact.Readable? && Scheduled(cfg, RunIndex(s)) && Interval(cfg.retrainEvery) >= 2
    requires s.artifact.trainedAt <= RunIndex(s) + 1 - Interval(cfg.retrainEvery)
    requires empty.fetched == Some([]) && empty.fault == NoFault && empty.indexSaved
    requires next.fetched.Some? && next.fetched.value != [] && next.fault == NoFault && !next.force && next.inferenceOk
    ensures var t := RunOnce(cfg, s, empty);
            && RunIndex(t) == RunIndex(s) + 1
            && WeightsUsed(cfg, t, next) == Some(s.artifact.trainedAt)
            && s.artifact.trainedAt <= RunIndex(t) - Interval(cfg.retrainEvery)
  {
    QuietRun(cfg, s, empty);
    NotTwiceScheduled(cfg, RunIndex(s));
    hide RunOnce;
  }

  lemma NotTwiceScheduled(cfg: Config, i: int)
    requires Scheduled(cfg, i) && Interval(cfg.retrainEvery) >= 2
    ensures !Scheduled(cfg, i + 1)
  {
    var k := Interval(cfg.retrainEvery);
    DivModUnique(i, k, (i - 1) / k, 1);
  }

  /** With nothing above the threshold and no failures, a run succeeds. */
  lemma QuietRun(cfg: Config, s: AgentState, input: RunInput)
    requires input.fetched.Some? && input.indexSaved
    requires HighRisk(input.fetched.value, cfg.threshold) == []
    requires input.fetched.value == [] || (input.training.TrainingSucceeds? && input.inferenceOk)
    ensures var t := RunOnce(cfg, s, input);
            && t.mem.runCount == s.mem.runCount + 1
            && t.artifact == RunModel(cfg, Damaged(s.artifact, input.fault), RunIndex(s), input).artifact
  {
    CounterEffects(cfg, s, input);
    QuietRunSucceeds(cfg, s, input);
    hide RunOnce, TryRun, RunModel;
  }

  lemma QuietRunSucceeds(cfg: Config, s: AgentState, input: RunInput)
    requires input.fetched.Some? && input.indexSaved
    requires HighRisk(input.fetched.value, cfg.threshold) == []
    requires input.fetched.value == [] || (input.training.TrainingSucceeds? && input.inferenceOk)
    ensures TryRun(cfg, s, input).ok
  {
    hide Trains, Updated;
  }

  function QuietInput(fetched: seq<GNNResult>): RunInput {
    RunInput(0, Some(fetched), false, NoFault, TrainingSucceeds, true, true, Accepts(0, false), None, true)
  }

  /** Such a state is reached: interval 2, two ordinary runs, then an empty third one. */
  lemma BoundIsViolated(r: GNNResult, hash: Hash)
    ensures var cfg := Config(r.riskScore + 1.0, 2, 14, hash);
            var s := After(cfg, [Run(QuietInput([r])), Run(QuietInput([r])), Run(QuietInput([]))]);
            && RunIndex(s) == 4
            && WeightsUsed(cfg, s, QuietInput([r])) == Some(1)
  {
    hide RunOnce, TryRun, After, Updated, PayloadOf;
    var cfg := Config(r.riskScore + 1.0, 2, 14, hash);
    var full, empty := QuietInput([r]), QuietInput([]);
    var s0 := Initial();
    var s1 := RunOnce(cfg, s0, full);
    var s2 := RunOnce(cfg, s1, full);
    assert [r][..0] == [] && HighRisk([r], cfg.threshold) == [];
    QuietRun(cfg, s0, full);
    QuietRun(cfg, s1, full);
    EmptyScheduledRunBreaksBound(cfg, s2, empty, full);
    AfterThree(cfg, Run(full), Run(full), Run(empty));
  }

  lemma AfterThree(cfg: Config, a: Event, b: Event, c: Event)
    ensures After(cfg, [a, b, c]) == Step(cfg, Step(cfg, Step(cfg, Initial(), a), b), c)
  {
    hide Step;
    assert [a, b, c][..2] == [a, b] && [a, b][..1] == [a] && [a][..0] == [];
    assert After(cfg, [a]) == Step(cfg, Initial(), a);
    assert After(cfg, [a, b]) == Step(cfg, After(cfg, [a]), b);
  }

  /** One pipeline attempt: its index, whether it had records, and whether it wrote weights. */
  datatype TrainingRecord = TrainingRecord(index: int, hadRecords: bool, wrote: bool)

  predicate HadRecords(input: RunInput) {
    input.fetched.Some? && input.fetched.value != []
  }

  /** The attempt had records, took a retrain branch, and got as far as the artifact. */
  predicate Writes(cfg: Config, s: AgentState, input: RunInput) {
    && HadRecords(input)
    && Trains(cfg, Damaged(s.artifact, input.fault), RunIndex(s), input)
    && !input.training.TrainingFails?
  }

  function RecordOf(cfg: Config, s: AgentState, input: RunInput): TrainingRecord {
    TrainingRecord(RunIndex(s), HadRecords(input), Writes(cfg, s, input))
  }

  function Attempts(cfg: Config, events: seq<Event>): seq<TrainingRecord> {
    if events == [] then []
    else
      var init, last := events[..|events| - 1], events[|events| - 1];
      Attempts(cfg, init) + if last.Run? then [RecordOf(cfg, After(cfg, init), last.input)] else []
  }

  predicate Saves(e: Event) {
    match e
    case Run(input) => input.stateSaved
    case Restart(readable) => readable
  }

  predicate CountersSaved(events: seq<Event>) {
    forall e :: e in events ==> Saves(e)
  }

  /** The readable artifact is the newest that any attempt wrote. */
  ghost predicate Newest(attempts: seq<TrainingRecord>, s: AgentState) {
    && s.mem == s.disk
    && (forall a :: a in attempts ==> a.index <= RunIndex(s))
    && (s.artifact.Readable? ==>
          && TrainingRecord(s.artifact.trainedAt, true, true) in attempts
          && forall a :: a in attempts && a.wrote ==> a.index <= s.artifact.trainedAt)
  }

  lemma AttemptsStep(cfg: Config, events: seq<Event>, e: Event)
    ensures After(cfg, events + [e]) == Step(cfg, After(cfg, events), e)
    ensures Attempts(cfg, events + [e]) ==
              Attempts(cfg, events) + if e.Run? then [RecordOf(cfg, After(cfg, events), e.input)] else []
  {
    var all := events + [e];
    assert all[..|all| - 1] == events && all[|all| - 1] == e;
  }

  lemma {:induction false} AlwaysNewest(cfg: Config, events: seq<Event>)
    requires CountersSaved(events)
    ensures Newest(Attempts(cfg, events), After(cfg, events))
  {
    if events != [] {
      var init, last := events[..|events| - 1], events[|events| - 1];
      assert events == init + [last] && last in events;
      AlwaysNewest(cfg, init);
      AttemptsStep(cfg, init, last);
      hide After, Attempts, RunOnce, RecordOf;
      if last.Run? { NewestStep(cfg, Attempts(cfg, init), After(cfg, init), last.input); }
    }
  }

  lemma NewestStep(cfg: Config, attempts: seq<TrainingRecord>, s: AgentState, input: RunInput)
    requires Newest(attempts, s) && input.stateSaved
    ensures Newest(attempts + [RecordOf(cfg, s, input)], RunOnce(cfg, s, input))
  {
    CounterEffects(cfg, s, input);
    hide RunOnce, TryRun;
    assert forall a :: a in attempts + [RecordOf(cfg, s, input)] <==> a in attempts || a == RecordOf(cfg, s, input);
  }

  ghost predicate WroteWithin(attempts: seq<TrainingRecord>, i: int, k: int) {
    exists a :: a in attempts && a.wrote && a.index > i - k
  }

  /** When the bound holds, with no condition on the records: some attempt within the last k
      indices had records, took a retrain branch and wrote its weights. */
  lemma StalenessExactly(cfg: Config, events: seq<Event>, input: RunInput)
    requires CountersSaved(events)
    requires WeightsUsed(cfg, After(cfg, events), input).Some?
    ensures var s, k := After(cfg, events), Interval(cfg.retrainEvery);
            WeightsUsed(cfg, s, input).value > RunIndex(s) - k <==>
              WroteWithin(Attempts(cfg, events + [Run(input)]), RunIndex(s), k)
  {
    var s, attempts := After(cfg, events), Attempts(cfg, events);
    AlwaysNewest(cfg, events);
    AttemptsStep(cfg, events, Run(input));
    var now := RecordOf(cfg, s, input);
    var all := attempts + [now];
    assert forall a :: a in all <==> a in attempts || a == now;
    hide After, Attempts;
    if !Writes(cfg, s, input) {
      assert TrainingRecord(s.artifact.trainedAt, true, true) in all;
    }
  }

  // ----- The same in terms of the records alone -----

  /** Nothing interferes with training: no forced run, no damaged file, no failed training, and
      every counter update saved. Runs may still fail before or after the model phase. */
  predicate Undisturbed(e: Event) {
    match e
    case Run(input) => input.stateSaved && !input.force && input.fault == NoFault && input.training.TrainingSucceeds?
    case Restart(readable) => readable
  }

  predicate AllUndisturbed(events: seq<Event>) {
    forall e :: e in events ==> Undisturbed(e)
  }

  /** No attempt with records came at an index below n. */
  ghost predicate NoRecordsBefore(attempts: seq<TrainingRecord>, n: int) {
    forall a :: a in attempts && a.hadRecords ==> a.index >= n
  }

  ghost predicate RecordsAt(attempts: seq<TrainingRecord>, n: int) {
    exists a :: a in attempts && a.hadRecords && a.index == n
  }

  /** Undisturbed, weights are written exactly when an attempt has records and is scheduled or
      the first to have any. */
  ghost predicate WritesOnSchedule(cfg: Config, attempts: seq<TrainingRecord>, s: AgentState) {
    && RunIndex(s) >= 1 && (forall a :: a in attempts ==> a.index <= RunIndex(s))
    && (s.artifact.Missing? || s.artifact.Readable?)
    && (s.artifact.Missing? <==> forall a :: a in attempts ==> !a.hadRecords)
    && (forall a :: a in attempts && a.wrote ==>
          a.hadRecords && (Scheduled(cfg, a.index) || NoRecordsBefore(attempts, a.index)))
    && (forall a :: a in attempts && a.hadRecords && Scheduled(cfg, a.index) ==> a.wrote)
    && (s.artifact.Readable? ==> FirstWrote(attempts))
  }

  /** Some attempt wrote weights no later than any attempt with records. */
  ghost predicate FirstWrote(attempts: seq<TrainingRecord>) {
    exists a :: a in attempts && a.wrote && NoRecordsBefore(attempts, a.index)
  }

  lemma InitiallyOnSchedule(cfg: Config)
    ensures WritesOnSchedule(cfg, Attempts(cfg, []), After(cfg, []))
  {
  }

  lemma RestartKeeps(cfg: Config, attempts: seq<TrainingRecord>, s: AgentState, e: Event)
    requires Newest(attempts, s) && e.Restart? && Undisturbed(e)
    ensures Step(cfg, s, e) == s
  {
  }

  lemma PrefixUndisturbed(events: seq<Event>, e: Event)
    requires AllUndisturbed(events + [e])
    ensures AllUndisturbed(events) && CountersSaved(events) && Undisturbed(e)
  {
    var all := events + [e];
    forall x | x in events ensures Undisturbed(x) && Saves(x) { assert x in all; }
    assert e in all;
  }

  lemma {:induction false} AlwaysOnSchedule(cfg: Config, events: seq<Event>)
    requires AllUndisturbed(events) && Interval(cfg.retrainEvery) >= 2
    ensures WritesOnSchedule(cfg, Attempts(cfg, events), After(cfg, events))
  {
    hide *;
    if events == [] {
      InitiallyOnSchedule(cfg);
    } else {
      var init, last := events[..|events| - 1], events[|events| - 1];
      assert events == init + [last];
      PrefixUndisturbed(init, last);
      AlwaysOnSchedule(cfg, init);
      AlwaysNewest(cfg, init);
      AttemptsStep(cfg, init, last);
      EventKeepsSchedule(cfg, Attempts(cfg, init), After(cfg, init), last);
    }
  }

  lemma EventKeepsSchedule(cfg: Config, attempts: seq<TrainingRecord>, s: AgentState, e: Event)
    requires WritesOnSchedule(cfg, attempts, s) && Newest(attempts, s)
    requires Undisturbed(e) && Interval(cfg.retrainEvery) >= 2
    ensures WritesOnSchedule(cfg, attempts + if e.Run? then [RecordOf(cfg, s, e.input)] else [], Step(cfg, s, e))
  {
    hide WritesOnSchedule, Newest, Undisturbed, RecordOf, RunOnce;
    if e.Run? {
      ScheduleStep(cfg, attempts, s, e.input);
    } else {
      RestartKeeps(cfg, attempts, s, e);
      assert attempts + [] == attempts;
    }
  }

  lemma ScheduleStep(cfg: Config, attempts: seq<TrainingRecord>, s: AgentState, input: RunInput)
    requires WritesOnSchedule(cfg, attempts, s) && Undisturbed(Run(input)) && Interval(cfg.retrainEvery) >= 2
    ensures WritesOnSchedule(cfg, attempts + [RecordOf(cfg, s, input)], RunOnce(cfg, s, input))
  {
    CounterEffects(cfg, s, input);
    WhenWritten(cfg, s, input);
    var now, t := RecordOf(cfg, s, input), RunOnce(cfg, s, input);
    hide RunOnce, TryRun, RunModel, RecordOf, Scheduled;
    var all := attempts + [now];
    assert forall a :: a in all <==> a in attempts || a == now;
    forall a | a in all && a.wrote && NoRecordsBefore(attempts, a.index) ensures NoRecordsBefore(all, a.index) {
    }
    if s.artifact.Missing? && now.wrote {
      assert NoRecordsBefore(all, now.index);
    }
    if s.artifact.Readable? {
      var a :| a in attempts && a.wrote && NoRecordsBefore(attempts, a.index);
      assert a in all && NoRecordsBefore(all, a.index);
    }
  }

  lemma WhenWritten(cfg: Config, s: AgentState, input: RunInput)
    requires Undisturbed(Run(input)) && Interval(cfg.retrainEvery) >= 2 && RunIndex(s) >= 1 && !s.artifact.Unreadable?
    ensures var a := RecordOf(cfg, s, input);
            && a.index == RunIndex(s)
            && a.wrote == (a.hadRecords && (s.artifact.Missing? || Scheduled(cfg, a.index)))
    ensures input.fetched.Some? ==>
              RunModel(cfg, Damaged(s.artifact, input.fault), RunIndex(s), input).artifact
                == if Writes(cfg, s, input) then Readable(RunIndex(s)) else s.artifact
    ensures Damaged(s.artifact, input.fault) == s.artifact
    ensures RecordOf(cfg, s, input).wrote == Writes(cfg, s, input)
    ensures RecordOf(cfg, s, input).hadRecords ==> input.fetched.Some?
  {
  }

  /** The only scheduled index of the last k is the last scheduled one. */
  lemma ScheduledInWindow(cfg: Config, j: int, i: int)
    requires Scheduled(cfg, j) && i - Interval(cfg.retrainEvery) < j <= i && i >= 1
    ensures j == LastScheduled(i, Interval(cfg.retrainEvery))
  {
    var k := Interval(cfg.retrainEvery);
    DivModUnique(i - 1, k, (j - 1) / k, i - j);
  }

  lemma LastIsScheduled(cfg: Config, i: int)
    requires i >= 1
    ensures Scheduled(cfg, LastScheduled(i, Interval(cfg.retrainEvery)))
  {
    var k := Interval(cfg.retrainEvery);
    var q, r := (i - 1) / k, (i - 1) % k;
    assert i - 1 == q * k + r;
    DivModUnique(q * k, k, q, 0);
    assert q >= 0 && q * k >= 0;
  }

  /** Exactly when an undisturbed run meets the bound, in terms of which attempts had records:
      the last scheduled index was attempted with records, this run included, or no attempt
      had any a whole interval or more ago. */
  lemma StalenessByRecords(cfg: Config, events: seq<Event>, input: RunInput)
    requires AllUndisturbed(events + [Run(input)]) && Interval(cfg.retrainEvery) >= 2
    requires WeightsUsed(cfg, After(cfg, events), input).Some?
    ensures var s, k := After(cfg, events), Interval(cfg.retrainEvery);
            var attempts, i := Attempts(cfg, events + [Run(input)]), RunIndex(s);
            i >= 1 && (WeightsUsed(cfg, s, input).value > i - k <==>
              RecordsAt(attempts, LastScheduled(i, k)) || NoRecordsBefore(attempts, i - k + 1))
  {
    var s, all := After(cfg, events), events + [Run(input)];
    hide *;
    PrefixUndisturbed(events, Run(input));
    AlwaysOnSchedule(cfg, all);
    StalenessExactly(cfg, events, input);
    ThisAttempt(cfg, events, input);
    WindowMeaning(cfg, Attempts(cfg, all), After(cfg, all), RunIndex(s), RecordOf(cfg, s, input));
  }

  lemma ThisAttempt(cfg: Config, events: seq<Event>, input: RunInput)
    requires AllUndisturbed(events) && Interval(cfg.retrainEvery) >= 2
    requires WeightsUsed(cfg, After(cfg, events), input).Some?
    ensures var s := After(cfg, events);
            var now, attempts := RecordOf(cfg, s, input), Attempts(cfg, events + [Run(input)]);
            && RunIndex(s) >= 1 && now in attempts && now.hadRecords
            && forall a :: a in attempts ==> a.index <= RunIndex(s)
  {
    AlwaysOnSchedule(cfg, events);
    AttemptsStep(cfg, events, Run(input));
    UsedMeansRecords(cfg, After(cfg, events), input);
    hide After, Attempts, RunOnce, WeightsUsed, Writes, Scheduled;
    var now := RecordOf(cfg, After(cfg, events), input);
    assert forall a :: a in Attempts(cfg, events) + [now] <==> a in Attempts(cfg, events) || a == now;
  }

  lemma UsedMeansRecords(cfg: Config, s: AgentState, input: RunInput)
    requires WeightsUsed(cfg, s, input).Some?
    ensures HadRecords(input)
  {
  }

  lemma WindowMeaning(cfg: Config, attempts: seq<TrainingRecord>, t: AgentState, i: int, now: TrainingRecord)
    requires WritesOnSchedule(cfg, attempts, t) && i >= 1
    requires now in attempts && now.hadRecords && forall a :: a in attempts ==> a.index <= i
    ensures var k := Interval(cfg.retrainEvery);
            WroteWithin(attempts, i, k) <==>
              RecordsAt(attempts, LastScheduled(i, k)) || NoRecordsBefore(attempts, i - k + 1)
  {
    var k := Interval(cfg.retrainEvery);
    LastIsScheduled(cfg, i);
    if a :| a in attempts && a.wrote && a.index > i - k {
      if Scheduled(cfg, a.index) { ScheduledInWindow(cfg, a.index, i); }
    }
    hide Scheduled, LastScheduled;
  }
}
