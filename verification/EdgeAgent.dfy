/** The edge agent as a persistent state machine: one pipeline run is fetch, model, index
    update, publish, bookkeeping. Whatever the environment decides is in RunInput. */
module EdgeAgent {
  import opened Arithmetic
  import opened Options
  import opened HashIndex
  import opened Publisher

  datatype Config = Config(threshold: real, retrainEvery: int, retentionDays: int, hash: Hash)

  datatype Status = Never | Ok | Skipped | Error

  /** The bookkeeping part of `_state`, which is also what the state file holds. */
  datatype Counters = Counters(
    lastRun: Status, lastPublish: Status, lastAccepted: nat, lastHighRisk: nat, lastScored: nat,
    runCount: nat, indexEntries: nat, warningCount: nat)

  const FRESH: Counters := Counters(Never, Never, 0, 0, 0, 0, 0, 0)

  /** The model artifact on disk; `trainedAt` is the run index in its metadata. */
  datatype Artifact = Missing | Unreadable | Readable(trainedAt: int)

  datatype Warning = Warning(id: string, entityHash: Option<string>)

  datatype ResolvedWarning = ResolvedWarning(warning: Warning, resolution: Resolution)

  datatype AgentState = AgentState(
    mem: Counters,                   // in memory
    disk: Counters,                  // last saved
    artifact: Artifact,
    entries: Entries,                // hash index file
    cache: seq<ResolvedWarning>,     // warning cache file
    log: seq<Batch>,                 // index updates so far
    sent: seq<Payload>)              // batches the hub has received

  datatype Fault = NoFault | Deleted | Corrupted

  datatype Training = TrainingFails | FailsAfterWriting | TrainingSucceeds

  /** A reply that says `skipped` is recorded as a skipped publish. */
  datatype HubReply = Accepts(n: nat, saysSkipped: bool) | Raises(delivered: bool)

  datatype RunInput = RunInput(
    now: int,
    fetched: Option<seq<GNNResult>>, // None: the connector raised; else the records as scored
    force: bool,
    fault: Fault,                    // what happened to the artifact file since the last run
    training: Training,
    inferenceOk: bool,
    indexSaved: bool,
    hub: HubReply,
    inbox: Option<seq<Warning>>,     // None: fetching the inbox failed
    stateSaved: bool)

  // ----- Retraining -----

  datatype Mode = ForcedRetrain | MissingArtifact | TrainEveryRun | InferenceOnly | ScheduledRetrain

  function Interval(retrainEvery: int): (k: int)
    ensures k >= 1
  {
    AtLeastOne(retrainEvery)
  }

  function ShouldRetrain(artifactExists: bool, runIndex: Option<int>, force: bool, retrainEvery: int): (bool, Mode) {
    if force then (true, ForcedRetrain)
    else if !artifactExists then (true, MissingArtifact)
    else if Interval(retrainEvery) <= 1 then (true, TrainEveryRun)
    else if runIndex.None? || runIndex.value <= 0 then (false, InferenceOnly)
    else if (runIndex.value - 1) % Interval(retrainEvery) == 0 then (true, ScheduledRetrain)
    else (false, InferenceOnly)
  }

  function Damaged(a: Artifact, fault: Fault): Artifact {
    match fault
    case NoFault => a
    case Deleted => Missing
    case Corrupted => if a.Missing? then Missing else Unreadable
  }

  /** Weights of the scoring model: `used` is the index they were trained at, None when
      there was nothing to score. */
  datatype ModelResult = ModelRaised(artifact: Artifact) | Scored(artifact: Artifact, used: Option<int>)

  /** Does this call train? A failed load falls back to training. */
  predicate Trains(cfg: Config, artifact: Artifact, runIndex: int, input: RunInput) {
    ShouldRetrain(!artifact.Missing?, Some(runIndex), input.force, cfg.retrainEvery).0 || artifact.Unreadable?
  }

  function RunModel(cfg: Config, artifact: Artifact, runIndex: int, input: RunInput): ModelResult
    requires input.fetched.Some?
  {
    if input.fetched.value == [] then Scored(artifact, None)
    else if Trains(cfg, artifact, runIndex, input) then
      match input.training
      case TrainingFails => ModelRaised(artifact)
      case FailsAfterWriting => ModelRaised(Readable(runIndex))
      case TrainingSucceeds =>
        if input.inferenceOk then Scored(Readable(runIndex), Some(runIndex)) else ModelRaised(Readable(runIndex))
    else if input.inferenceOk then Scored(artifact, Some(artifact.trainedAt))
    else ModelRaised(artifact)
  }

  // ----- One run -----

  function ResolveAll(ws: seq<Warning>, entries: Entries): seq<ResolvedWarning> {
    seq(|ws|, i requires 0 <= i < |ws| => ResolvedWarning(ws[i], Resolve(entries, ws[i].entityHash)))
  }

  /** State after the body of the try block, and whether it ran to its end. */
  datatype Attempt = Attempt(state: AgentState, ok: bool)

  function IndexPhase(cfg: Config, s: AgentState, input: RunInput): AgentState
    requires input.fetched.Some?
  {
    var entries := Updated(s.entries, input.fetched.value, input.now, Span(cfg.retentionDays), cfg.hash);
    s.(entries := entries, log := s.log + [Batch(input.now, input.fetched.value)],
       mem := s.mem.(indexEntries := |entries|))
  }

  function PublishPhase(cfg: Config, s: AgentState, input: RunInput): Attempt
    requires input.fetched.Some?
  {
    var results := input.fetched.value;
    var payload := PayloadOf(results, input.now, cfg.threshold, cfg.hash);
    if payload.patterns == [] then
      Attempt(Completed(s.(mem := s.mem.(lastPublish := Skipped)), input, 0, 0), true)
    else if input.hub.Accepts? then
      Attempt(Completed(s.(mem := s.mem.(lastPublish := if input.hub.saysSkipped then Skipped else Ok),
                            sent := s.sent + [payload]), input,
                        input.hub.n, |payload.patterns|), true)
    else
      Attempt(if input.hub.delivered then s.(sent := s.sent + [payload]) else s, false)
  }

  /** Bookkeeping of a run that published, and the warning sync that follows it. */
  function Completed(s: AgentState, input: RunInput, accepted: nat, highRisk: nat): AgentState
    requires input.fetched.Some?
  {
    s.(mem := s.mem.(lastRun := Ok, lastAccepted := accepted, lastHighRisk := highRisk,
                     lastScored := |input.fetched.value|, runCount := s.mem.runCount + 1,
                     warningCount := if input.inbox.Some? then |input.inbox.value| else s.mem.warningCount),
       cache := if input.inbox.Some? then ResolveAll(input.inbox.value, s.entries) else s.cache)
  }

  function TryRun(cfg: Config, s: AgentState, input: RunInput): Attempt {
    var s0 := s.(artifact := Damaged(s.artifact, input.fault));
    if input.fetched.None? then Attempt(s0, false)
    else
      var m := RunModel(cfg, s0.artifact, s.mem.runCount + 1, input);
      var s1 := s0.(artifact := m.artifact);
      if m.ModelRaised? || !input.indexSaved then Attempt(s1, false)
      else PublishPhase(cfg, IndexPhase(cfg, s1, input), input)
  }

  /** The except clause: a publish that once succeeded stays "ok". */
  function Failed(s: AgentState): AgentState {
    s.(mem := s.mem.(lastRun := Error, lastPublish := if s.mem.lastPublish == Ok then Ok else Error))
  }

  function Saved(s: AgentState, saved: bool): AgentState {
    if saved then s.(disk := s.mem) else s
  }

  function RunOnce(cfg: Config, s: AgentState, input: RunInput): AgentState {
    var a := TryRun(cfg, s, input);
    Saved(if a.ok then a.state else Failed(a.state), input.stateSaved)
  }

  function Restarted(s: AgentState, readable: bool): AgentState {
    var disk := if readable then s.disk else FRESH;
    s.(mem := disk, disk := disk)
  }

  /** The single-process agent. */
  class Agent {
    const cfg: Config
    const index: IndexFile
    var mem: Counters
    var disk: Counters
    var artifact: Artifact
    var cache: seq<ResolvedWarning>
    ghost var log: seq<Batch>
    ghost var sent: seq<Payload>

    ghost predicate Valid() {
      index.retentionDays == cfg.retentionDays && index.hash == cfg.hash
    }

    ghost function State(): AgentState
      reads this, index
    {
      AgentState(mem, disk, artifact, index.entries, cache, log, sent)
    }

    constructor (cfg: Config)
      ensures Valid() && this.cfg == cfg && State() == Initial()
      ensures fresh(index)
    {
      this.cfg := cfg;
      index := new IndexFile(cfg.retentionDays, cfg.hash);
      mem, disk, artifact, cache, log, sent := FRESH, FRESH, Missing, [], [], [];
    }

    /** run_gnn: decide, load or train, score. */
    method Score(records: seq<GNNResult>, runIndex: int, input: RunInput) returns (raised: bool, ghost used: Option<int>)
      requires input.fetched == Some(records)
      modifies this`artifact
      ensures var m := RunModel(cfg, old(artifact), runIndex, input);
              artifact == m.artifact && raised == m.ModelRaised? && (m.Scored? ==> used == m.used)
    {
      raised, used := false, None;
      if records == [] { return; }
      var (train, mode) := ShouldRetrain(!artifact.Missing?, Some(runIndex), input.force, cfg.retrainEvery);
      if !train {
        if artifact.Readable? {
          used := Some(artifact.trainedAt);
        } else {
          train := true;
        }
      }
      if train {
        if input.training.TrainingFails? { return true, None; }
        artifact := Readable(runIndex);
        if input.training.FailsAfterWriting? { return true, None; }
        used := Some(runIndex);
      }
      raised := !input.inferenceOk;
    }

    /** publish: nothing above the threshold means nothing is sent. */
    method Publish(results: seq<GNNResult>, input: RunInput) returns (raised: bool, skipped: bool, accepted: nat)
      modifies this`sent
      ensures var p := PayloadOf(results, input.now, cfg.threshold, cfg.hash);
              var empty := p.patterns == [];
              && raised == (!empty && input.hub.Raises?)
              && skipped == (empty || (input.hub.Accepts? && input.hub.saysSkipped))
              && accepted == (if empty || raised then 0 else input.hub.n)
              && sent == if !empty && (input.hub.Accepts? || input.hub.delivered) then old(sent) + [p] else old(sent)
    {
      var payload := BuildPayload(results, input.now, cfg.threshold, cfg.hash);
      if payload.patterns == [] { return false, true, 0; }
      match input.hub
      case Accepts(n, saysSkipped) =>
        sent := sent + [payload];
        return false, saysSkipped, n;
      case Raises(delivered) =>
        if delivered { sent := sent + [payload]; }
        return true, false, 0;
    }

    /** sync_warning_cache: the cache is overwritten by the resolved inbox. */
    method SyncInbox(ws: seq<Warning>) returns (count: nat)
      modifies this`cache
      ensures cache == ResolveAll(ws, index.entries) && count == |ws|
    {
      var resolved: seq<ResolvedWarning> := [];
      var n := 0;
      while n < |ws|
        invariant n <= |ws|
        invariant resolved == ResolveAll(ws[..n], index.entries)
      {
        resolved := resolved + [ResolvedWarning(ws[n], Resolve(index.entries, ws[n].entityHash))];
        n := n + 1;
      }
      assert ws[..n] == ws;
      cache, count := resolved, |resolved|;
    }

    /** From publishing to the warning sync; false when publishing raises. */
    method PublishAndRecord(results: seq<GNNResult>, input: RunInput) returns (ok: bool)
      requires input.fetched == Some(results)
      modifies this
      ensures Attempt(State(), ok) == PublishPhase(cfg, old(State()), input)
      ensures disk == old(disk)
    {
      var raised, skipped, accepted := Publish(results, input);
      if raised { return false; }
      mem := mem.(lastPublish := if skipped then Skipped else Ok);
      var highRisk := HighRisk(results, cfg.threshold);
      mem := mem.(lastRun := Ok, lastAccepted := accepted, lastHighRisk := |highRisk|,
                  lastScored := |results|, runCount := mem.runCount + 1);
      if input.inbox.Some? {
        var count := SyncInbox(input.inbox.value);
        mem := mem.(warningCount := count);
      }
      ok := true;
    }

    /** The body of the try block; false when it raises. */
    method TryPipeline(input: RunInput) returns (ok: bool)
      requires Valid()
      modifies this, index
      ensures Attempt(State(), ok) == TryRun(cfg, old(State()), input)
      ensures disk == old(disk)
    {
      hide RunModel, PublishPhase, Updated;
      artifact := Damaged(artifact, input.fault);
      if input.fetched.None? { return false; }
      var results := input.fetched.value;
      var raised, used := Score(results, mem.runCount + 1, input);
      if raised || !input.indexSaved { return false; }
      var _, entryCount := index.Update(results, input.now);
      log := log + [Batch(input.now, results)];
      mem := mem.(indexEntries := entryCount);
      ok := PublishAndRecord(results, input);
    }

    method RunPipeline(input: RunInput)
      requires Valid()
      modifies this, index
      ensures State() == RunOnce(cfg, old(State()), input)
    {
      var ok := TryPipeline(input);
      if !ok {
        mem := mem.(lastRun := Error);
        if mem.lastPublish != Ok { mem := mem.(lastPublish := Error); }
      }
      if input.stateSaved { disk := mem; }
    }

    /** A new process: counters come back from the state file, if it can be read. A damaged
        file is as good as none until the next save. */
    method Restart(readable: bool)
      modifies this`mem, this`disk
      ensures State() == Restarted(old(State()), readable)
    {
      if !readable { disk := FRESH; }
      mem := disk;
    }
  }

  // ----- Histories -----

  datatype Event = Run(input: RunInput) | Restart(stateReadable: bool)

  function Initial(): AgentState {
    AgentState(FRESH, FRESH, Missing, map[], [], [], [])
  }

  function Step(cfg: Config, s: AgentState, e: Event): AgentState {
    match e
    case Run(input) => RunOnce(cfg, s, input)
    case Restart(readable) => Restarted(s, readable)
  }

  function After(cfg: Config, events: seq<Event>): AgentState {
    if events == [] then Initial()
    else Step(cfg, After(cfg, events[..|events| - 1]), events[|events| - 1])
  }
}
