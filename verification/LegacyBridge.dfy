/** The legacy connector bridge: poll an input file, post the rows after the cursor in
    batches, then save the cursor. A crash ends the process; the next one, perhaps with other
    options, starts from the saved cursor. */
module LegacyBridge {
  import opened Arithmetic
  import opened Options

  type Row = map<string, string>

  /** One batch the receiver got: the rows and the file position of the first of them. */
  datatype Post = Post(start: nat, rows: seq<Row>)

  /** The options of one bridge process. */
  datatype Config = Config(batchSize: int, dryRun: bool, hasCursorFile: bool)

  /** cfg and processed belong to the running process. saved is the number in the cursor file
      all processes share, None when there is no readable file; posted is what the receiver got
      from all of them. */
  datatype BridgeState = BridgeState(cfg: Config, processed: nat, saved: Option<int>, posted: seq<Post>)

  /** The process dies after `after` posted batches; the next batch may have arrived too. */
  datatype Crash = Crash(after: nat, nextArrived: bool)

  /** The position the cursor file stands for. */
  function Cursor(saved: Option<int>): nat {
    if saved.None? || saved.value < 0 then 0 else saved.value
  }

  function LoadCursor(cfg: Config, saved: Option<int>): nat {
    if cfg.hasCursorFile then Cursor(saved) else 0
  }

  function BatchSize(cfg: Config): (n: nat)
    ensures n >= 1
  {
    AtLeastOne(cfg.batchSize)
  }

  /** `items[processed:]`. */
  function Pending(items: seq<Row>, processed: nat): seq<Row> {
    if processed <= |items| then items[processed..] else []
  }

  /** _chunk, with the file position of each batch. */
  function Chunks(rows: seq<Row>, start: nat, size: nat): seq<Post>
    requires size >= 1
    decreases |rows|
  {
    if rows == [] then []
    else if |rows| <= size then [Post(start, rows)]
    else [Post(start, rows[..size])] + Chunks(rows[size..], start + size, size)
  }

  function Arrived(batches: seq<Post>, crash: Option<Crash>): seq<Post> {
    if crash.None? || crash.value.after >= |batches| then batches
    else if crash.value.nextArrived then batches[..crash.value.after + 1]
    else batches[..crash.value.after]
  }

  function Batches(s: BridgeState, items: seq<Row>): seq<Post> {
    Chunks(Pending(items, s.processed), s.processed, BatchSize(s.cfg))
  }

  /** A new process: it reads the cursor file and has posted nothing yet itself. */
  function Started(cfg: Config, saved: Option<int>, posted: seq<Post>): BridgeState {
    BridgeState(cfg, LoadCursor(cfg, saved), saved, posted)
  }

  /** One pass of the poll loop. After a crash the process is started again. */
  function Polled(s: BridgeState, items: seq<Row>, crash: Option<Crash>): BridgeState {
    var posted := s.posted + if s.cfg.dryRun then [] else Arrived(Batches(s, items), crash);
    if crash.Some? then Started(s.cfg, s.saved, posted)
    else BridgeState(s.cfg, |items|, if s.cfg.hasCursorFile then Some(|items|) else s.saved, posted)
  }

  /** One bridge process. */
  class Bridge {
    const cfg: Config
    var processed: nat
    var saved: Option<int>
    ghost var posted: seq<Post>

    ghost function State(): BridgeState
      reads this
    {
      BridgeState(cfg, processed, saved, posted)
    }

    constructor (cfg: Config, saved: Option<int>, ghost posted: seq<Post>)
      ensures this.cfg == cfg && State() == Started(cfg, saved, posted)
      ensures processed == if cfg.hasCursorFile && saved.Some? && saved.value > 0 then saved.value else 0
    {
      this.cfg := cfg;
      this.saved := saved;
      processed := LoadCursor(cfg, saved);
      this.posted := posted;
    }

    /** The batch loop: post one after the other until the end or the crash. */
    method PostAll(batches: seq<Post>, crash: Option<Crash>) returns (crashed: bool)
      modifies this`posted
      ensures posted == old(posted) + if cfg.dryRun then [] else Arrived(batches, crash)
      ensures crashed ==> crash.Some?
    {
      var count := 0;
      while count < |batches|
        invariant count <= |batches|
        invariant crash.Some? ==> count <= crash.value.after
        invariant posted == old(posted) + if cfg.dryRun then [] else batches[..count]
      {
        assert batches[..count + 1] == batches[..count] + [batches[count]];
        if crash.Some? && crash.value.after == count {
          if crash.value.nextArrived && !cfg.dryRun { posted := posted + [batches[count]]; }
          return true;
        }
        if !cfg.dryRun { posted := posted + [batches[count]]; }
        count := count + 1;
      }
      assert batches[..count] == batches;
      crashed := false;
    }

    method Poll(items: seq<Row>, crash: Option<Crash>)
      modifies this
      ensures State() == Polled(old(State()), items, crash)
      ensures crash.None? ==> processed == |items| && saved == if cfg.hasCursorFile then Some(|items|) else old(saved)
      ensures crash.Some? ==> saved == old(saved)
    {
      hide Chunks, Arrived;
      var batches := ChunkRows(Pending(items, processed), processed, BatchSize(cfg));
      var crashed := PostAll(batches, crash);
      if crashed || crash.Some? {
        processed := LoadCursor(cfg, saved);
        return;
      }
      processed := |items|;
      if cfg.hasCursorFile { saved := Some(processed); }
    }
  }

  method ChunkRows(rows: seq<Row>, start: nat, size: nat) returns (batches: seq<Post>)
    requires size >= 1
    ensures batches == Chunks(rows, start, size)
  {
    batches := [];
    var i := 0;
    assert rows[i..] == rows;
    while i < |rows|
      invariant i <= |rows|
      invariant batches + Chunks(rows[i..], start + i, size) == Chunks(rows, start, size)
    {
      var rest := rows[i..];
      var batch := if |rest| <= size then rest else rest[..size];
      assert rest[|batch|..] == rows[i + |batch|..];
      assert Chunks(rest, start + i, size) == [Post(start + i, batch)] + Chunks(rest[|batch|..], start + i + |batch|, size);
      batches := batches + [Post(start + i, batch)];
      i := i + |batch|;
    }
  }

  // ----- Runs -----

  /** Processes follow each other, each with its own options, on one input and one cursor file. */
  datatype Event = Start(cfg: Config) | Poll(items: seq<Row>, crash: Option<Crash>)

  function Step(s: BridgeState, e: Event): BridgeState {
    match e
    case Start(cfg) => Started(cfg, s.saved, s.posted)
    case Poll(items, crash) => Polled(s, items, crash)
  }

  function After(first: BridgeState, events: seq<Event>): BridgeState {
    if events == [] then first
    else Step(After(first, events[..|events| - 1]), events[|events| - 1])
  }

  /** The file only grows, and `file` is its latest content. */
  ghost predicate AppendOnly(events: seq<Event>, file: seq<Row>) {
    && (forall i, j :: 0 <= i < j < |events| && events[i].Poll? && events[j].Poll? ==> events[i].items <= events[j].items)
    && (forall e :: e in events && e.Poll? ==> e.items <= file)
  }

  /** Row i of the file was in some posted batch. */
  ghost predicate Delivered(posted: seq<Post>, file: seq<Row>, i: nat) {
    exists k :: 0 <= k < |posted| && posted[k].start <= i < posted[k].start + |posted[k].rows|
                && i < |file| && posted[k].rows[i - posted[k].start] == file[i]
  }

  /** Every row from the initial cursor up to position n was posted. */
  ghost predicate Covered(posted: seq<Post>, file: seq<Row>, from: nat, n: int) {
    forall i :: from <= i < n && i < |file| ==> Delivered(posted, file, i)
  }

  lemma {:induction false} ChunksDeliver(rows: seq<Row>, start: nat, size: nat, i: nat)
    requires size >= 1 && i < |rows|
    ensures exists k :: 0 <= k < |Chunks(rows, start, size)|
              && Chunks(rows, start, size)[k].start <= start + i < Chunks(rows, start, size)[k].start + |Chunks(rows, start, size)[k].rows|
              && Chunks(rows, start, size)[k].rows[start + i - Chunks(rows, start, size)[k].start] == rows[i]
    decreases |rows|
  {
    var c := Chunks(rows, start, size);
    if |rows| <= size || i < size {
      assert c[0].start == start;
    } else {
      ChunksDeliver(rows[size..], start + size, size, i - size);
      var rest := Chunks(rows[size..], start + size, size);
      var k :| 0 <= k < |rest| && rest[k].start <= start + i < rest[k].start + |rest[k].rows|
               && rest[k].rows[start + i - rest[k].start] == rows[size..][i - size];
      assert c[k + 1] == rest[k];
    }
  }

  lemma DeliveredStays(posted: seq<Post>, more: seq<Post>, file: seq<Row>, i: nat)
    requires Delivered(posted, file, i)
    ensures Delivered(posted + more, file, i)
  {
    var k :| 0 <= k < |posted| && posted[k].start <= i < posted[k].start + |posted[k].rows|
             && i < |file| && posted[k].rows[i - posted[k].start] == file[i];
    assert (posted + more)[k] == posted[k];
  }

  lemma PollDelivers(s: BridgeState, items: seq<Row>, file: seq<Row>, i: nat)
    requires !s.cfg.dryRun && items <= file && s.processed <= i < |items|
    ensures Delivered(Polled(s, items, None).posted, file, i)
  {
    var pending, c := Pending(items, s.processed), Batches(s, items);
    ChunksDeliver(pending, s.processed, BatchSize(s.cfg), i - s.processed);
    var k :| 0 <= k < |c| && c[k].start <= i < c[k].start + |c[k].rows|
             && c[k].rows[i - c[k].start] == pending[i - s.processed];
    assert (s.posted + c)[|s.posted| + k] == c[k];
  }

  /** The saved cursor only covers posted rows, or rows before the start, and so does the
      position of the running process unless it is a dry run that will not save it. */
  ghost predicate NothingSkipped(s: BridgeState, file: seq<Row>, from: nat) {
    && Covered(s.posted, file, from, Cursor(s.saved))
    && (s.cfg.hasCursorFile || !s.cfg.dryRun ==> Covered(s.posted, file, from, s.processed))
  }

  /** Does this event save a cursor without posting? A dry run with a cursor file does, when a
      poll completes. */
  predicate SavesUnposted(s: BridgeState, e: Event) {
    e.Poll? && e.crash.None? && s.cfg.dryRun && s.cfg.hasCursorFile
  }

  /** Such a poll moves the cursor over rows that were delivered before, or over none. */
  ghost predicate Harmless(s: BridgeState, e: Event, file: seq<Row>, from: nat) {
    SavesUnposted(s, e) ==>
      forall i :: from <= i && s.processed <= i < |e.items| ==> Delivered(s.posted, file, i)
  }

  ghost predicate HarmlessDryRuns(first: BridgeState, events: seq<Event>, file: seq<Row>, from: nat) {
    forall j :: 0 <= j < |events| ==> Harmless(After(first, events[..j]), events[j], file, from)
  }

  lemma PollSkipsNothing(s: BridgeState, items: seq<Row>, crash: Option<Crash>, file: seq<Row>, from: nat)
    requires items <= file && NothingSkipped(s, file, from) && Harmless(s, Poll(items, crash), file, from)
    ensures NothingSkipped(Polled(s, items, crash), file, from)
  {
    var t := Polled(s, items, crash);
    var more := if s.cfg.dryRun then [] else Arrived(Batches(s, items), crash);
    assert t.posted == s.posted + more;
    forall i | Delivered(s.posted, file, i) ensures Delivered(t.posted, file, i) {
      DeliveredStays(s.posted, more, file, i);
    }
    if crash.None? && (s.cfg.hasCursorFile || !s.cfg.dryRun) {
      forall i | from <= i < |items| ensures Delivered(t.posted, file, i) {
        if i >= s.processed && !s.cfg.dryRun { PollDelivers(s, items, file, i); }
      }
    }
    hide Batches, Delivered;
  }

  lemma AppendOnlyInit(events: seq<Event>, file: seq<Row>)
    requires AppendOnly(events, file) && events != []
    ensures AppendOnly(events[..|events| - 1], file)
  {
    forall e | e in events[..|events| - 1] ensures e in events { }
  }

  /** At least once: through any crashes and any sequence of processes, every row of an
      append-only file from the initial cursor up to the saved one has been posted, provided no
      dry run moved the shared cursor over a row that had not been. */
  lemma {:induction false} AtLeastOnce(cfg: Config, saved: Option<int>, events: seq<Event>, file: seq<Row>)
    requires AppendOnly(events, file)
    requires HarmlessDryRuns(Started(cfg, saved, []), events, file, Cursor(saved))
    ensures NothingSkipped(After(Started(cfg, saved, []), events), file, Cursor(saved))
  {
    var first := Started(cfg, saved, []);
    if events != [] {
      var init, e := events[..|events| - 1], events[|events| - 1];
      AppendOnlyInit(events, file);
      forall j | 0 <= j < |init| ensures Harmless(After(first, init[..j]), init[j], file, Cursor(saved)) {
        assert events[j] == init[j] && events[..j] == init[..j];
      }
      AtLeastOnce(cfg, saved, init, file);
      var s := After(first, init);
      assert Harmless(s, e, file, Cursor(saved)) by { assert events[..|events| - 1] == init; }
      if e.Poll? { PollSkipsNothing(s, e.items, e.crash, file, Cursor(saved)); }
    }
  }

  predicate AlwaysCursor(events: seq<Event>) {
    forall e :: e in events && e.Start? ==> e.cfg.hasCursorFile
  }

  /** Row i was passed over: the cursor is beyond it and it was never posted. */
  ghost predicate PassedOver(s: BridgeState, file: seq<Row>, i: nat) {
    && s.cfg.hasCursorFile && i < s.processed && i < Cursor(s.saved) && i < |file|
    && !Delivered(s.posted, file, i)
  }

  lemma {:induction false} ChunksStartAt(rows: seq<Row>, start: nat, size: nat)
    requires size >= 1
    ensures forall p :: p in Chunks(rows, start, size) ==> p.start >= start
    decreases |rows|
  {
    if |rows| > size { ChunksStartAt(rows[size..], start + size, size); }
  }

  /** With the cursor file in use a row once passed over stays so. */
  lemma PassedOverStays(s: BridgeState, e: Event, file: seq<Row>, i: nat)
    requires PassedOver(s, file, i)
    requires if e.Poll? then i < |e.items| else e.cfg.hasCursorFile
    ensures PassedOver(Step(s, e), file, i)
  {
    if e.Poll? {
      var c := Batches(s, e.items);
      ChunksStartAt(Pending(e.items, s.processed), s.processed, BatchSize(s.cfg));
      var more := if s.cfg.dryRun then [] else Arrived(c, e.crash);
      forall p | p in more ensures p.start > i { assert p in c; }
      LaterPosts(s.posted, more, file, i);
      hide Batches, Delivered;
    }
  }

  lemma LaterPosts(posted: seq<Post>, more: seq<Post>, file: seq<Row>, i: nat)
    requires !Delivered(posted, file, i) && forall p :: p in more ==> p.start > i
    ensures !Delivered(posted + more, file, i)
  {
    var all := posted + more;
    forall k | |posted| <= k < |all| ensures all[k].start > i {
      assert all[k] == more[k - |posted|];
    }
    forall k | 0 <= k < |posted| ensures all[k] == posted[k] { }
  }

  lemma {:induction false} PassedOverForever(first: BridgeState, events: seq<Event>, file: seq<Row>, j: nat, i: nat)
    requires AppendOnly(events, file) && AlwaysCursor(events) && 0 < j <= |events|
    requires events[j - 1].Poll? && i < |events[j - 1].items|
    requires PassedOver(After(first, events[..j]), file, i)
    ensures PassedOver(After(first, events), file, i)
    decreases |events|
  {
    if j < |events| {
      var init, e := events[..|events| - 1], events[|events| - 1];
      AppendOnlyInit(events, file);
      forall x | x in init ensures x in events { }
      assert init[..j] == events[..j] && init[j - 1] == events[j - 1];
      PassedOverForever(first, init, file, j, i);
      assert e in events;
      PassedOverStays(After(first, init), e, file, i);
    } else {
      assert events[..j] == events;
    }
  }

  lemma {:induction false} CursorThroughout(first: BridgeState, events: seq<Event>)
    requires first.cfg.hasCursorFile && AlwaysCursor(events)
    ensures After(first, events).cfg.hasCursorFile
  {
    if events != [] {
      var init, e := events[..|events| - 1], events[|events| - 1];
      forall x | x in init ensures x in events { }
      CursorThroughout(first, init);
      assert e in events;
    }
  }

  /** A dry poll that moves the saved cursor over an undelivered row loses it for good. */
  lemma HarmIsPermanent(first: BridgeState, events: seq<Event>, file: seq<Row>, from: nat, j: nat)
    requires AppendOnly(events, file) && AlwaysCursor(events) && j < |events|
    requires !Harmless(After(first, events[..j]), events[j], file, from)
    ensures !Covered(After(first, events).posted, file, from, Cursor(After(first, events).saved))
  {
    var s, e := After(first, events[..j]), events[j];
    var i :| from <= i && s.processed <= i < |e.items| && !Delivered(s.posted, file, i);
    assert events[..j + 1][..j] == events[..j];
    assert e in events && e.items <= file;
    assert After(first, events[..j + 1]) == Polled(s, e.items, None);
    assert s.posted + [] == s.posted;
    PassedOverForever(first, events, file, j + 1, i);
  }

  /** Exactly when no row below the saved cursor is skipped, over any processes sharing the
      cursor file: every row that a completed dry poll moved the cursor over had been delivered
      before that poll. */
  lemma CoveredExactly(cfg: Config, saved: Option<int>, events: seq<Event>, file: seq<Row>)
    requires AppendOnly(events, file) && cfg.hasCursorFile && AlwaysCursor(events)
    ensures var first, from := Started(cfg, saved, []), Cursor(saved);
            var s := After(first, events);
            Covered(s.posted, file, from, Cursor(s.saved)) <==> HarmlessDryRuns(first, events, file, from)
  {
    var first, from := Started(cfg, saved, []), Cursor(saved);
    if HarmlessDryRuns(first, events, file, from) {
      AtLeastOnce(cfg, saved, events, file);
    } else {
      var j :| 0 <= j < |events| && !Harmless(After(first, events[..j]), events[j], file, from);
      HarmIsPermanent(first, events, file, from, j);
    }
  }

  /** The shortest such loss: a dry run over one row, then a real run that finds nothing to do. */
  lemma DryThenReal(row: Row, size: int)
    ensures var dry, live := Config(size, true, true), Config(size, false, true);
            var s := After(Started(dry, None, []), [Poll([row], None), Start(live), Poll([row], None)]);
            s.saved == Some(1) && s.posted == [] && !Delivered(s.posted, [row], 0)
  {
    var dry, live := Config(size, true, true), Config(size, false, true);
    var events := [Poll([row], None), Start(live), Poll([row], None)];
    var s0 := Started(dry, None, []);
    assert events[..3] == events && events[..2] == [events[0], events[1]];
    assert events[..2][..1] == [events[0]] && [events[0]][..0] == [];
    var s1 := Polled(s0, [row], None);
    assert s1.saved == Some(1) && s1.posted == [];
    var s2 := Started(live, s1.saved, s1.posted);
    assert After(s0, [events[0]]) == s1;
    assert After(s0, events[..2]) == s2;
    assert Pending([row], 1) == [];
    assert Batches(s2, [row]) == [];
  }

  // ----- Exactly once and in order when nothing fails -----

  function Rows(posts: seq<Post>): seq<Row> {
    if posts == [] then [] else posts[0].rows + Rows(posts[1..])
  }

  lemma {:induction false} RowsConcat(a: seq<Post>, b: seq<Post>)
    ensures Rows(a + b) == Rows(a) + Rows(b)
  {
    if a == [] {
      assert a + b == b;
    } else {
      RowsConcat(a[1..], b);
      var ab := a + b;
      assert ab[0] == a[0] && ab[1..] == a[1..] + b;
      Associative(a[0].rows, Rows(a[1..]), Rows(b));
    }
  }

  lemma Associative(x: seq<Row>, y: seq<Row>, z: seq<Row>)
    ensures x + (y + z) == (x + y) + z
  {
  }

  ghost predicate SizedBatches(posts: seq<Post>, size: nat) {
    forall p :: p in posts ==> 1 <= |p.rows| <= size
  }

  lemma {:induction false} ChunksExact(rows: seq<Row>, start: nat, size: nat)
    requires size >= 1
    ensures Rows(Chunks(rows, start, size)) == rows
    ensures SizedBatches(Chunks(rows, start, size), size)
    decreases |rows|
  {
    if |rows| > size {
      var rest := Chunks(rows[size..], start + size, size);
      ChunksExact(rows[size..], start + size, size);
      assert Chunks(rows, start, size)[1..] == rest;
      assert rows == rows[..size] + rows[size..];
    } else if rows != [] {
      var one := Chunks(rows, start, size);
      assert one[1..] == [] && Rows(one[1..]) == [];
    }
  }

  /** No crash, no dry run, and a new process only where the cursor file links it to the one
      before; n bounds every batch size and `from` lies within the file. */
  ghost predicate Smooth(cfg: Config, events: seq<Event>, from: nat, n: nat) {
    && !cfg.dryRun && BatchSize(cfg) <= n
    && (forall e :: e in events ==>
          match e
          case Start(next) => cfg.hasCursorFile && next.hasCursorFile && !next.dryRun && BatchSize(next) <= n
          case Poll(items, crash) => crash.None? && from <= |items|)
  }

  /** Where the last poll ended, or the start. */
  function Reached(events: seq<Event>, from: nat): nat {
    if events == [] then from
    else
      var e := events[|events| - 1];
      if e.Poll? then |e.items| else Reached(events[..|events| - 1], from)
  }

  lemma {:induction false} ReachedBefore(events: seq<Event>, from: nat, file: seq<Row>, n: nat)
    requires AppendOnly(events, file) && n <= |file|
    requires from <= n && forall e :: e in events && e.Poll? ==> |e.items| <= n
    ensures Reached(events, from) <= n
  {
    if events != [] {
      var init := events[..|events| - 1];
      assert events[|events| - 1] in events;
      forall x | x in init ensures x in events { }
      AppendOnlyInit(events, file);
      ReachedBefore(init, from, file, n);
    }
  }

  /** The state between events of a smooth history. */
  ghost predicate InOrder(cfg: Config, s: BridgeState, file: seq<Row>, from: nat, at: nat, n: nat) {
    && from <= at <= |file| && s.processed == at
    && Rows(s.posted) == file[from..at] && SizedBatches(s.posted, n)
    && !s.cfg.dryRun && BatchSize(s.cfg) <= n && (cfg.hasCursorFile ==> s.cfg.hasCursorFile && Cursor(s.saved) == at)
  }

  /** With no failures the posted batches are exactly the rows after the initial cursor, once
      each and in order, in batches of 1 to batch-size rows, also across restarts. */
  lemma {:induction false} ExactlyOnceInOrder(cfg: Config, saved: Option<int>, events: seq<Event>, file: seq<Row>, n: nat)
    requires AppendOnly(events, file) && LoadCursor(cfg, saved) <= |file|
    requires Smooth(cfg, events, LoadCursor(cfg, saved), n)
    ensures InOrder(cfg, After(Started(cfg, saved, []), events), file, LoadCursor(cfg, saved),
                    Reached(events, LoadCursor(cfg, saved)), n)
  {
    var first, from := Started(cfg, saved, []), LoadCursor(cfg, saved);
    if events != [] {
      var init, e := events[..|events| - 1], events[|events| - 1];
      AppendOnlyInit(events, file);
      assert e in events;
      forall x | x in init ensures x in events { }
      ExactlyOnceInOrder(cfg, saved, init, file, n);
      if e.Poll? {
        forall x | x in init && x.Poll? ensures |x.items| <= |e.items| {
          var k :| 0 <= k < |init| && init[k] == x;
          assert events[k].items <= events[|events| - 1].items;
        }
        ReachedBefore(init, from, file, |e.items|);
        PollExact(cfg, After(first, init), e.items, file, from, Reached(init, from), n);
      }
    }
  }

  lemma {:induction false} ChunksFull(rows: seq<Row>, start: nat, size: nat, j: nat)
    requires size >= 1 && j < |Chunks(rows, start, size)|
    ensures var p := Chunks(rows, start, size)[j];
            && j * size < |rows| && p.start == start + j * size
            && |p.rows| == (if j * size + size <= |rows| then size else |rows| - j * size)
    decreases |rows|
  {
    if |rows| > size && j > 0 {
      ChunksFull(rows[size..], start + size, size, j - 1);
      assert Chunks(rows, start, size)[j] == Chunks(rows[size..], start + size, size)[j - 1];
      assert (j - 1) * size + size == j * size;
    }
  }

  lemma {:induction false} ChunksEnough(rows: seq<Row>, start: nat, size: nat)
    requires size >= 1
    ensures |Chunks(rows, start, size)| * size >= |rows|
    decreases |rows|
  {
    if |rows| > size {
      ChunksEnough(rows[size..], start + size, size);
      var k := |Chunks(rows[size..], start + size, size)|;
      assert (k + 1) * size == k * size + size;
    } else if rows != [] {
      assert |Chunks(rows, start, size)| == 1;
    }
  }

  /** Batches are full: each post of a completed poll starts where the one before it ended and
      has batch-size rows, but for the last, which ends with the file. */
  lemma BatchesAreFull(s: BridgeState, items: seq<Row>, j: nat)
    requires !s.cfg.dryRun && s.processed <= |items|
    requires |s.posted| + j < |Polled(s, items, None).posted|
    ensures var n := if s.cfg.batchSize < 1 then 1 else s.cfg.batchSize;
            var added := Polled(s, items, None).posted[|s.posted|..];
            && added[j].start == s.processed + j * n < |items|
            && |added[j].rows| == (if added[j].start + n <= |items| then n else |items| - added[j].start)
            && (j == |added| - 1 ==> added[j].start + |added[j].rows| == |items|)
  {
    PostedByPoll(s, items);
    hide Polled, Chunks;
    ChunkShape(Pending(items, s.processed), s.processed, BatchSize(s.cfg), j);
  }

  lemma PostedByPoll(s: BridgeState, items: seq<Row>)
    requires !s.cfg.dryRun
    ensures Polled(s, items, None).posted[|s.posted|..] == Batches(s, items)
    ensures |Polled(s, items, None).posted| == |s.posted| + |Batches(s, items)|
  {
    hide Batches;
  }

  lemma ChunkShape(rows: seq<Row>, start: nat, n: nat, j: nat)
    requires n >= 1 && j < |Chunks(rows, start, n)|
    ensures var c := Chunks(rows, start, n);
            && c[j].start == start + j * n < start + |rows|
            && |c[j].rows| == (if j * n + n <= |rows| then n else |rows| - j * n)
            && (j == |c| - 1 ==> c[j].start + |c[j].rows| == start + |rows|)
  {
    ChunksFull(rows, start, n, j);
    ChunksEnough(rows, start, n);
    hide Chunks;
    var k := |Chunks(rows, start, n)|;
    if j == k - 1 { assert k * n == j * n + n; }
  }

  lemma PollExact(cfg: Config, s: BridgeState, items: seq<Row>, file: seq<Row>, from: nat, at: nat, n: nat)
    requires InOrder(cfg, s, file, from, at, n) && items <= file && at <= |items|
    ensures InOrder(cfg, Polled(s, items, None), file, from, |items|, n)
  {
    hide Chunks, Rows;
    var pending, more := Pending(items, s.processed), Batches(s, items);
    ChunksExact(pending, s.processed, BatchSize(s.cfg));
    RowsConcat(s.posted, more);
    assert file[from..|items|] == file[from..at] + pending;
  }
}
