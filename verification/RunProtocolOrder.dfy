/**
 Order of the streamed events.  When the events of a run are published in the order
 in which they were persisted, every client receives a prefix of the persisted log,
 and a stream that is not disconnected ends exactly at the first terminal event.
 Without that order the prefix property fails, and the module says exactly when.
 */
module RunProtocolOrder {
  import opened Wrappers
  import opened RunProtocol
  import opened RunProtocolSafety
  import opened RunProtocolEnds

  /** The oldest unpublished event of a run is published first. */
  ghost predicate InOrder(s: System, step: Step) {
    step.StartPublish? ==> forall k :: Ref(step.ref.runId, k) in s.pending ==> step.ref.index <= k
  }

  ghost predicate OrderedRun(s: System, steps: seq<Step>)
    decreases |steps|
  {
    steps != [] ==>
      InOrder(s, steps[0]) && Enabled(s, steps[0]) && OrderedRun(Apply(s, steps[0]), steps[1..])
  }

  /** The ids of `es` are the ids of the log from position `a` on. */
  ghost predicate Window(es: seq<Event>, log: seq<Event>, a: nat) {
    a + |es| <= |log| && forall j :: 0 <= j < |es| ==> es[j].id == log[a + j].id
  }

  /** Unpublished events of a run are its newest ones, and newer than the one being delivered. */
  ghost predicate QueueOk(s: System) {
    && (forall r, j: nat, k: nat :: Ref(r, j) in s.pending && j < k < |s.Log(r)| ==> Ref(r, k) in s.pending)
    && (s.pass.Delivering? ==> forall k: nat :: Ref(s.pass.runId, k) in s.pending ==> s.pass.index < k)
  }

  /** The buffer is a window of the log that starts inside the snapshot, and the log's next event is next to come. */
  ghost predicate BufferAt(s: System, i: nat, a: nat)
    requires i < |s.tasks|
  {
    var t := s.tasks[i];
    var log := s.Log(t.st.runId);
    var next := a + |t.st.liveBuffer|;
    && Window(t.st.liveBuffer, log, a)
    && a <= (if t.stage.HasSnapshot? then |t.stage.persisted| else |log|)
    && (forall k: nat :: Ref(t.st.runId, k) in s.pending ==> next <= k)
    && (forall k: nat :: InFlight(s, i, k) ==> k == next)
    && (forall k: nat :: next <= k < |log| ==> Ref(t.st.runId, k) in s.pending || InFlight(s, i, k))
  }

  ghost predicate TaskOrdered(s: System, i: nat)
    requires i < |s.tasks|
  {
    && Window(s.tasks[i].st.seenEvents, s.Log(s.tasks[i].st.runId), 0)
    && (!s.tasks[i].st.closed && !s.tasks[i].stage.Finished? ==> exists a: nat :: BufferAt(s, i, a))
  }

  ghost predicate OrderInv(s: System) {
    Inv(s) && QueueOk(s) && forall i: nat :: i < |s.tasks| ==> TaskOrdered(s, i)
  }

  // ---------------------------------------------------------------- replaying a window

  /** An emitted id is found at its position of the log. */
  lemma EmittedAt(st: Stream, log: seq<Event>, a: nat)
    requires st.emittedIds == IdSet(st.seenEvents) && DistinctIds(log) && Window(st.seenEvents, log, 0)
    requires a < |log|
    ensures log[a].id in st.emittedIds <==> a < |st.seenEvents|
  {
    if a < |st.seenEvents| {
      assert st.seenEvents[a] in st.seenEvents;
    }
  }

  /** Emitting an event whose predecessors are all received keeps a prefix of the log. */
  lemma EmitEventWindow(st: Stream, e: Event, log: seq<Event>, a: nat)
    requires StreamOk(st) && DistinctIds(log) && Window(st.seenEvents, log, 0)
    requires a < |log| && a <= |st.seenEvents| && e.id == log[a].id
    ensures var st' := st.EmitEvent(e).0;
      && Window(st'.seenEvents, log, 0)
      && |st.seenEvents| <= |st'.seenEvents|
      && (!st.closed ==> a < |st'.seenEvents|)
  {
    EmitEventFields(st, e);
    EmittedAt(st, log, a);
  }

  /** Emitting a window that overlaps the received prefix keeps it a prefix of the log. */
  lemma {:induction false} EmitAllWindow(st: Stream, es: seq<Event>, log: seq<Event>, a: nat)
    requires StreamOk(st) && DistinctIds(log)
    requires Window(st.seenEvents, log, 0) && Window(es, log, a) && a <= |st.seenEvents|
    ensures var st' := st.EmitAll(es).0;
      && Window(st'.seenEvents, log, 0)
      && (!st'.closed ==> a + |es| <= |st'.seenEvents|)
    decreases |es|
  {
    if es != [] && !st.closed {
      EmitEventOk(st, es[0]);
      EmitEventWindow(st, es[0], log, a);
      var (s, terminal) := st.EmitEvent(es[0]);
      EmitEventFields(st, es[0]);
      if !terminal {
        assert Window(es[1..], log, a + 1);
        EmitAllWindow(s, es[1..], log, a + 1);
      }
    }
  }

  lemma ResumeWindow(st: Stream, persisted: seq<Event>, log: seq<Event>, a: nat)
    requires StreamOk(st) && DistinctIds(log) && !st.heartbeat
    requires st.seenEvents == [] || st.closed
    requires Window(st.seenEvents, log, 0)
    requires persisted <= log && (!st.closed ==> Window(st.liveBuffer, log, a) && a <= |persisted|)
    ensures Window(st.Resume(persisted).seenEvents, log, 0)
  {
    EmitAllFields(st, persisted);
    var (s, returned) := st.EmitAll(persisted);
    if st.closed {
      EmitAllFields(s.(replaying := false, liveBuffer := []), s.liveBuffer);
    } else {
      EmitAllWindow(st, persisted, log, 0);
      EmitAllOk(st, persisted);
      if !returned {
        EmitAllWindow(s.(replaying := false, liveBuffer := []), s.liveBuffer, log, a);
      }
    }
  }

  // ---------------------------------------------------------------- every ordered step keeps the order

  /** The position of the next event of a run to be published. */
  lemma {:induction false} NextToPublish(s: System, r: string, n: nat) returns (a: nat)
    requires StoreOk(s) && QueueOk(s) && n <= |s.Log(r)|
    requires forall k: nat :: n <= k < |s.Log(r)| ==> Ref(r, k) in s.pending
    ensures a <= |s.Log(r)|
    ensures forall k: nat :: Ref(r, k) in s.pending ==> a <= k
    ensures forall k: nat :: a <= k < |s.Log(r)| ==> Ref(r, k) in s.pending
  {
    if n == 0 {
      a := 0;
    } else if Ref(r, n - 1) in s.pending {
      a := NextToPublish(s, r, n - 1);
    } else {
      a := n;
    }
  }

  /** What the buffer condition of a stream depends on. */
  lemma BufferFrame(s: System, s': System, i: nat, a: nat)
    requires i < |s.tasks| && i < |s'.tasks| && s.tasks[i] == s'.tasks[i]
    requires s.logs == s'.logs && s.pending == s'.pending
    requires forall k: nat :: InFlight(s, i, k) <==> InFlight(s', i, k)
    requires BufferAt(s, i, a)
    ensures BufferAt(s', i, a)
  {}

  /** The order condition of a stream is untouched by a step of another one. */
  lemma TaskFrame(s: System, s': System, i: nat)
    requires i < |s.tasks| && i < |s'.tasks| && s.tasks[i] == s'.tasks[i]
    requires s.logs == s'.logs && s.pending == s'.pending
    requires forall k: nat :: InFlight(s, i, k) <==> InFlight(s', i, k)
    requires TaskOrdered(s, i)
    ensures TaskOrdered(s', i)
  {
    assert s'.Log(s.tasks[i].st.runId) == s.Log(s.tasks[i].st.runId);
    if !s.tasks[i].st.closed && !s.tasks[i].stage.Finished? {
      var a: nat :| BufferAt(s, i, a);
      BufferFrame(s, s', i, a);
    }
  }

  lemma PersistTaskOrdered(s: System, e: Event, i: nat)
    requires OrderInv(s) && e.id !in s.ids && i < |s.tasks|
    ensures TaskOrdered(Apply(s, Persist(e)), i)
  {
    var s' := Apply(s, Persist(e));
    var r := s.tasks[i].st.runId;
    assert TaskOrdered(s, i);
    assert s'.Log(r) == if r == e.runId then s.Log(r) + [e] else s.Log(r);
    if !s.tasks[i].st.closed && !s.tasks[i].stage.Finished? {
      var a: nat :| BufferAt(s, i, a);
      assert forall k: nat :: InFlight(s', i, k) <==> InFlight(s, i, k);
      assert BufferAt(s', i, a);
    }
  }

  lemma PersistQueue(s: System, e: Event)
    requires StoreOk(s) && PassOk(s) && QueueOk(s) && e.id !in s.ids
    ensures QueueOk(Apply(s, Persist(e)))
  {
    var s' := Apply(s, Persist(e));
    forall r, j: nat, k: nat | Ref(r, j) in s'.pending && j < k < |s'.Log(r)|
      ensures Ref(r, k) in s'.pending
    {
      assert s'.Log(r) == if r == e.runId then s.Log(r) + [e] else s.Log(r);
    }
  }

  lemma PersistOrder(s: System, e: Event)
    requires OrderInv(s)
    ensures OrderInv(Apply(s, Persist(e)))
  {
    var s' := Apply(s, Persist(e));
    StepInv(s, Persist(e));
    if e.id !in s.ids {
      PersistQueue(s, e);
      forall i: nat | i < |s'.tasks| ensures TaskOrdered(s', i) {
        PersistTaskOrdered(s, e, i);
      }
    }
  }

  lemma StartPublishTaskOrdered(s: System, ref: Ref, i: nat)
    requires OrderInv(s) && Enabled(s, StartPublish(ref)) && InOrder(s, StartPublish(ref)) && i < |s.tasks|
    ensures TaskOrdered(Apply(s, StartPublish(ref)), i)
  {
    var s' := Apply(s, StartPublish(ref));
    var st := s.tasks[i].st;
    assert TaskOrdered(s, i);
    assert s'.Log(st.runId) == s.Log(st.runId);
    if !st.closed && !s.tasks[i].stage.Finished? {
      var a: nat :| BufferAt(s, i, a);
      assert i in ListenersOf(s.listeners, st.runId);
      var next := a + |st.liveBuffer|;
      assert !InFlight(s, i, next);
      if ref.runId == st.runId {
        assert next == ref.index;
      } else {
        assert i !in ListenersOf(s.listeners, ref.runId);
      }
      assert forall k: nat :: InFlight(s', i, k) <==> ref.runId == st.runId && k == ref.index;
      assert BufferAt(s', i, a);
    }
  }

  lemma StartPublishOrder(s: System, ref: Ref)
    requires OrderInv(s) && Enabled(s, StartPublish(ref)) && InOrder(s, StartPublish(ref))
    ensures OrderInv(Apply(s, StartPublish(ref)))
  {
    var s' := Apply(s, StartPublish(ref));
    StepInv(s, StartPublish(ref));
    assert forall r :: s'.Log(r) == s.Log(r);
    forall i: nat | i < |s'.tasks| ensures TaskOrdered(s', i) {
      StartPublishTaskOrdered(s, ref, i);
    }
  }

  /** The first event that a live stream has not received is still to come. */
  lemma NextMissing(s: System, i: nat)
    requires OrderInv(s) && i < |s.tasks| && s.tasks[i].stage.Finished? && !s.tasks[i].st.closed
    requires |s.tasks[i].st.seenEvents| < |s.Log(s.tasks[i].st.runId)|
    ensures var m := |s.tasks[i].st.seenEvents|;
      Ref(s.tasks[i].st.runId, m) in s.pending || InFlight(s, i, m)
  {
    var st := s.tasks[i].st;
    assert TaskOk(s, i) && TaskOrdered(s, i);
    assert Accounted(s, i, |st.seenEvents|);
    EmittedAt(st, s.Log(st.runId), |st.seenEvents|);
  }

  /** A live stream that is about to be called has received everything before the delivered event. */
  lemma LiveReady(s: System, i: nat)
    requires OrderInv(s) && s.pass.Delivering? && i in s.pass.remaining && i < |s.tasks|
    requires s.tasks[i].stage.Finished? && !s.tasks[i].st.closed
    ensures s.pass.index <= |s.tasks[i].st.seenEvents|
  {
    if |s.tasks[i].st.seenEvents| < |s.Log(s.tasks[i].st.runId)| {
      NextMissing(s, i);
    }
  }

  lemma DeliverOrder(s: System)
    requires OrderInv(s) && Enabled(s, DeliverNext)
    ensures OrderInv(Apply(s, DeliverNext))
  {
    var s' := Apply(s, DeliverNext);
    StepInv(s, DeliverNext);
    assert forall r :: s'.Log(r) == s.Log(r);
    forall j: nat | j < |s'.tasks| ensures TaskOrdered(s', j) {
      assert TaskOrdered(s, j);
      if s.pass.remaining != [] && j == s.pass.remaining[0] {
        DeliverTaskOrdered(s, j);
      } else {
        TaskFrame(s, s', j);
      }
    }
  }

  /** Delivery to a stream that is still replaying: the buffer grows by the next event. */
  lemma DeliverBuffered(s: System, i: nat, a: nat)
    requires PassOk(s) && QueueOk(s) && s.pass.Delivering? && s.pass.remaining != [] && i == s.pass.remaining[0]
    requires i < |s.tasks| && !s.tasks[i].st.closed && s.tasks[i].st.replaying && BufferAt(s, i, a)
    requires a + |s.tasks[i].st.liveBuffer| == s.pass.index < |s.Log(s.tasks[i].st.runId)|
    requires s.pass.event.id == s.Log(s.tasks[i].st.runId)[s.pass.index].id
    ensures BufferAt(Apply(s, DeliverNext), i, a)
  {
    var s' := Apply(s, DeliverNext);
    assert i in s.pass.remaining && i !in s.pass.remaining[1..];
    assert s'.Log(s.tasks[i].st.runId) == s.Log(s.tasks[i].st.runId);
    assert forall j: nat :: !InFlight(s', i, j);
    assert forall k: nat :: InFlight(s, i, k) <==> k == s.pass.index;
  }

  lemma DeliverLive(s: System, i: nat)
    requires OrderInv(s) && s.pass.Delivering? && i in s.pass.remaining
    requires i < |s.tasks| && s.tasks[i].stage.Finished? && !s.tasks[i].st.closed
    ensures Window(s.tasks[i].st.Deliver(s.pass.event).seenEvents, s.Log(s.tasks[i].st.runId), 0)
  {
    assert TaskOk(s, i) && TaskOrdered(s, i);
    LiveReady(s, i);
    EmitEventWindow(s.tasks[i].st, s.pass.event, s.Log(s.tasks[i].st.runId), s.pass.index);
  }

  lemma DeliverTaskOrdered(s: System, i: nat)
    requires OrderInv(s) && s.pass.Delivering? && s.pass.remaining != [] && i == s.pass.remaining[0]
    requires i < |s.tasks|
    ensures TaskOrdered(Apply(s, DeliverNext), i)
  {
    var s' := Apply(s, DeliverNext);
    var t := s.tasks[i];
    assert i in s.pass.remaining;
    assert TaskOk(s, i) && TaskOrdered(s, i);
    assert s'.Log(t.st.runId) == s.Log(t.st.runId);
    if !t.st.closed {
      if t.stage.Finished? {
        DeliverLive(s, i);
      } else {
        var a: nat :| BufferAt(s, i, a);
        assert InFlight(s, i, s.pass.index);
        DeliverBuffered(s, i, a);
      }
    }
  }

  lemma OpenOrder(s: System, r: string)
    requires OrderInv(s)
    ensures OrderInv(Apply(s, Open(r)))
  {
    var s' := Apply(s, Open(r));
    StepInv(s, Open(r));
    assert forall q :: s'.Log(q) == s.Log(q);
    var n: nat := |s.tasks|;
    var a := NextToPublish(s, r, |s.Log(r)|);
    assert forall k: nat :: !InFlight(s', n, k);
    assert BufferAt(s', n, a);
    forall i: nat | i < |s'.tasks| ensures TaskOrdered(s', i) {
      if i < n {
        TaskFrame(s, s', i);
      }
    }
  }

  /** A step that replaces one stream and leaves log, queue and pass alone. */
  lemma UpdateOrder(s: System, i: nat, stage: Stage, st: Stream)
    requires OrderInv(s) && i < |s.tasks| && st.runId == s.tasks[i].st.runId
    requires var s' := s.Update(i, stage, st); Inv(s') && TaskOrdered(s', i)
    ensures OrderInv(s.Update(i, stage, st))
  {
    var s' := s.Update(i, stage, st);
    assert forall r :: s'.Log(r) == s.Log(r);
    forall j: nat | j < |s'.tasks| ensures TaskOrdered(s', j) {
      if j != i {
        TaskFrame(s, s', j);
      }
    }
  }

  lemma ResumeOrder(s: System, i: nat)
    requires OrderInv(s) && Enabled(s, ResumeStream(i))
    ensures OrderInv(Apply(s, ResumeStream(i)))
  {
    StepInv(s, ResumeStream(i));
    var t := s.tasks[i];
    var log := s.Log(t.st.runId);
    assert TaskOk(s, i) && TaskOrdered(s, i);
    var a: nat := 0;
    if !t.st.closed {
      a :| BufferAt(s, i, a);
    }
    ResumeWindow(t.st, t.stage.persisted, log, a);
    ResumeOk(t.st, t.stage.persisted);
    UpdateOrder(s, i, Finished, t.st.Resume(t.stage.persisted));
  }

  /** Steps of one stream that do not change what it has received or buffered. */
  lemma QuietOrder(s: System, i: nat, stage: Stage, st: Stream)
    requires OrderInv(s) && i < |s.tasks| && st.runId == s.tasks[i].st.runId
    requires Inv(s.Update(i, stage, st))
    requires st.seenEvents == s.tasks[i].st.seenEvents && st.liveBuffer == s.tasks[i].st.liveBuffer
    requires st.closed || (stage == s.tasks[i].stage && !s.tasks[i].st.closed)
          || (s.tasks[i].stage.Reading? && stage == HasSnapshot(s.Log(st.runId)) && !s.tasks[i].st.closed)
    ensures OrderInv(s.Update(i, stage, st))
  {
    var s' := s.Update(i, stage, st);
    assert TaskOrdered(s, i);
    if !st.closed && !stage.Finished? {
      var a: nat :| BufferAt(s, i, a);
      assert forall k: nat :: InFlight(s', i, k) <==> InFlight(s, i, k);
      assert BufferAt(s', i, a);
    }
    UpdateOrder(s, i, stage, st);
  }

  lemma StepOrder(s: System, step: Step)
    requires OrderInv(s) && Enabled(s, step) && InOrder(s, step)
    ensures OrderInv(Apply(s, step))
  {
    StepInv(s, step);
    match step
    case Persist(e) => PersistOrder(s, e);
    case StartPublish(ref) => StartPublishOrder(s, ref);
    case DeliverNext => DeliverOrder(s);
    case Open(r) => OpenOrder(s, r);
    case ReadSnapshot(i) => QuietOrder(s, i, HasSnapshot(s.Log(s.tasks[i].st.runId)), s.tasks[i].st);
    case ReadFails(i) => QuietOrder(s, i, Finished, s.tasks[i].st.Teardown(None));
    case ResumeStream(i) => ResumeOrder(s, i);
    case ClientClose(i) => QuietOrder(s, i, s.tasks[i].stage, s.tasks[i].st.Teardown(None));
    case HeartbeatTick(i) => QuietOrder(s, i, s.tasks[i].stage, s.tasks[i].st.Tick());
  }

  lemma {:induction false} RunOrder(s: System, steps: seq<Step>)
    requires OrderInv(s) && OrderedRun(s, steps)
    ensures Runs(s, steps) && OrderInv(Final(s, steps))
    decreases |steps|
  {
    if steps != [] {
      StepOrder(s, steps[0]);
      RunOrder(Apply(s, steps[0]), steps[1..]);
    }
  }

  // ---------------------------------------------------------------- theorems over every ordered run

  lemma WindowIsPrefix(es: seq<Event>, log: seq<Event>)
    ensures Window(es, log, 0) <==> Ids(es) <= Ids(log)
  {
    if Window(es, log, 0) {
      assert Ids(es) == Ids(log)[..|es|];
    } else if Ids(es) <= Ids(log) {
      forall j | 0 <= j < |es| ensures es[j].id == log[j].id {
        assert Ids(es)[j] == Ids(log)[j];
      }
    }
  }

  lemma InitOrder(s: System)
    requires Init(s)
    ensures OrderInv(s)
  {
    InitInv(s);
  }

  /** The part of a log that a stream may show: up to and including the first terminal event. */
  function UpToTerminal(log: seq<Event>): seq<Event> {
    if log == [] then []
    else if IsTerminal(log[0].phase) then [log[0]]
    else [log[0]] + UpToTerminal(log[1..])
  }

  /** The stream was closed by a terminal event, not by a disconnect or a failed read. */
  predicate EndedByDone(st: Stream) {
    st.frames != [] && st.frames[|st.frames| - 1].DoneFrame?
  }

  /** In every ordered run, at every moment, each client has received a prefix of the log of its run. */
  lemma ReceivedPrefix(s0: System, steps: seq<Step>, i: nat)
    requires Init(s0) && OrderedRun(s0, steps)
    ensures Runs(s0, steps)
    ensures var s := Final(s0, steps);
      i < |s.tasks| ==> Ids(Received(s.tasks[i].st.frames)) <= Ids(s.Log(s.tasks[i].st.runId))
  {
    InitOrder(s0);
    RunOrder(s0, steps);
    var s := Final(s0, steps);
    if i < |s.tasks| {
      assert TaskOk(s, i) && TaskOrdered(s, i);
      ReceivedIsSeen(s.tasks[i].st);
      WindowIsPrefix(s.tasks[i].st.seenEvents, s.Log(s.tasks[i].st.runId));
    }
  }

  /** A prefix of the log whose only terminal event is its last, or that is the whole log without one. */
  lemma {:induction false} PrefixToTerminal(log: seq<Event>, n: nat)
    requires n <= |log|
    requires forall j :: 0 <= j < n - 1 ==> !IsTerminal(log[j].phase)
    requires n == |log| || (n > 0 && IsTerminal(log[n - 1].phase))
    ensures UpToTerminal(log) == log[..n]
    decreases |log|
  {
    if log != [] {
      if IsTerminal(log[0].phase) {
        assert n == 1;
      } else {
        assert n != 1 || |log| == 1;
        PrefixToTerminal(log[1..], n - 1);
        assert log[..n] == [log[0]] + log[1..][..n - 1];
      }
    }
  }

  /** A received prefix has the phases of the log. */
  lemma ReceivedPhases(s: System, i: nat)
    requires OrderInv(s) && i < |s.tasks|
    ensures var seen := s.tasks[i].st.seenEvents; var log := s.Log(s.tasks[i].st.runId);
      |seen| <= |log| && forall j :: 0 <= j < |seen| ==> seen[j].phase == log[j].phase
  {
    var seen, log := s.tasks[i].st.seenEvents, s.Log(s.tasks[i].st.runId);
    assert TaskOk(s, i) && TaskOrdered(s, i);
    forall j | 0 <= j < |seen| ensures seen[j].phase == log[j].phase {
      assert seen[j] in seen && log[j] in log;
      FromLogUnique(log, s.redact, seen[j], log[j]);
    }
  }

  /** A log with an event in a finishing phase is cut after the first one. */
  lemma UpToTerminalAt(log: seq<Event>, k: nat)
    requires FirstFinishing(log, k)
    ensures UpToTerminal(log) == log[..k + 1]
  {
    PrefixToTerminal(log, k + 1);
  }

  /** What a client received that was told `done`: the log up to its first event in a finishing phase. */
  ghost predicate DoneAtFirst(st: Stream, log: seq<Event>) {
    exists k: nat :: FirstFinishing(log, k) && Ids(Received(st.frames)) == Ids(log[..k + 1])
                     && st.frames != [] && st.frames[|st.frames| - 1] == DoneFrame(log[k].phase)
  }

  /**
   In every ordered run: a stream that ended with a `done` frame has received exactly
   the log up to and including its first event in one of the four finishing phases, and
   the frame gives that phase.  When the events of the run are all published, a stream
   that finished its replay and was not disconnected is closed exactly if the log has an
   event in such a phase, and holds the whole log if it is open.
   */
  lemma EndsAtFirstTerminal(s0: System, steps: seq<Step>, i: nat)
    requires Init(s0) && OrderedRun(s0, steps)
    ensures Runs(s0, steps)
    ensures var s := Final(s0, steps);
      i < |s.tasks| ==>
        var st := s.tasks[i].st;
        var log := s.Log(st.runId);
        && (EndedByDone(st) ==> DoneAtFirst(st, log))
        && (Quiescent(s, st.runId) && s.tasks[i].stage.Finished? && (st.closed ==> EndedByDone(st)) ==>
              && (st.closed <==> exists k :: 0 <= k < |log| && log[k].phase in {Done, NeedsDecision, Failed, Aborted})
              && (!st.closed ==> Ids(Received(st.frames)) == Ids(log)))
  {
    InitOrder(s0);
    RunOrder(s0, steps);
    var s := Final(s0, steps);
    if i < |s.tasks| {
      if EndedByDone(s.tasks[i].st) {
        DoneFrameAt(s, i);
      } else if Quiescent(s, s.tasks[i].st.runId) && s.tasks[i].stage.Finished? && !s.tasks[i].st.closed {
        OpenHoldsAll(s, i);
      }
    }
  }

  lemma DoneFrameAt(s: System, i: nat)
    requires OrderInv(s) && i < |s.tasks| && EndedByDone(s.tasks[i].st)
    ensures DoneAtFirst(s.tasks[i].st, s.Log(s.tasks[i].st.runId)) && s.tasks[i].st.closed
  {
    var st := s.tasks[i].st;
    var log := s.Log(st.runId);
    FinalPrefix(s, i);
    assert TaskOk(s, i);
    ReceivedIsSeen(st);
    ReceivedPhases(s, i);
    var e :| e in log && IsTerminal(e.phase);
    var m: nat :| m < |log| && log[m] == e;
    var k := FindFirst(log, m);
    UpToTerminalAt(log, k);
    assert |Ids(st.seenEvents)| == |Ids(log[..k + 1])|;
  }

  lemma OpenHoldsAll(s: System, i: nat)
    requires OrderInv(s) && i < |s.tasks| && Quiescent(s, s.tasks[i].st.runId)
    requires s.tasks[i].stage.Finished? && !s.tasks[i].st.closed
    ensures var st := s.tasks[i].st; var log := s.Log(st.runId);
      && Ids(Received(st.frames)) == Ids(log)
      && forall k :: 0 <= k < |log| ==> log[k].phase !in {Done, NeedsDecision, Failed, Aborted}
  {
    var st := s.tasks[i].st;
    var log := s.Log(st.runId);
    FinalPrefix(s, i);
    forall j | 0 <= j < |log| ensures !IsTerminal(log[j].phase) { assert log[j] in log; }
    PrefixToTerminal(log, |log|);
    assert log[..|log|] == log;
  }

  lemma FinalPrefix(s: System, i: nat)
    requires OrderInv(s) && i < |s.tasks|
    requires var st := s.tasks[i].st;
      EndedByDone(st) || (Quiescent(s, st.runId) && s.tasks[i].stage.Finished? && !st.closed)
    ensures var st := s.tasks[i].st; var log := s.Log(st.runId);
      && Ids(Received(st.frames)) == Ids(UpToTerminal(log))
      && (st.closed <==> exists e :: e in log && IsTerminal(e.phase))
  {
    var st := s.tasks[i].st;
    assert TaskOk(s, i) && TaskOrdered(s, i);
    ReceivedIsSeen(st);
    ReceivedPhases(s, i);
    if EndedByDone(st) {
      EndedAtTerminal(st, s.Log(st.runId));
    } else {
      AllReceived(s, i);
    }
  }

  /** A stream that ended holds the log up to a terminal event. */
  lemma EndedAtTerminal(st: Stream, log: seq<Event>)
    requires StreamOk(st) && EndedByDone(st) && Window(st.seenEvents, log, 0)
    requires forall j :: 0 <= j < |st.seenEvents| ==> st.seenEvents[j].phase == log[j].phase
    ensures Ids(st.seenEvents) == Ids(UpToTerminal(log)) && st.closed && exists e :: e in log && IsTerminal(e.phase)
  {
    var n := |st.seenEvents|;
    assert Ended(st.seenEvents);
    assert log[n - 1] in log;
    PrefixToTerminal(log, n);
    assert Ids(st.seenEvents) == Ids(log[..n]);
  }

  /** An open live stream of a run that is all published holds the whole log. */
  lemma AllReceived(s: System, i: nat)
    requires OrderInv(s) && i < |s.tasks| && s.tasks[i].stage.Finished? && !s.tasks[i].st.closed
    requires Quiescent(s, s.tasks[i].st.runId) && |s.tasks[i].st.seenEvents| <= |s.Log(s.tasks[i].st.runId)|
    requires var seen, log := s.tasks[i].st.seenEvents, s.Log(s.tasks[i].st.runId);
      forall j :: 0 <= j < |seen| ==> seen[j].phase == log[j].phase
    ensures var log := s.Log(s.tasks[i].st.runId);
      Ids(s.tasks[i].st.seenEvents) == Ids(UpToTerminal(log)) && forall e :: e in log ==> !IsTerminal(e.phase)
  {
    var st, log := s.tasks[i].st, s.Log(s.tasks[i].st.runId);
    var n := |st.seenEvents|;
    assert TaskOk(s, i) && TaskOrdered(s, i);
    if n < |log| { NextMissing(s, i); }
    assert n == |log| && !Ended(st.seenEvents);
    PrefixToTerminal(log, n);
    assert Ids(st.seenEvents) == Ids(log[..n]);
  }

  // ---------------------------------------------------------------- serial writers

  /** A writer persists its next event only when the run has nothing left to publish. */
  ghost predicate Serial(s: System, step: Step) {
    step.Persist? ==> Quiescent(s, step.event.runId)
  }

  ghost predicate SerialRun(s: System, steps: seq<Step>)
    decreases |steps|
  {
    steps != [] ==>
      Serial(s, steps[0]) && Enabled(s, steps[0]) && SerialRun(Apply(s, steps[0]), steps[1..])
  }

  ghost predicate OnePending(s: System) {
    forall r, j, k :: Ref(r, j) in s.pending && Ref(r, k) in s.pending ==> j == k
  }

  /** Serial writers publish in order, so every theorem above holds of them. */
  lemma {:induction false} SerialIsOrdered(s: System, steps: seq<Step>)
    requires SerialRun(s, steps) && OnePending(s)
    ensures OrderedRun(s, steps)
    decreases |steps|
  {
    if steps != [] {
      SerialIsOrdered(Apply(s, steps[0]), steps[1..]);
    }
  }

  // ---------------------------------------------------------------- without the order

  /**
   On an open live stream that holds a prefix of its log, delivering event `k` of the
   log keeps a prefix exactly if everything before `k` has been received.
   */
  lemma PrefixKeptIff(s: System, i: nat)
    requires Inv(s) && s.pass.Delivering? && s.pass.remaining != [] && s.pass.remaining[0] == i
    requires i < |s.tasks| && s.tasks[i].stage.Finished? && !s.tasks[i].st.closed
    requires Ids(Received(s.tasks[i].st.frames)) <= Ids(s.Log(s.tasks[i].st.runId))
    ensures var s' := Apply(s, DeliverNext);
      Ids(Received(s'.tasks[i].st.frames)) <= Ids(s'.Log(s'.tasks[i].st.runId))
      <==> s.pass.index <= |Received(s.tasks[i].st.frames)|
  {
    var s' := Apply(s, DeliverNext);
    var st, log := s.tasks[i].st, s.Log(s.tasks[i].st.runId);
    StepInv(s, DeliverNext);
    assert TaskOk(s, i) && TaskOk(s', i) && i in s.pass.remaining;
    ReceivedIsSeen(st);
    ReceivedIsSeen(s'.tasks[i].st);
    EmitPrefixIff(st, s.pass.event, log, s.pass.index);
    EmitEventFields(st, s.pass.event);
    assert s'.Log(st.runId) == log;
  }

  lemma EmitPrefixIff(st: Stream, e: Event, log: seq<Event>, k: nat)
    requires StreamOk(st) && !st.closed && DistinctIds(log) && Ids(st.seenEvents) <= Ids(log)
    requires k < |log| && e.id == log[k].id
    ensures Ids(st.EmitEvent(e).0.seenEvents) <= Ids(log) <==> k <= |st.seenEvents|
  {
    var st' := st.EmitEvent(e).0;
    WindowIsPrefix(st.seenEvents, log);
    WindowIsPrefix(st'.seenEvents, log);
    EmitEventFields(st, e);
    EmittedAt(st, log, k);
    if k > |st.seenEvents| {
      assert st'.seenEvents[|st.seenEvents|].id == log[k].id != log[|st.seenEvents|].id;
    }
  }

  lemma {:induction false} RunsAppend(s: System, a: seq<Step>, b: seq<Step>)
    requires Runs(s, a) && Runs(Final(s, a), b)
    ensures Runs(s, a + b) && Final(s, a + b) == Final(Final(s, a), b)
    decreases |a|
  {
    if a == [] {
      assert a + b == b;
    } else {
      assert (a + b)[1..] == a[1..] + b;
      RunsAppend(Apply(s, a[0]), a[1..], b);
    }
  }

  /** A run of one step. */
  lemma OneStep(s: System, step: Step, s': System)
    requires Enabled(s, step) && Apply(s, step) == s'
    ensures Runs(s, [step]) && Final(s, [step]) == s'
  {
    assert Runs(s', [step][1..]);
  }

  /** A live stream of a run with two persisted events, the second one terminal, and nothing published. */
  function TwoPending(redact: Event -> Event, e0: Event, e1: Event): System {
    System(redact, map["run" := [e0, e1]], {e0.id, e1.id}, {Ref("run", 0), Ref("run", 1)},
           map["run" := [0]], Idle,
           [Task(Finished, NewStream("run").(replaying := false, heartbeat := true))])
  }

  /** One stream of the run is live and nothing has been written. */
  ghost function LiveAlone(s0: System): System {
    s0.(listeners := map["run" := [0]],
        tasks := [Task(Finished, NewStream("run").(replaying := false, heartbeat := true))])
  }

  lemma ReachLiveAlone(s0: System) returns (steps: seq<Step>)
    requires Init(s0)
    ensures Runs(s0, steps) && Final(s0, steps) == LiveAlone(s0)
  {
    var st := NewStream("run");
    var s1 := s0.(listeners := map["run" := [0]], tasks := [Task(Reading, st)]);
    var s2 := s1.(tasks := [Task(HasSnapshot([]), st)]);
    var none: seq<nat> := [];
    assert none + [0] == [0];
    assert Subscribe<nat>(s0.listeners, "run", 0) == map["run" := [0]];
    assert Apply(s0, Open("run")).tasks == [Task(Reading, st)];
    OneStep(s0, Open("run"), s1);
    OneStep(s1, ReadSnapshot(0), s2);
    OneStep(s2, ResumeStream(0), LiveAlone(s0));
    RunsAppend(s0, [Open("run")], [ReadSnapshot(0)]);
    steps := [Open("run")] + [ReadSnapshot(0)];
    RunsAppend(s0, steps, [ResumeStream(0)]);
    steps := steps + [ResumeStream(0)];
  }

  lemma ReachTwoPending(s0: System, e0: Event, e1: Event) returns (steps: seq<Step>)
    requires Init(s0) && e0.runId == e1.runId == "run" && e0.id != e1.id
    ensures Runs(s0, steps) && Final(s0, steps) == TwoPending(s0.redact, e0, e1)
  {
    steps := ReachLiveAlone(s0);
    var s3 := LiveAlone(s0);
    var s4 := s3.(logs := map["run" := [e0]], ids := {e0.id}, pending := {Ref("run", 0)});
    assert s3.Log("run") + [e0] == [e0] && [e0] + [e1] == [e0, e1];
    assert s3.logs["run" := s3.Log("run") + [e0]] == map["run" := [e0]];
    assert s3.pending + {Ref("run", 0)} == {Ref("run", 0)} && s3.ids + {e0.id} == {e0.id};
    OneStep(s3, Persist(e0), s4);
    assert s4.logs["run" := [e0] + [e1]] == map["run" := [e0, e1]];
    assert s4.pending + {Ref("run", 1)} == {Ref("run", 0), Ref("run", 1)} && s4.ids + {e1.id} == {e0.id, e1.id};
    OneStep(s4, Persist(e1), TwoPending(s0.redact, e0, e1));
    RunsAppend(s3, [Persist(e0)], [Persist(e1)]);
    RunsAppend(s0, steps, [Persist(e0)] + [Persist(e1)]);
    steps := steps + ([Persist(e0)] + [Persist(e1)]);
  }

  /**
   Two writers of one run can publish out of order: the client is told that the run
   is done, and the event persisted first never reaches it.
   */
  lemma OutOfOrderLosesEvent(s0: System) returns (steps: seq<Step>)
    requires Init(s0)
    ensures Runs(s0, steps)
    ensures var s := Final(s0, steps);
      && |s.tasks| == 1 && s.tasks[0].st.runId == "run" && s.tasks[0].stage.Finished?
      && Ref("run", 0) in s.pending && EndedByDone(s.tasks[0].st)
      && |s.Log("run")| == 2
      && !(Ids(Received(s.tasks[0].st.frames)) <= Ids(s.Log("run")))
  {
    var e0 := Event("a", "run", Executing, "", false);
    var e1 := Event("b", "run", Done, "", false);
    steps := ReachTwoPending(s0, e0, e1);
    var s1 := TwoPending(s0.redact, e0, e1);
    var s3 := PublishSecond(s0.redact, e0, e1);
    RunsAppend(s0, steps, [StartPublish(Ref("run", 1))] + [DeliverNext]);
    steps := steps + ([StartPublish(Ref("run", 1))] + [DeliverNext]);
    InitInv(s0);
    RunInv(s0, steps);
    assert TaskOk(s3, 0);
    ReceivedIsSeen(s3.tasks[0].st);
    assert Ids(s3.tasks[0].st.seenEvents)[0] != Ids(s3.Log("run"))[0];
  }

  /** Publishing the second, terminal event first ends the stream with that event alone. */
  lemma PublishSecond(redact: Event -> Event, e0: Event, e1: Event) returns (s3: System)
    requires KeepsIdentity(redact) && e0.runId == e1.runId == "run" && IsTerminal(e1.phase)
    ensures var s1, steps := TwoPending(redact, e0, e1), [StartPublish(Ref("run", 1))] + [DeliverNext];
      Runs(s1, steps) && Final(s1, steps) == s3
    ensures |s3.tasks| == 1 && s3.tasks[0].st.runId == "run" && s3.tasks[0].stage.Finished?
    ensures Ref("run", 0) in s3.pending && EndedByDone(s3.tasks[0].st)
    ensures s3.Log("run") == [e0, e1] && s3.tasks[0].st.seenEvents == [redact(e1)]
  {
    var s1 := TwoPending(redact, e0, e1);
    var s2 := Apply(s1, StartPublish(Ref("run", 1)));
    s3 := Apply(s2, DeliverNext);
    OneStep(s1, StartPublish(Ref("run", 1)), s2);
    OneStep(s2, DeliverNext, s3);
    RunsAppend(s1, [StartPublish(Ref("run", 1))], [DeliverNext]);
    EmitEventFields(s1.tasks[0].st, redact(e1));
  }
}
