/**
 Exactly when every client holds a prefix of its log: if and only if no delivery to a live
 stream and no flush of a buffer skips an event of the log.
 */
module RunProtocolPrefix {
  import opened Wrappers
  import opened RunProtocol
  import opened RunProtocolSafety
  import opened RunProtocolOrder

  /** The position of an id in the log, or the length. */
  function PositionOf(log: seq<Event>, id: string): (k: nat)
    ensures k <= |log| && (k < |log| ==> log[k].id == id) && forall j :: 0 <= j < k ==> log[j].id != id
  {
    if log == [] then 0
    else if log[0].id == id then 0
    else 1 + PositionOf(log[1..], id)
  }

  /**
   Emitting `es` to a stream that holds the first `n` events of the log never skips one:
   each event is held already or is the next one, up to a terminal event.
   */
  predicate NoGap(n: nat, es: seq<Event>, log: seq<Event>)
    decreases |es|
  {
    if es == [] then true
    else
      var k := PositionOf(log, es[0].id);
      if k < n then NoGap(n, es[1..], log)
      else k == n && (IsTerminal(es[0].phase) || NoGap(n + 1, es[1..], log))
  }

  ghost predicate IsPrefix(seen: seq<Event>, log: seq<Event>) {
    Ids(seen) <= Ids(log)
  }

  ghost predicate AllFromLog(es: seq<Event>, log: seq<Event>) {
    forall e :: e in es ==> PositionOf(log, e.id) < |log|
  }

  // ---------------------------------------------------------------- one stream

  lemma ShorterIsPrefix(a: seq<Event>, b: seq<Event>, log: seq<Event>)
    requires a <= b && IsPrefix(b, log)
    ensures IsPrefix(a, log)
  {
    assert Ids(a) == Ids(b)[..|a|];
  }

  lemma {:induction false} EmitAllGrows(st: Stream, es: seq<Event>)
    ensures st.seenEvents <= st.EmitAll(es).0.seenEvents
    decreases |es|
  {
    if es != [] && !st.closed {
      EmitEventFields(st, es[0]);
      var (s, terminal) := st.EmitEvent(es[0]);
      if !terminal {
        EmitAllGrows(s, es[1..]);
      }
    }
  }

  /** One event: held already, the next one, or a gap. */
  lemma EmitOneIff(st: Stream, e: Event, log: seq<Event>)
    requires StreamOk(st) && !st.closed && DistinctIds(log) && IsPrefix(st.seenEvents, log)
    requires PositionOf(log, e.id) < |log|
    ensures var k, n, st' := PositionOf(log, e.id), |st.seenEvents|, st.EmitEvent(e).0;
      && (IsPrefix(st'.seenEvents, log) <==> k <= n)
      && (k < n ==> st' == st && !st.EmitEvent(e).1)
      && (k >= n ==> |st'.seenEvents| == n + 1 && st.EmitEvent(e).1 == IsTerminal(e.phase))
  {
    var k := PositionOf(log, e.id);
    EmitPrefixIff(st, e, log, k);
    EmitEventFields(st, e);
    WindowIsPrefix(st.seenEvents, log);
    EmittedAt(st, log, k);
  }

  /** A run of events keeps a prefix exactly if it has no gap. */
  lemma {:induction false} EmitAllPrefixIff(st: Stream, es: seq<Event>, log: seq<Event>)
    requires StreamOk(st) && !st.closed && DistinctIds(log) && IsPrefix(st.seenEvents, log) && AllFromLog(es, log)
    ensures IsPrefix(st.EmitAll(es).0.seenEvents, log) <==> NoGap(|st.seenEvents|, es, log)
    decreases |es|
  {
    if es != [] {
      assert es[0] in es;
      EmitOneIff(st, es[0], log);
      EmitEventOk(st, es[0]);
      EmitEventFields(st, es[0]);
      var (s, terminal) := st.EmitEvent(es[0]);
      if !terminal {
        assert AllFromLog(es[1..], log);
        EmitAllGrows(s, es[1..]);
        if IsPrefix(s.seenEvents, log) {
          EmitAllPrefixIff(s, es[1..], log);
        } else if IsPrefix(st.EmitAll(es).0.seenEvents, log) {
          ShorterIsPrefix(s.seenEvents, st.EmitAll(es).0.seenEvents, log);
        }
      }
    }
  }

  // ---------------------------------------------------------------- resuming

  predicate HasTerminal(es: seq<Event>) {
    exists e :: e in es && IsTerminal(e.phase)
  }

  /** The snapshot ends the stream, or what was buffered goes on without a gap. */
  predicate FlushHasNoGap(persisted: seq<Event>, buffer: seq<Event>, log: seq<Event>) {
    HasTerminal(persisted) || NoGap(|persisted|, buffer, log)
  }

  /** Replaying a prefix of the log to a fresh stream gives that prefix, unless a terminal event comes first. */
  lemma {:induction false} ReplayIs(st: Stream, done: seq<Event>, es: seq<Event>)
    requires StreamOk(st) && !st.closed && DistinctIds(done + es) && st.seenEvents == done
    ensures var (s, returned) := st.EmitAll(es);
      && (returned <==> HasTerminal(es))
      && s.seenEvents <= done + es
      && (!returned ==> s.seenEvents == done + es)
    decreases |es|
  {
    if es == [] {
      assert done + es == done;
    } else {
      var e, rest := es[0], es[1..];
      var all := done + es;
      assert all[|done|] == e;
      forall x | x in done ensures x.id != e.id {
        var i :| 0 <= i < |done| && done[i] == x;
        assert all[i].id != all[|done|].id;
      }
      EmitEventFields(st, e);
      EmitEventOk(st, e);
      assert all == (done + [e]) + rest;
      assert es == [e] + rest;
      if !IsTerminal(e.phase) {
        ReplayIs(st.EmitEvent(e).0, done + [e], rest);
      }
    }
  }

  /** What a resumed stream has seen: the replay, and after it the flush. */
  lemma ResumeSeen(st: Stream, persisted: seq<Event>)
    ensures var (s, returned) := st.EmitAll(persisted);
      st.Resume(persisted).seenEvents ==
        if returned then s.seenEvents else s.(replaying := false, liveBuffer := []).EmitAll(s.liveBuffer).0.seenEvents
  {}

  /** Flushing a buffer to a stream that holds the snapshot. */
  lemma FlushPrefixIff(s: Stream, persisted: seq<Event>, buffer: seq<Event>, log: seq<Event>)
    requires StreamOk(s) && !s.closed && s.seenEvents == persisted && DistinctIds(log) && persisted <= log
    requires AllFromLog(buffer, log)
    ensures IsPrefix(s.(replaying := false, liveBuffer := []).EmitAll(buffer).0.seenEvents, log) <==>
            NoGap(|persisted|, buffer, log)
  {
    LogPrefix(persisted, log);
    EmitAllPrefixIff(s.(replaying := false, liveBuffer := []), buffer, log);
  }

  /** Resuming keeps a prefix exactly if the flush has no gap. */
  lemma ResumePrefixIff(st: Stream, persisted: seq<Event>, log: seq<Event>)
    requires StreamOk(st) && !st.closed && st.seenEvents == [] && DistinctIds(log) && persisted <= log
    requires AllFromLog(st.liveBuffer, log)
    ensures IsPrefix(st.Resume(persisted).seenEvents, log) <==> FlushHasNoGap(persisted, st.liveBuffer, log)
  {
    var none: seq<Event> := [];
    assert none + persisted == persisted;
    ReplayIs(st, [], persisted);
    ResumeSeen(st, persisted);
    var (s, returned) := st.EmitAll(persisted);
    if returned {
      LogPrefix(persisted, log);
      ShorterIsPrefix(s.seenEvents, persisted, log);
    } else {
      EmitAllOk(st, persisted);
      EmitAllFields(st, persisted);
      FlushPrefixIff(s, persisted, st.liveBuffer, log);
    }
  }

  lemma LogPrefix(persisted: seq<Event>, log: seq<Event>)
    requires persisted <= log
    ensures IsPrefix(persisted, log)
  {
    assert Ids(persisted) == Ids(log)[..|persisted|];
  }

  // ---------------------------------------------------------------- the system

  /** What client `i` has received is a prefix of the log of its run. */
  ghost predicate HoldsPrefix(s: System, i: nat)
    requires i < |s.tasks|
  {
    IsPrefix(Received(s.tasks[i].st.frames), s.Log(s.tasks[i].st.runId))
  }

  ghost predicate AllHoldPrefix(s: System) {
    forall i: nat :: i < |s.tasks| ==> HoldsPrefix(s, i)
  }

  /** The step skips no event: not when it delivers to a live stream, and not when it flushes a buffer. */
  predicate SkipsNothing(s: System, step: Step)
    requires Enabled(s, step)
  {
    match step
    case DeliverNext =>
      s.pass.remaining != [] ==>
        var t := s.tasks[s.pass.remaining[0]];
        t.stage.Finished? && !t.st.closed ==> s.pass.index <= |t.st.seenEvents|
    case ResumeStream(i) =>
      var t := s.tasks[i];
      !t.st.closed ==> FlushHasNoGap(t.stage.persisted, t.st.liveBuffer, s.Log(t.st.runId))
    case _ => true
  }

  lemma HoldsIsSeen(s: System, i: nat)
    requires Inv(s) && i < |s.tasks|
    ensures HoldsPrefix(s, i) <==> IsPrefix(s.tasks[i].st.seenEvents, s.Log(s.tasks[i].st.runId))
  {
    assert TaskOk(s, i);
    ReceivedIsSeen(s.tasks[i].st);
  }

  /** A stream that a step leaves alone, while its log can only grow. */
  lemma PrefixUntouched(s: System, s': System, i: nat)
    requires Inv(s) && Inv(s') && i < |s.tasks| && i < |s'.tasks| && s'.tasks[i].st.runId == s.tasks[i].st.runId
    requires s'.tasks[i].st.seenEvents == s.tasks[i].st.seenEvents
    requires s.Log(s.tasks[i].st.runId) <= s'.Log(s.tasks[i].st.runId) && HoldsPrefix(s, i)
    ensures HoldsPrefix(s', i)
  {
    HoldsIsSeen(s, i);
    HoldsIsSeen(s', i);
    var log, log' := s.Log(s.tasks[i].st.runId), s'.Log(s.tasks[i].st.runId);
    assert Ids(log) == Ids(log')[..|log|];
  }

  lemma ProvenanceIsLog(log: seq<Event>, redact: Event -> Event, es: seq<Event>)
    requires KeepsIdentity(redact) && forall e :: e in es ==> FromLog(log, redact, e)
    ensures AllFromLog(es, log)
  {
    forall e | e in es ensures PositionOf(log, e.id) < |log| {
      var k :| 0 <= k < |log| && (e == log[k] || e == redact(log[k]));
      assert log[k].id == e.id;
    }
  }

  lemma DeliverPrefixIff(s: System)
    requires Inv(s) && AllHoldPrefix(s) && Enabled(s, DeliverNext) && s.pass.remaining != []
    ensures HoldsPrefix(Apply(s, DeliverNext), s.pass.remaining[0]) <==> SkipsNothing(s, DeliverNext)
  {
    var i := s.pass.remaining[0];
    var s' := Apply(s, DeliverNext);
    StepInv(s, DeliverNext);
    assert i in s.pass.remaining && HoldsPrefix(s, i) && TaskOk(s, i);
    if s.tasks[i].stage.Finished? && !s.tasks[i].st.closed {
      PrefixKeptIff(s, i);
      ReceivedIsSeen(s.tasks[i].st);
    } else {
      PrefixUntouched(s, s', i);
    }
  }

  lemma ResumeStepPrefixIff(s: System, i: nat)
    requires Inv(s) && AllHoldPrefix(s) && Enabled(s, ResumeStream(i))
    ensures HoldsPrefix(Apply(s, ResumeStream(i)), i) <==> SkipsNothing(s, ResumeStream(i))
  {
    var s' := Apply(s, ResumeStream(i));
    StepInv(s, ResumeStream(i));
    assert TaskOk(s, i) && HoldsPrefix(s, i);
    var t, log := s.tasks[i], s.Log(s.tasks[i].st.runId);
    ResumeOk(t.st, t.stage.persisted);
    HoldsIsSeen(s', i);
    assert s'.Log(t.st.runId) == log;
    if t.st.closed {
      PrefixUntouched(s, s', i);
    } else {
      ProvenanceIsLog(log, s.redact, t.st.liveBuffer);
      ResumePrefixIff(t.st, t.stage.persisted, log);
    }
  }

  /** Replacing one stream by one that has seen the same leaves what all have seen. */
  lemma UpdateKeepsSeen(s: System, i: nat, stage: Stage, st: Stream, j: nat)
    requires i < |s.tasks| && j < |s.tasks| && (j == i ==> st.seenEvents == s.tasks[i].st.seenEvents && st.runId == s.tasks[i].st.runId)
    ensures var s' := s.Update(i, stage, st);
      && |s'.tasks| == |s.tasks| && s'.logs == s.logs
      && s'.tasks[j].st.seenEvents == s.tasks[j].st.seenEvents && s'.tasks[j].st.runId == s.tasks[j].st.runId
  {}

  lemma LogGrows(s: System, e: Event, r: string)
    ensures s.Log(r) <= Apply(s, Persist(e)).Log(r)
  {}

  /** The stream that the step delivers to or resumes. */
  predicate Touches(s: System, step: Step, j: nat) {
    || (step.DeliverNext? && s.pass.Delivering? && s.pass.remaining != [] && j == s.pass.remaining[0])
    || (step.ResumeStream? && j == step.sid)
  }

  /** Every other stream is left alone. */
  lemma OthersUntouched(s: System, step: Step, j: nat)
    requires Enabled(s, step) && j < |s.tasks| && !Touches(s, step, j)
    ensures var s' := Apply(s, step);
      && j < |s'.tasks| && s'.tasks[j].st.runId == s.tasks[j].st.runId
      && s'.tasks[j].st.seenEvents == s.tasks[j].st.seenEvents
      && s.Log(s.tasks[j].st.runId) <= s'.Log(s.tasks[j].st.runId)
  {
    match step
    case Persist(e) => LogGrows(s, e, s.tasks[j].st.runId);
    case StartPublish(ref) =>
    case DeliverNext =>
      if s.pass.remaining != [] {
        var i := s.pass.remaining[0];
        UpdateKeepsSeen(s, i, s.tasks[i].stage, s.tasks[i].st.Deliver(s.pass.event), j);
      }
    case Open(r) =>
    case ReadSnapshot(i) => UpdateKeepsSeen(s, i, HasSnapshot(s.Log(s.tasks[i].st.runId)), s.tasks[i].st, j);
    case ReadFails(i) => UpdateKeepsSeen(s, i, Finished, s.tasks[i].st.Teardown(None), j);
    case ResumeStream(i) => UpdateKeepsSeen(s, i, Finished, s.tasks[i].st.Resume(s.tasks[i].stage.persisted), j);
    case ClientClose(i) => UpdateKeepsSeen(s, i, s.tasks[i].stage, s.tasks[i].st.Teardown(None), j);
    case HeartbeatTick(i) => UpdateKeepsSeen(s, i, s.tasks[i].stage, s.tasks[i].st.Tick(), j);
  }

  lemma OthersHold(s: System, step: Step)
    requires Inv(s) && AllHoldPrefix(s) && Enabled(s, step)
    ensures forall j: nat :: j < |s.tasks| && !Touches(s, step, j) ==>
              j < |Apply(s, step).tasks| && HoldsPrefix(Apply(s, step), j)
  {
    StepInv(s, step);
    forall j: nat | j < |s.tasks| && !Touches(s, step, j)
      ensures j < |Apply(s, step).tasks| && HoldsPrefix(Apply(s, step), j)
    {
      OthersUntouched(s, step, j);
      PrefixUntouched(s, Apply(s, step), j);
    }
  }

  lemma TaskCount(s: System, step: Step)
    requires Enabled(s, step)
    ensures |Apply(s, step).tasks| == |s.tasks| + if step.Open? then 1 else 0
  {}

  lemma NewStreamHoldsPrefix(s: System, r: string)
    requires Inv(s)
    ensures HoldsPrefix(Apply(s, Open(r)), |s.tasks|)
  {
    StepInv(s, Open(r));
    HoldsIsSeen(Apply(s, Open(r)), |s.tasks|);
  }

  /** A step keeps every client at a prefix exactly if it skips nothing. */
  lemma StepPrefixIff(s: System, step: Step)
    requires Inv(s) && AllHoldPrefix(s) && Enabled(s, step)
    ensures AllHoldPrefix(Apply(s, step)) <==> SkipsNothing(s, step)
  {
    OthersHold(s, step);
    TaskCount(s, step);
    match step
    case DeliverNext => if s.pass.remaining != [] { DeliverPrefixIff(s); }
    case ResumeStream(i) => ResumeStepPrefixIff(s, i);
    case Open(r) => NewStreamHoldsPrefix(s, r);
    case _ =>
  }

  // ---------------------------------------------------------------- over whole runs

  /** At every moment of the run every client holds a prefix. */
  ghost predicate AlwaysPrefix(s: System, steps: seq<Step>)
    requires Runs(s, steps)
    decreases |steps|
  {
    AllHoldPrefix(s) && (steps != [] ==> AlwaysPrefix(Apply(s, steps[0]), steps[1..]))
  }

  predicate NeverSkips(s: System, steps: seq<Step>)
    requires Runs(s, steps)
    decreases |steps|
  {
    steps != [] ==> SkipsNothing(s, steps[0]) && NeverSkips(Apply(s, steps[0]), steps[1..])
  }

  lemma {:induction false} PrefixIff(s: System, steps: seq<Step>)
    requires Inv(s) && AllHoldPrefix(s) && Runs(s, steps)
    ensures AlwaysPrefix(s, steps) <==> NeverSkips(s, steps)
    decreases |steps|
  {
    if steps != [] {
      StepPrefixIff(s, steps[0]);
      StepInv(s, steps[0]);
      if AllHoldPrefix(Apply(s, steps[0])) {
        PrefixIff(Apply(s, steps[0]), steps[1..]);
      }
    }
  }

  /**
   In every run: every client holds a prefix of its log at every moment, if and only if
   no delivery to a live stream and no flush of a buffer skips an event.
   */
  lemma AlwaysPrefixIff(s0: System, steps: seq<Step>)
    requires Init(s0) && Runs(s0, steps)
    ensures AlwaysPrefix(s0, steps) <==> NeverSkips(s0, steps)
  {
    InitInv(s0);
    PrefixIff(s0, steps);
  }

  /** Two events buffered out of order are flushed out of order. */
  lemma FlushOutOfOrder(e0: Event, e1: Event)
    requires e0.id != e1.id && !IsTerminal(e1.phase)
    ensures var st := NewStream("run").(liveBuffer := [e1, e0]);
      st.Resume([]).seenEvents == [e1, e0] && !IsPrefix(st.Resume([]).seenEvents, [e0, e1])
  {
    var st := NewStream("run").(liveBuffer := [e1, e0]);
    var live := st.(replaying := false, liveBuffer := []);
    var one := live.EmitEvent(e1).0;
    EmitEventFields(live, e1);
    EmitEventFields(one, e0);
    assert [e1, e0][1..] == [e0] && [e0][1..] == [];
    var two := one.EmitEvent(e0).0;
    assert two.EmitAll([]) == (two, false);
    assert one.EmitAll([e0]).0 == two;
    assert live.EmitAll([e1, e0]) == one.EmitAll([e0]);
    assert live.seenEvents + [e1] == [e1] && one.seenEvents + [e0] == [e1, e0];
    ResumeSeen(st, []);
    assert st.EmitAll([]) == (st, false);
    assert Ids([e1, e0])[0] != Ids([e0, e1])[0];
  }

  // ---------------------------------------------------------------- a run that flushes out of order

  /** Two persisted events of a run; its one stream has read an empty snapshot and buffered some events. */
  function Buffered(redact: Event -> Event, e0: Event, e1: Event, pending: set<Ref>, buffer: seq<Event>): System {
    System(redact, map["run" := [e0, e1]], {e0.id, e1.id}, pending, map["run" := [0]], Idle,
           [Task(HasSnapshot([]), NewStream("run").(liveBuffer := buffer))])
  }

  /** Publishing one of the events puts it into the buffer. */
  lemma PublishBuffers(redact: Event -> Event, e0: Event, e1: Event, pending: set<Ref>, buffer: seq<Event>, k: nat)
    requires k < 2 && Ref("run", k) in pending
    ensures var s, steps := Buffered(redact, e0, e1, pending, buffer), [StartPublish(Ref("run", k))] + [DeliverNext] + [DeliverNext];
      && Runs(s, steps)
      && Final(s, steps) == Buffered(redact, e0, e1, pending - {Ref("run", k)}, buffer + [redact([e0, e1][k])])
  {
    var e := redact([e0, e1][k]);
    var s := Buffered(redact, e0, e1, pending, buffer);
    var done := Buffered(redact, e0, e1, pending - {Ref("run", k)}, buffer + [e]);
    var begun := s.(pending := pending - {Ref("run", k)}, pass := Delivering("run", k, e, [0]));
    var sent := done.(pass := Delivering("run", k, e, []));
    OneStep(s, StartPublish(Ref("run", k)), begun);
    assert [0][1..] == [];
    assert s.tasks[0].st.Deliver(e) == NewStream("run").(liveBuffer := buffer + [e]);
    assert Apply(begun, DeliverNext).tasks == sent.tasks;
    OneStep(begun, DeliverNext, sent);
    OneStep(sent, DeliverNext, done);
    RunsAppend(s, [StartPublish(Ref("run", k))], [DeliverNext]);
    RunsAppend(s, [StartPublish(Ref("run", k))] + [DeliverNext], [DeliverNext]);
  }

  /** A stream opens and reads while the run has no event. */
  lemma ReachEmptySnapshot(s0: System) returns (steps: seq<Step>)
    requires Init(s0)
    ensures Runs(s0, steps)
    ensures Final(s0, steps) == s0.(listeners := map["run" := [0]], tasks := [Task(HasSnapshot([]), NewStream("run"))])
  {
    var st := NewStream("run");
    var s1 := s0.(listeners := map["run" := [0]], tasks := [Task(Reading, st)]);
    var s2 := s1.(tasks := [Task(HasSnapshot([]), st)]);
    var none: seq<nat> := [];
    assert none + [0] == [0];
    assert Subscribe<nat>(s0.listeners, "run", 0) == map["run" := [0]];
    assert Apply(s0, Open("run")).tasks == [Task(Reading, st)];
    OneStep(s0, Open("run"), s1);
    OneStep(s1, ReadSnapshot(0), s2);
    RunsAppend(s0, [Open("run")], [ReadSnapshot(0)]);
    steps := [Open("run")] + [ReadSnapshot(0)];
  }

  /** Then two events are persisted, and nothing is published. */
  lemma ReachBuffering(s0: System, e0: Event, e1: Event) returns (steps: seq<Step>)
    requires Init(s0) && e0.runId == e1.runId == "run" && e0.id != e1.id
    ensures Runs(s0, steps) && Final(s0, steps) == Buffered(s0.redact, e0, e1, {Ref("run", 0), Ref("run", 1)}, [])
  {
    steps := ReachEmptySnapshot(s0);
    var s2 := Final(s0, steps);
    var s3 := s2.(logs := map["run" := [e0]], ids := {e0.id}, pending := {Ref("run", 0)});
    var s4 := Buffered(s0.redact, e0, e1, {Ref("run", 0), Ref("run", 1)}, []);
    assert s2.Log("run") + [e0] == [e0] && [e0] + [e1] == [e0, e1];
    assert s2.logs["run" := s2.Log("run") + [e0]] == map["run" := [e0]];
    assert s2.pending + {Ref("run", 0)} == {Ref("run", 0)} && s2.ids + {e0.id} == {e0.id};
    OneStep(s2, Persist(e0), s3);
    assert s3.logs["run" := [e0] + [e1]] == map["run" := [e0, e1]];
    assert s3.pending + {Ref("run", 1)} == {Ref("run", 0), Ref("run", 1)} && s3.ids + {e1.id} == {e0.id, e1.id};
    OneStep(s3, Persist(e1), s4);
    RunsAppend(s2, [Persist(e0)], [Persist(e1)]);
    RunsAppend(s0, steps, [Persist(e0)] + [Persist(e1)]);
    steps := steps + ([Persist(e0)] + [Persist(e1)]);
  }

  /** Both are published in the wrong order while the stream still replays. */
  lemma ReachWrongBuffer(s0: System, e0: Event, e1: Event) returns (steps: seq<Step>)
    requires Init(s0) && e0.runId == e1.runId == "run" && e0.id != e1.id
    ensures Runs(s0, steps) && Final(s0, steps) == Buffered(s0.redact, e0, e1, {}, [s0.redact(e1), s0.redact(e0)])
  {
    steps := ReachBuffering(s0, e0, e1);
    var both := {Ref("run", 0), Ref("run", 1)};
    PublishBuffers(s0.redact, e0, e1, both, [], 1);
    var none: seq<Event> := [];
    assert none + [s0.redact(e1)] == [s0.redact(e1)];
    assert both - {Ref("run", 1)} == {Ref("run", 0)} && {Ref("run", 0)} - {Ref("run", 0)} == {};
    PublishBuffers(s0.redact, e0, e1, {Ref("run", 0)}, [s0.redact(e1)], 0);
    assert [s0.redact(e1)] + [s0.redact(e0)] == [s0.redact(e1), s0.redact(e0)];
    var first := [StartPublish(Ref("run", 1))] + [DeliverNext] + [DeliverNext];
    var second := [StartPublish(Ref("run", 0))] + [DeliverNext] + [DeliverNext];
    RunsAppend(s0, steps, first);
    RunsAppend(s0, steps + first, second);
    steps := steps + first + second;
  }

  lemma ResumeRunId(st: Stream, persisted: seq<Event>)
    ensures st.Resume(persisted).runId == st.runId
  {
    var s := st.EmitAll(persisted).0;
    EmitAllFields(st, persisted);
    EmitAllFields(s.(replaying := false, liveBuffer := []), s.liveBuffer);
  }

  /** Flushing the two events in the wrong order. */
  lemma FlushBuffered(redact: Event -> Event, e0: Event, e1: Event)
    requires e0.id != e1.id && e0.id == redact(e0).id && e1.id == redact(e1).id && !IsTerminal(redact(e1).phase)
    ensures var s := Apply(Buffered(redact, e0, e1, {}, [redact(e1), redact(e0)]), ResumeStream(0));
      && |s.tasks| == 1 && s.tasks[0].stage == Finished && s.tasks[0].st.runId == "run" && s.Log("run") == [e0, e1]
      && s.tasks[0].st.seenEvents == [redact(e1), redact(e0)]
  {
    FlushOutOfOrder(redact(e0), redact(e1));
    ResumeRunId(NewStream("run").(liveBuffer := [redact(e1), redact(e0)]), []);
  }

  /** A client that received the second event before the first one holds no prefix. */
  lemma SwappedIsNoPrefix(r0: Event, r1: Event, e0: Event, e1: Event)
    requires r1.id != e0.id
    ensures !IsPrefix([r1, r0], [e0, e1])
  {
    assert Ids([r1, r0])[0] != Ids([e0, e1])[0];
  }

  /** A run in which the buffer is flushed out of order: the client gets the second event first. */
  lemma FlushLosesOrder(s0: System, e0: Event, e1: Event) returns (steps: seq<Step>)
    requires Init(s0) && e0.runId == e1.runId == "run" && e0.id != e1.id && !IsTerminal(e1.phase)
    ensures Runs(s0, steps)
    ensures var s := Final(s0, steps);
      && |s.tasks| == 1 && s.tasks[0].stage.Finished? && s.tasks[0].st.runId == "run" && s.Log("run") == [e0, e1]
      && Received(s.tasks[0].st.frames) == [s0.redact(e1), s0.redact(e0)] && !HoldsPrefix(s, 0)
  {
    var before := ReachWrongBuffer(s0, e0, e1);
    var s2 := Apply(Final(s0, before), ResumeStream(0));
    OneStep(Final(s0, before), ResumeStream(0), s2);
    RunsAppend(s0, before, [ResumeStream(0)]);
    steps := before + [ResumeStream(0)];
    FlushBuffered(s0.redact, e0, e1);
    ReachedReceived(s0, steps, 0);
    SwappedIsNoPrefix(s0.redact(e0), s0.redact(e1), e0, e1);
  }

  /** What a client received in a run is what its stream has seen. */
  lemma ReachedReceived(s0: System, steps: seq<Step>, i: nat)
    requires Init(s0) && Runs(s0, steps) && i < |Final(s0, steps).tasks|
    ensures Received(Final(s0, steps).tasks[i].st.frames) == Final(s0, steps).tasks[i].st.seenEvents
  {
    InitInv(s0);
    RunInv(s0, steps);
    assert TaskOk(Final(s0, steps), i);
    ReceivedIsSeen(Final(s0, steps).tasks[i].st);
  }
}
