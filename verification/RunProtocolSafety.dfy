/**
 Safety of the streaming protocol over every run, whatever the order in which the
 writers publish: exactly-once emission, no omission, and clean teardown.
 */
module RunProtocolSafety {
  import opened Wrappers
  import opened RunProtocol

  // ---------------------------------------------------------------- one stream

  ghost predicate DistinctIds(es: seq<Event>) {
    forall i, j :: 0 <= i < j < |es| ==> es[i].id != es[j].id
  }

  function IdSet(es: seq<Event>): set<string> {
    set e | e in es :: e.id
  }

  /** The frames written for the last of the given events. */
  function FramesFor(seen: seq<Event>): seq<Frame>
    requires seen != []
  {
    var e := seen[|seen| - 1];
    [RunEventFrame(e)]
    + (if e.providerCall then [CostFrame(seen)] else [])
    + (if IsTerminal(e.phase) then [DoneFrame(e.phase)] else [])
  }

  /** The frames that a client must see for a sequence of events, heartbeats aside. */
  function Render(seen: seq<Event>): seq<Frame> {
    if seen == [] then [] else Render(seen[..|seen| - 1]) + FramesFor(seen)
  }

  function Strip(fs: seq<Frame>): seq<Frame> {
    if fs == [] then []
    else
      var rest := Strip(fs[..|fs| - 1]);
      if fs[|fs| - 1].KeepAlive? then rest else rest + [fs[|fs| - 1]]
  }

  /** The events end with a terminal one. */
  predicate Ended(seen: seq<Event>) {
    seen != [] && IsTerminal(seen[|seen| - 1].phase)
  }

  ghost predicate IdsOk(st: Stream) {
    && DistinctIds(st.seenEvents)
    && st.emittedIds == IdSet(st.seenEvents)
    && (forall i :: 0 <= i < |st.seenEvents| - 1 ==> !IsTerminal(st.seenEvents[i].phase))
  }

  ghost predicate FramesOk(st: Stream) {
    && Strip(st.frames) == Render(st.seenEvents)
    && (Ended(st.seenEvents) ==>
          st.closed && st.frames != []
          && st.frames[|st.frames| - 1] == DoneFrame(st.seenEvents[|st.seenEvents| - 1].phase))
    && (forall j :: 0 <= j < |st.frames| && st.frames[j].DoneFrame? ==>
          j == |st.frames| - 1 && Ended(st.seenEvents))
  }

  ghost predicate StreamOk(st: Stream) {
    && IdsOk(st)
    && FramesOk(st)
    && st.ends == (if st.closed then 1 else 0)
    && (st.closed ==> !st.heartbeat)
  }

  lemma {:induction false} StripAppend(fs: seq<Frame>, gs: seq<Frame>)
    ensures Strip(fs + gs) == Strip(fs) + Strip(gs)
  {
    if gs == [] {
      assert fs + gs == fs;
    } else {
      var n := |gs| - 1;
      assert (fs + gs)[..|fs + gs| - 1] == fs + gs[..n];
      StripAppend(fs, gs[..n]);
    }
  }

  lemma {:induction false} StripFramesFor(seen: seq<Event>)
    requires seen != []
    ensures Strip(FramesFor(seen)) == FramesFor(seen)
  {
    var e := seen[|seen| - 1];
    var f1 := [RunEventFrame(e)];
    var f2 := if e.providerCall then [CostFrame(seen)] else [];
    var f3 := if IsTerminal(e.phase) then [DoneFrame(e.phase)] else [];
    StripAppend(f1 + f2, f3);
    StripAppend(f1, f2);
  }

  lemma {:induction false} EmitEventWrites(st: Stream, e: Event)
    requires !st.closed && e.id !in st.emittedIds
    ensures st.EmitEvent(e).0.frames == st.frames + FramesFor(st.seenEvents + [e])
  {}

  /** The frames written for a fresh event are exactly the ones the client must see. */
  lemma {:induction false} EmitEventFrames(st: Stream, e: Event)
    requires Strip(st.frames) == Render(st.seenEvents) && !st.closed && e.id !in st.emittedIds
    ensures Strip(st.EmitEvent(e).0.frames) == Render(st.seenEvents + [e])
  {
    var seen := st.seenEvents + [e];
    EmitEventWrites(st, e);
    StripAppend(st.frames, FramesFor(seen));
    StripFramesFor(seen);
    assert seen[..|seen| - 1] == st.seenEvents;
  }

  lemma {:induction false} EmitEventFields(st: Stream, e: Event)
    ensures var (st', terminal) := st.EmitEvent(e);
      && st'.runId == st.runId && st'.replaying == st.replaying && st'.liveBuffer == st.liveBuffer
      && (st.closed || e.id in st.emittedIds ==> st' == st && !terminal)
      && (!st.closed && e.id !in st.emittedIds ==>
            && st'.emittedIds == st.emittedIds + {e.id}
            && st'.seenEvents == st.seenEvents + [e]
            && terminal == IsTerminal(e.phase)
            && st'.closed == terminal
            && st'.heartbeat == (st.heartbeat && !terminal)
            && st'.ends == st.ends + (if terminal then 1 else 0))
  {}

  lemma EmitEventIds(st: Stream, e: Event)
    requires IdsOk(st) && !Ended(st.seenEvents) && e.id !in st.emittedIds
    ensures var seen := st.seenEvents + [e];
      && DistinctIds(seen) && IdSet(seen) == st.emittedIds + {e.id}
      && forall i :: 0 <= i < |seen| - 1 ==> !IsTerminal(seen[i].phase)
  {
    var seen := st.seenEvents + [e];
    assert forall i :: 0 <= i < |st.seenEvents| ==> st.seenEvents[i] in st.seenEvents;
    assert forall x :: x in seen <==> x in st.seenEvents || x == e;
  }

  /** Only the last frame for an event can say that the run is done, and it does if the event is terminal. */
  lemma FramesForDone(seen: seq<Event>)
    requires seen != []
    ensures var fs := FramesFor(seen);
      && fs != []
      && (forall j :: 0 <= j < |fs| && fs[j].DoneFrame? ==> j == |fs| - 1 && Ended(seen))
      && (Ended(seen) ==> fs[|fs| - 1] == DoneFrame(seen[|seen| - 1].phase))
  {}

  lemma EmitEventFramesOk(st: Stream, e: Event)
    requires FramesOk(st) && !st.closed && e.id !in st.emittedIds
    ensures FramesOk(st.EmitEvent(e).0)
  {
    var seen := st.seenEvents + [e];
    EmitEventFrames(st, e);
    EmitEventWrites(st, e);
    EmitEventFields(st, e);
    FramesForDone(seen);
    var frames := st.frames + FramesFor(seen);
    forall j | 0 <= j < |frames| && frames[j].DoneFrame? ensures j == |frames| - 1 && Ended(seen) {
      assert j >= |st.frames| ==> frames[j] == FramesFor(seen)[j - |st.frames|];
    }
  }

  lemma {:induction false} EmitEventOk(st: Stream, e: Event)
    requires StreamOk(st)
    ensures StreamOk(st.EmitEvent(e).0)
  {
    EmitEventFields(st, e);
    if !st.closed && e.id !in st.emittedIds {
      EmitEventIds(st, e);
      EmitEventFramesOk(st, e);
    }
  }

  lemma TeardownOk(st: Stream)
    requires StreamOk(st)
    ensures StreamOk(st.Teardown(None)) && st.Teardown(None).closed
  {}

  lemma TickOk(st: Stream)
    requires StreamOk(st)
    ensures StreamOk(st.Tick())
  {
    StripAppend(st.frames, [KeepAlive]);
  }

  lemma {:induction false} EmitAllOk(st: Stream, es: seq<Event>)
    requires StreamOk(st)
    ensures StreamOk(st.EmitAll(es).0)
    decreases |es|
  {
    if es != [] && !st.closed {
      EmitEventOk(st, es[0]);
      var (s, terminal) := st.EmitEvent(es[0]);
      if !terminal {
        EmitAllOk(s, es[1..]);
      }
    }
  }

  lemma {:induction false} EmitAllFields(st: Stream, es: seq<Event>)
    ensures var (st', returned) := st.EmitAll(es);
      && st'.runId == st.runId && st'.replaying == st.replaying && st'.liveBuffer == st.liveBuffer
      && (st.closed ==> st' == st)
      && (!st.closed ==> st'.closed == returned)
      && (!st'.closed ==> st'.heartbeat == st.heartbeat)
    decreases |es|
  {
    if es != [] && !st.closed {
      EmitEventFields(st, es[0]);
      var (s, terminal) := st.EmitEvent(es[0]);
      if !terminal {
        EmitAllFields(s, es[1..]);
      }
    }
  }

  /** A replay loop emits only given events, and all of them unless a terminal one closes the stream. */
  lemma {:induction false} EmitAllSeen(st: Stream, es: seq<Event>)
    ensures var st' := st.EmitAll(es).0;
      && (forall e :: e in st'.seenEvents ==> e in st.seenEvents || e in es)
      && st.emittedIds <= st'.emittedIds
      && (!st'.closed ==> forall e :: e in es ==> e.id in st'.emittedIds)
      && (st'.closed && !st.closed ==> Ended(st'.seenEvents))
    decreases |es|
  {
    if es != [] && !st.closed {
      EmitEventFields(st, es[0]);
      var (s, terminal) := st.EmitEvent(es[0]);
      assert forall e :: e in es ==> e == es[0] || e in es[1..];
      if !terminal {
        EmitAllSeen(s, es[1..]);
      }
    }
  }

  /** Resuming the handler: an open stream has emitted the snapshot and the whole buffer. */
  lemma {:induction false} ResumeOk(st: Stream, persisted: seq<Event>)
    requires StreamOk(st) && !st.heartbeat
    ensures var st' := st.Resume(persisted);
      && StreamOk(st')
      && st'.runId == st.runId
      && (forall e :: e in st'.seenEvents ==> e in st.seenEvents || e in persisted || e in st.liveBuffer)
      && (st'.liveBuffer == [] || st'.liveBuffer == st.liveBuffer)
      && (st.closed ==> st'.frames == st.frames && st'.closed && st'.seenEvents == st.seenEvents)
      && (!st'.closed ==>
            && st'.heartbeat && !st'.replaying && st'.liveBuffer == []
            && (forall e :: e in persisted ==> e.id in st'.emittedIds)
            && (forall e :: e in st.liveBuffer ==> e.id in st'.emittedIds))
      && (st'.closed && !st.closed ==> Ended(st'.seenEvents))
  {
    EmitAllOk(st, persisted);
    EmitAllFields(st, persisted);
    EmitAllSeen(st, persisted);
    var (s, returned) := st.EmitAll(persisted);
    if !returned {
      var s' := s.(replaying := false, liveBuffer := []);
      EmitAllOk(s', s.liveBuffer);
      EmitAllFields(s', s.liveBuffer);
      EmitAllSeen(s', s.liveBuffer);
    }
  }

  // ---------------------------------------------------------------- the system

  ghost predicate NoDup<T>(xs: seq<T>) {
    forall i, j :: 0 <= i < j < |xs| ==> xs[i] != xs[j]
  }

  ghost predicate StoreOk(s: System) {
    && KeepsIdentity(s.redact)
    && (forall r :: DistinctIds(s.Log(r)))
    && (forall r, k :: 0 <= k < |s.Log(r)| ==> s.Log(r)[k].runId == r && s.Log(r)[k].id in s.ids)
    && (forall ref :: ref in s.pending ==> ref.index < |s.Log(ref.runId)|)
  }

  ghost predicate PassOk(s: System) {
    s.pass.Delivering? ==>
      && s.pass.index < |s.Log(s.pass.runId)|
      && s.pass.event == s.redact(s.Log(s.pass.runId)[s.pass.index])
      && Ref(s.pass.runId, s.pass.index) !in s.pending
      && NoDup(s.pass.remaining)
      && forall i :: i in s.pass.remaining ==> i < |s.tasks| && s.tasks[i].st.runId == s.pass.runId
  }

  /** A stream is registered exactly while it is open; no empty listener set is kept. */
  ghost predicate RegistryOk(s: System) {
    && (forall r :: r in s.listeners ==> s.listeners[r] != [] && NoDup(s.listeners[r]))
    && (forall r, i: nat {:trigger i in ListenersOf(s.listeners, r)} :: i in ListenersOf(s.listeners, r) ==>
          i < |s.tasks| && s.tasks[i].st.runId == r && !s.tasks[i].st.closed)
    && (forall i: nat :: i < |s.tasks| && !s.tasks[i].st.closed ==>
          i in ListenersOf(s.listeners, s.tasks[i].st.runId))
  }

  /** The event is a persisted event of the run, as persisted or as published. */
  ghost predicate FromLog(log: seq<Event>, redact: Event -> Event, e: Event) {
    exists k :: 0 <= k < |log| && (e == log[k] || e == redact(log[k]))
  }

  ghost predicate InFlight(s: System, i: nat, k: nat) {
    s.pass.Delivering? && s.pass.index == k && i in s.pass.remaining
  }

  ghost predicate StageOk(s: System, t: Task) {
    && (!t.stage.Finished? ==> t.st.replaying && !t.st.heartbeat && (!t.st.closed ==> t.st.seenEvents == []))
    && (t.stage.Finished? && !t.st.closed ==> !t.st.replaying && t.st.heartbeat && t.st.liveBuffer == [])
    && (t.stage.HasSnapshot? ==> t.stage.persisted <= s.Log(t.st.runId))
  }

  ghost predicate Provenance(s: System, t: Task) {
    && (forall e :: e in t.st.seenEvents ==> FromLog(s.Log(t.st.runId), s.redact, e))
    && (forall e :: e in t.st.liveBuffer ==> FromLog(s.Log(t.st.runId), s.redact, e))
  }

  /** Event `k` of the run is not lost to stream `i`. */
  ghost predicate Accounted(s: System, i: nat, k: nat)
    requires i < |s.tasks| && k < |s.Log(s.tasks[i].st.runId)|
  {
    var t := s.tasks[i];
    var e := s.Log(t.st.runId)[k];
    || Ref(t.st.runId, k) in s.pending
    || InFlight(s, i, k)
    || match t.stage
       case Reading => true
       case HasSnapshot(p) => k < |p| || e.id in IdSet(t.st.liveBuffer)
       case Finished => e.id in t.st.emittedIds
  }

  ghost predicate Coverage(s: System, i: nat)
    requires i < |s.tasks|
  {
    !s.tasks[i].st.closed ==>
      forall k: nat :: k < |s.Log(s.tasks[i].st.runId)| ==> Accounted(s, i, k)
  }

  ghost predicate TaskOk(s: System, i: nat)
    requires i < |s.tasks|
  {
    StreamOk(s.tasks[i].st) && StageOk(s, s.tasks[i]) && Provenance(s, s.tasks[i]) && Coverage(s, i)
  }

  ghost predicate Inv(s: System) {
    StoreOk(s) && PassOk(s) && RegistryOk(s) && forall i: nat :: i < |s.tasks| ==> TaskOk(s, i)
  }

  // ---------------------------------------------------------------- every step keeps the invariant

  lemma {:induction false} WithoutNoDup<T>(xs: seq<T>, x: T)
    requires NoDup(xs)
    ensures NoDup(Without(xs, x))
  {
    if xs != [] {
      WithoutNoDup(xs[1..], x);
      var rest := Without(xs[1..], x);
      assert xs[0] !in xs[1..];
      if xs[0] != x {
        var r := [xs[0]] + rest;
        forall i, j | 0 <= i < j < |r| ensures r[i] != r[j] {
          if i == 0 { assert r[j] in rest; }
        }
      }
    }
  }

  lemma {:induction false} UnsubscribeRegistry(m: Listeners, r: string, i: nat)
    requires forall q :: q in m ==> m[q] != [] && NoDup(m[q])
    ensures var m' := Unsubscribe(m, r, i);
      && (forall q :: q in m' ==> m'[q] != [] && NoDup(m'[q]))
      && (forall q, j: nat {:trigger j in ListenersOf(m', q)}{:trigger j in ListenersOf(m, q)} ::
            j in ListenersOf(m', q) <==> j in ListenersOf(m, q) && !(q == r && j == i))
  {
    if r in m {
      WithoutNoDup(m[r], i);
    }
  }

  lemma UpdateRegistry(s: System, i: nat, stage: Stage, st: Stream)
    requires RegistryOk(s) && i < |s.tasks|
    requires st.runId == s.tasks[i].st.runId && (s.tasks[i].st.closed ==> st.closed)
    ensures RegistryOk(s.Update(i, stage, st))
  {
    var s' := s.Update(i, stage, st);
    UnsubscribeRegistry(s.listeners, st.runId, i);
    forall r, j: nat | j in ListenersOf(s'.listeners, r)
      ensures j < |s'.tasks| && s'.tasks[j].st.runId == r && !s'.tasks[j].st.closed
    {
      assert j in ListenersOf(s.listeners, r);
    }
  }

  /** A step that only replaces one stream needs to be checked for that stream alone. */
  lemma UpdateInv(s: System, i: nat, stage: Stage, st: Stream)
    requires Inv(s) && i < |s.tasks|
    requires st.runId == s.tasks[i].st.runId && (s.tasks[i].st.closed ==> st.closed)
    requires TaskOk(s.Update(i, stage, st), i)
    ensures Inv(s.Update(i, stage, st))
  {
    var s' := s.Update(i, stage, st);
    UpdateRegistry(s, i, stage, st);
    assert forall r :: s'.Log(r) == s.Log(r);
    forall j: nat | j < |s'.tasks| ensures TaskOk(s', j) {
      if j != i {
        assert TaskOk(s, j);
        SameView(s, s', j);
      }
    }
  }

  /** What a task's condition depends on. */
  lemma SameView(s: System, s': System, j: nat)
    requires j < |s.tasks| && j < |s'.tasks| && s.tasks[j] == s'.tasks[j]
    requires s.logs == s'.logs && s.redact == s'.redact && s.pending == s'.pending
    requires forall k: nat :: InFlight(s, j, k) ==> InFlight(s', j, k)
    requires TaskOk(s, j)
    ensures TaskOk(s', j)
  {
    var r := s.tasks[j].st.runId;
    assert s.Log(r) == s'.Log(r);
    if !s'.tasks[j].st.closed {
      forall k: nat | k < |s'.Log(r)| ensures Accounted(s', j, k) {
        assert Accounted(s, j, k);
      }
    }
  }

  /** Appending to a log loses no event that came from it. */
  lemma FromLogAppend(log: seq<Event>, redact: Event -> Event, e: Event, x: Event)
    requires FromLog(log, redact, x)
    ensures FromLog(log + [e], redact, x)
  {
    var k :| 0 <= k < |log| && (x == log[k] || x == redact(log[k]));
    assert (log + [e])[k] == log[k];
  }

  lemma PersistCoverage(s: System, e: Event, i: nat)
    requires e.id !in s.ids && i < |s.tasks| && Coverage(s, i)
    requires s.tasks[i].stage.HasSnapshot? ==> |s.tasks[i].stage.persisted| <= |s.Log(s.tasks[i].st.runId)|
    ensures Coverage(Apply(s, Persist(e)), i)
  {
    var s' := Apply(s, Persist(e));
    var r := s.tasks[i].st.runId;
    assert s'.Log(r) == if r == e.runId then s.Log(r) + [e] else s.Log(r);
    if !s.tasks[i].st.closed {
      forall k: nat | k < |s'.Log(r)| ensures Accounted(s', i, k) {
        if k < |s.Log(r)| {
          assert Accounted(s, i, k);
        }
      }
    }
  }

  lemma PersistTask(s: System, e: Event, i: nat)
    requires Inv(s) && e.id !in s.ids && i < |s.tasks|
    ensures TaskOk(Apply(s, Persist(e)), i)
  {
    var s' := Apply(s, Persist(e));
    var r := s.tasks[i].st.runId;
    assert TaskOk(s, i);
    assert s'.Log(r) == if r == e.runId then s.Log(r) + [e] else s.Log(r);
    forall x | FromLog(s.Log(r), s.redact, x) ensures FromLog(s'.Log(r), s'.redact, x) {
      FromLogAppend(s.Log(r), s.redact, e, x);
    }
    PersistCoverage(s, e, i);
  }

  lemma PersistStore(s: System, e: Event)
    requires StoreOk(s) && e.id !in s.ids
    ensures StoreOk(Apply(s, Persist(e)))
  {
    var s' := Apply(s, Persist(e));
    forall r
      ensures DistinctIds(s'.Log(r))
      ensures forall k :: 0 <= k < |s'.Log(r)| ==> s'.Log(r)[k].runId == r && s'.Log(r)[k].id in s'.ids
    {
      assert s'.Log(r) == if r == e.runId then s.Log(r) + [e] else s.Log(r);
      assert DistinctIds(s.Log(r));
    }
    forall ref | ref in s'.pending ensures ref.index < |s'.Log(ref.runId)| {
      assert ref in s.pending || ref == Ref(e.runId, |s.Log(e.runId)|);
    }
  }

  lemma PersistPass(s: System, e: Event)
    requires PassOk(s) && e.id !in s.ids
    ensures PassOk(Apply(s, Persist(e)))
  {
    if s.pass.Delivering? {
      var s' := Apply(s, Persist(e));
      var r := s.pass.runId;
      assert s'.Log(r) == if r == e.runId then s.Log(r) + [e] else s.Log(r);
    }
  }

  lemma PersistInv(s: System, e: Event)
    requires Inv(s)
    ensures Inv(Apply(s, Persist(e)))
  {
    var s' := Apply(s, Persist(e));
    if e.id !in s.ids {
      PersistStore(s, e);
      PersistPass(s, e);
      forall i: nat | i < |s'.tasks| ensures TaskOk(s', i) {
        PersistTask(s, e, i);
      }
    }
  }

  lemma StartPublishInv(s: System, ref: Ref)
    requires Inv(s) && Enabled(s, StartPublish(ref))
    ensures Inv(Apply(s, StartPublish(ref)))
  {
    var s' := Apply(s, StartPublish(ref));
    assert forall r :: s'.Log(r) == s.Log(r);
    forall i: nat | i < |s'.tasks| ensures TaskOk(s', i) {
      assert TaskOk(s, i);
      var r := s.tasks[i].st.runId;
      if !s.tasks[i].st.closed {
        assert i in ListenersOf(s.listeners, r);
        forall k: nat | k < |s'.Log(r)| ensures Accounted(s', i, k) {
          assert Accounted(s, i, k);
        }
      }
    }
  }

  /** Delivery to one stream; `k` is the event that the pass carries. */
  lemma DeliverTask(s: System, i: nat, k: nat, e: Event)
    requires Inv(s) && i < |s.tasks|
    requires k < |s.Log(s.tasks[i].st.runId)| && e == s.redact(s.Log(s.tasks[i].st.runId)[k])
    ensures var st' := s.tasks[i].st.Deliver(e);
      && StreamOk(st') && st'.runId == s.tasks[i].st.runId
      && (s.tasks[i].st.closed ==> st' == s.tasks[i].st)
      && StageOk(s, Task(s.tasks[i].stage, st'))
      && Provenance(s, Task(s.tasks[i].stage, st'))
      && s.tasks[i].st.emittedIds <= st'.emittedIds
      && IdSet(s.tasks[i].st.liveBuffer) <= IdSet(st'.liveBuffer)
      && (!st'.closed ==> e.id in (if st'.replaying then IdSet(st'.liveBuffer) else st'.emittedIds))
  {
    assert TaskOk(s, i);
    var st := s.tasks[i].st;
    assert FromLog(s.Log(st.runId), s.redact, e);
    EmitEventOk(st, e);
    EmitEventFields(st, e);
    assert e in st.liveBuffer + [e];
  }

  lemma DeliverPass(s: System)
    requires PassOk(s) && Enabled(s, DeliverNext)
    ensures PassOk(Apply(s, DeliverNext))
  {
    var s' := Apply(s, DeliverNext);
    if s.pass.remaining != [] {
      var i := s.pass.remaining[0];
      assert s'.Log(s.pass.runId) == s.Log(s.pass.runId);
      EmitEventFields(s.tasks[i].st, s.pass.event);
      assert forall j :: j in s'.pass.remaining ==> j in s.pass.remaining;
    }
  }

  lemma DeliverNextTask(s: System, j: nat)
    requires Inv(s) && Enabled(s, DeliverNext) && j < |s.tasks|
    ensures TaskOk(Apply(s, DeliverNext), j)
  {
    var s' := Apply(s, DeliverNext);
    assert TaskOk(s, j);
    if s.pass.remaining == [] || j != s.pass.remaining[0] {
      SameView(s, s', j);
    } else {
      assert j in s.pass.remaining;
      DeliverTask(s, j, s.pass.index, s.pass.event);
      DeliverCoverage(s, j);
      assert s'.Log(s.pass.runId) == s.Log(s.pass.runId);
    }
  }

  lemma DeliverNextInv(s: System)
    requires Inv(s) && Enabled(s, DeliverNext)
    ensures Inv(Apply(s, DeliverNext))
  {
    var s' := Apply(s, DeliverNext);
    assert forall r :: s'.Log(r) == s.Log(r);
    DeliverPass(s);
    forall j: nat | j < |s'.tasks| ensures TaskOk(s', j) {
      DeliverNextTask(s, j);
    }
    if s.pass.remaining != [] {
      var i := s.pass.remaining[0];
      assert i in s.pass.remaining;
      DeliverTask(s, i, s.pass.index, s.pass.event);
      UpdateRegistry(s, i, s.tasks[i].stage, s.tasks[i].st.Deliver(s.pass.event));
    }
  }

  lemma DeliverCoverage(s: System, i: nat)
    requires Inv(s) && s.pass.Delivering? && s.pass.remaining != [] && i == s.pass.remaining[0] && i < |s.tasks|
    ensures Coverage(Apply(s, DeliverNext), i)
  {
    var s' := Apply(s, DeliverNext);
    assert forall r :: s'.Log(r) == s.Log(r);
    assert i in s.pass.remaining;
    DeliverTask(s, i, s.pass.index, s.pass.event);
    if !s'.tasks[i].st.closed {
      forall j: nat | j < |s'.Log(s'.tasks[i].st.runId)| ensures Accounted(s', i, j) {
        assert TaskOk(s, i) && Accounted(s, i, j);
      }
    }
  }

  lemma OpenRegistry(s: System, r: string)
    requires RegistryOk(s)
    ensures RegistryOk(Apply(s, Open(r)))
  {
    var s' := Apply(s, Open(r));
    var n: nat := |s.tasks|;
    assert n !in ListenersOf(s.listeners, r);
    forall q, j: nat | j in ListenersOf(s'.listeners, q)
      ensures j < |s'.tasks| && s'.tasks[j].st.runId == q && !s'.tasks[j].st.closed
    {
      if q != r || j < n { assert j in ListenersOf(s.listeners, q); }
    }
  }

  lemma OpenInv(s: System, r: string)
    requires Inv(s)
    ensures Inv(Apply(s, Open(r)))
  {
    var s' := Apply(s, Open(r));
    var n: nat := |s.tasks|;
    assert forall q :: s'.Log(q) == s.Log(q);
    OpenRegistry(s, r);
    forall j: nat | j < |s'.tasks| ensures TaskOk(s', j) {
      if j < n {
        SameView(s, s', j);
      }
    }
  }

  lemma ReadSnapshotInv(s: System, i: nat)
    requires Inv(s) && Enabled(s, ReadSnapshot(i))
    ensures Inv(Apply(s, ReadSnapshot(i)))
  {
    assert TaskOk(s, i);
    var s' := Apply(s, ReadSnapshot(i));
    var r := s.tasks[i].st.runId;
    UpdateInv(s, i, HasSnapshot(s.Log(r)), s.tasks[i].st);
  }

  /** Closing a stream, whatever the cause. */
  lemma CloseInv(s: System, i: nat, stage: Stage)
    requires Inv(s) && i < |s.tasks|
    requires stage == s.tasks[i].stage || stage == Finished
    ensures Inv(s.Update(i, stage, s.tasks[i].st.Teardown(None)))
  {
    assert TaskOk(s, i);
    var st' := s.tasks[i].st.Teardown(None);
    var s' := s.Update(i, stage, st');
    TeardownOk(s.tasks[i].st);
    UpdateInv(s, i, stage, st');
  }

  lemma ResumeCoverage(s: System, i: nat)
    requires i < |s.tasks| && Coverage(s, i) && s.tasks[i].stage.HasSnapshot? && s.tasks[i].stage.persisted <= s.Log(s.tasks[i].st.runId)
    requires StreamOk(s.tasks[i].st) && !s.tasks[i].st.heartbeat
    ensures var st' := s.tasks[i].st.Resume(s.tasks[i].stage.persisted); Coverage(s.Update(i, Finished, st'), i)
  {
    var st, p := s.tasks[i].st, s.tasks[i].stage.persisted;
    var s' := s.Update(i, Finished, st.Resume(p));
    ResumeOk(st, p);
    if !s'.tasks[i].st.closed {
      assert s'.Log(st.runId) == s.Log(st.runId);
      forall k: nat | k < |s'.Log(st.runId)| ensures Accounted(s', i, k) {
        assert Accounted(s, i, k);
        if k < |p| { assert p[k] in p; }
      }
    }
  }

  lemma ResumeInv(s: System, i: nat)
    requires Inv(s) && Enabled(s, ResumeStream(i))
    ensures Inv(Apply(s, ResumeStream(i)))
  {
    assert TaskOk(s, i);
    var st, p := s.tasks[i].st, s.tasks[i].stage.persisted;
    ResumeOk(st, p);
    ResumeCoverage(s, i);
    forall e | e in p ensures FromLog(s.Log(st.runId), s.redact, e) {
      var k :| 0 <= k < |p| && p[k] == e;
      assert s.Log(st.runId)[k] == e;
    }
    UpdateInv(s, i, Finished, st.Resume(p));
  }

  lemma TickInv(s: System, i: nat)
    requires Inv(s) && Enabled(s, HeartbeatTick(i))
    ensures Inv(Apply(s, HeartbeatTick(i)))
  {
    assert TaskOk(s, i);
    var st' := s.tasks[i].st.Tick();
    TickOk(s.tasks[i].st);
    var s' := s.Update(i, s.tasks[i].stage, st');
    if !st'.closed {
      forall k: nat | k < |s'.Log(st'.runId)| ensures Accounted(s', i, k) {
        assert Accounted(s, i, k);
      }
    }
    UpdateInv(s, i, s.tasks[i].stage, st');
  }

  lemma StepInv(s: System, step: Step)
    requires Inv(s) && Enabled(s, step)
    ensures Inv(Apply(s, step))
  {
    match step
    case Persist(e) => PersistInv(s, e);
    case StartPublish(ref) => StartPublishInv(s, ref);
    case DeliverNext => DeliverNextInv(s);
    case Open(r) => OpenInv(s, r);
    case ReadSnapshot(i) => ReadSnapshotInv(s, i);
    case ReadFails(i) => CloseInv(s, i, Finished);
    case ResumeStream(i) => ResumeInv(s, i);
    case ClientClose(i) => CloseInv(s, i, s.tasks[i].stage);
    case HeartbeatTick(i) => TickInv(s, i);
  }

  lemma {:induction false} RunInv(s: System, steps: seq<Step>)
    requires Inv(s) && Runs(s, steps)
    ensures Inv(Final(s, steps))
    decreases |steps|
  {
    if steps != [] {
      StepInv(s, steps[0]);
      RunInv(Apply(s, steps[0]), steps[1..]);
    }
  }

  // ---------------------------------------------------------------- theorems over every run

  /** The events that a client has received, in order. */
  function Received(fs: seq<Frame>): seq<Event> {
    if fs == [] then []
    else
      var rest := Received(fs[..|fs| - 1]);
      if fs[|fs| - 1].RunEventFrame? then rest + [fs[|fs| - 1].event] else rest
  }

  lemma {:induction false} ReceivedAppend(fs: seq<Frame>, gs: seq<Frame>)
    ensures Received(fs + gs) == Received(fs) + Received(gs)
  {
    if gs == [] {
      assert fs + gs == fs;
    } else {
      var n := |gs| - 1;
      assert (fs + gs)[..|fs + gs| - 1] == fs + gs[..n];
      ReceivedAppend(fs, gs[..n]);
    }
  }

  lemma {:induction false} ReceivedStrip(fs: seq<Frame>)
    ensures Received(Strip(fs)) == Received(fs)
  {
    if fs != [] {
      var n := |fs| - 1;
      ReceivedStrip(fs[..n]);
      ReceivedAppend(Strip(fs[..n]), [fs[n]]);
    }
  }

  /** One event is received through the frames written for it. */
  lemma ReceivedFramesFor(seen: seq<Event>)
    requires seen != []
    ensures Received(FramesFor(seen)) == [seen[|seen| - 1]]
  {
    var e := seen[|seen| - 1];
    var f1 := [RunEventFrame(e)];
    var f2 := if e.providerCall then [CostFrame(seen)] else [];
    var f3 := if IsTerminal(e.phase) then [DoneFrame(e.phase)] else [];
    ReceivedAppend(f1 + f2, f3);
    ReceivedAppend(f1, f2);
    ReceivedOne(RunEventFrame(e));
    ReceivedOne(CostFrame(seen));
    ReceivedOne(DoneFrame(e.phase));
  }

  lemma ReceivedOne(f: Frame)
    ensures Received([f]) == if f.RunEventFrame? then [f.event] else []
  {
    assert [f][..0] == [];
  }

  lemma {:induction false} ReceivedRender(seen: seq<Event>)
    ensures Received(Render(seen)) == seen
  {
    if seen != [] {
      var n := |seen| - 1;
      ReceivedRender(seen[..n]);
      ReceivedAppend(Render(seen[..n]), FramesFor(seen));
      ReceivedFramesFor(seen);
      assert seen == seen[..n] + [seen[n]];
    }
  }

  lemma ReceivedIsSeen(st: Stream)
    requires StreamOk(st)
    ensures Received(st.frames) == st.seenEvents
  {
    ReceivedStrip(st.frames);
    ReceivedRender(st.seenEvents);
  }

  lemma InitInv(s: System)
    requires Init(s)
    ensures Inv(s)
  {
    assert forall r :: s.Log(r) == [];
  }

  /**
   In every run, a client receives each event at most once and only persisted events
   of its run; on an open live stream every persisted event of the run has been
   received, or still waits to be published, or is being delivered to this stream.
   Apart from heartbeats the client sees exactly the frames of the received events.
   */
  lemma ExactlyOnce(s0: System, steps: seq<Step>, i: nat)
    requires Init(s0) && Runs(s0, steps) && i < |Final(s0, steps).tasks|
    ensures var s := Final(s0, steps); var t := s.tasks[i];
      var got := Received(t.st.frames); var log := s.Log(t.st.runId);
      && DistinctIds(got)
      && (forall e :: e in got ==> FromLog(log, s.redact, e))
      && Strip(t.st.frames) == Render(got)
      && (t.stage.Finished? && !t.st.closed ==>
            forall k: nat :: k < |log| ==>
              log[k].id in IdSet(got) || Ref(t.st.runId, k) in s.pending || InFlight(s, i, k))
  {
    InitInv(s0);
    RunInv(s0, steps);
    var s := Final(s0, steps);
    assert TaskOk(s, i);
    ReceivedIsSeen(s.tasks[i].st);
    if s.tasks[i].stage.Finished? && !s.tasks[i].st.closed {
      forall k: nat | k < |s.Log(s.tasks[i].st.runId)|
        ensures s.Log(s.tasks[i].st.runId)[k].id in s.tasks[i].st.emittedIds
             || Ref(s.tasks[i].st.runId, k) in s.pending || InFlight(s, i, k)
      {
        assert Accounted(s, i, k);
      }
    }
  }

  ghost predicate Quiescent(s: System, r: string) {
    s.pass.Idle? && forall k :: Ref(r, k) !in s.pending
  }

  lemma FromLogUnique(log: seq<Event>, redact: Event -> Event, g: Event, e: Event)
    requires KeepsIdentity(redact) && DistinctIds(log) && FromLog(log, redact, g) && e in log && g.id == e.id
    ensures g == e || g == redact(e)
  {
    var m :| 0 <= m < |log| && (g == log[m] || g == redact(log[m]));
    var k :| 0 <= k < |log| && log[k] == e;
    assert log[m].id == log[k].id;
  }

  /** Two event sequences with the same ids, the first drawn from the second. */
  lemma SameIds(log: seq<Event>, redact: Event -> Event, got: seq<Event>)
    requires KeepsIdentity(redact) && DistinctIds(log)
    requires forall e :: e in got ==> FromLog(log, redact, e)
    requires forall k: nat :: k < |log| ==> log[k].id in IdSet(got)
    ensures IdSet(got) == IdSet(log)
    ensures forall e :: e in log ==> exists g :: g in got && (g == e || g == redact(e))
  {
    forall x | x in IdSet(got) ensures x in IdSet(log) {
      var e :| e in got && e.id == x;
      var k :| 0 <= k < |log| && (e == log[k] || e == redact(log[k]));
      assert log[k] in log;
    }
    forall e | e in log ensures e.id in IdSet(got) && exists g :: g in got && (g == e || g == redact(e)) {
      var k: nat :| k < |log| && log[k] == e;
      var g :| g in got && g.id == e.id;
      FromLogUnique(log, redact, g, e);
    }
  }

  /**
   Once all events of a run are published, a stream of that run that has finished its
   replay and is still open has received exactly the persisted events, none of them
   terminal: a terminal event can only have closed it.
   */
  lemma QuiescentDelivery(s0: System, steps: seq<Step>, i: nat)
    requires Init(s0) && Runs(s0, steps) && i < |Final(s0, steps).tasks|
    requires var s := Final(s0, steps);
      Quiescent(s, s.tasks[i].st.runId) && s.tasks[i].stage.Finished? && !s.tasks[i].st.closed
    ensures var s := Final(s0, steps); var log := s.Log(s.tasks[i].st.runId);
      && IdSet(Received(s.tasks[i].st.frames)) == IdSet(log)
      && forall e :: e in log ==> e.phase !in {Done, NeedsDecision, Failed, Aborted}
  {
    ExactlyOnce(s0, steps, i);
    InitInv(s0);
    RunInv(s0, steps);
    var s := Final(s0, steps);
    var got, log := Received(s.tasks[i].st.frames), s.Log(s.tasks[i].st.runId);
    SameIds(log, s.redact, got);
    OpenNotTerminal(s, i);
    forall e | e in log ensures !IsTerminal(e.phase) {
      var g :| g in got && (g == e || g == s.redact(e));
    }
  }

  lemma OpenNotTerminal(s: System, i: nat)
    requires Inv(s) && i < |s.tasks| && !s.tasks[i].st.closed
    ensures forall g :: g in Received(s.tasks[i].st.frames) ==> !IsTerminal(g.phase)
  {
    assert TaskOk(s, i);
    ReceivedIsSeen(s.tasks[i].st);
  }

  /**
   In every run: `end` is called once if the stream is closed and never before; a
   `done` frame can only be the last frame of a closed stream; a closed stream has no
   heartbeat and is registered for no run; an open one is registered, and has a heartbeat
   exactly if its replay is over; no empty listener set is kept.
   */
  lemma CleanTeardown(s0: System, steps: seq<Step>, i: nat)
    requires Init(s0) && Runs(s0, steps) && i < |Final(s0, steps).tasks|
    ensures var s := Final(s0, steps); var st := s.tasks[i].st;
      && st.ends == (if st.closed then 1 else 0)
      && (forall j :: 0 <= j < |st.frames| && st.frames[j].DoneFrame? ==> j == |st.frames| - 1 && st.closed)
      && (st.closed ==> !st.heartbeat && forall r :: i !in ListenersOf(s.listeners, r))
      && (!st.closed ==> i in ListenersOf(s.listeners, st.runId) && (st.heartbeat <==> s.tasks[i].stage.Finished?))
      && (forall r :: r in s.listeners ==> s.listeners[r] != [])
  {
    InitInv(s0);
    RunInv(s0, steps);
    assert TaskOk(Final(s0, steps), i);
  }

  /** In every run a heartbeat that is due writes one comment to a stream that is open, and nothing else happens. */
  lemma HeartbeatWrites(s0: System, steps: seq<Step>, i: nat)
    requires Init(s0) && Runs(s0, steps) && Enabled(Final(s0, steps), HeartbeatTick(i))
    ensures var s := Final(s0, steps); var t := s.tasks[i];
      && !t.st.closed
      && Apply(s, HeartbeatTick(i)) == s.(tasks := s.tasks[i := t.(st := t.st.(frames := t.st.frames + [KeepAlive]))])
  {
    CleanTeardown(s0, steps, i);
  }

  lemma ClosedStep(s: System, step: Step, i: nat)
    requires Inv(s) && Enabled(s, step) && i < |s.tasks| && s.tasks[i].st.closed
    ensures var s' := Apply(s, step);
      i < |s'.tasks| && s'.tasks[i].st.closed
      && s'.tasks[i].st.frames == s.tasks[i].st.frames && s'.tasks[i].st.ends == s.tasks[i].st.ends
  {
    assert TaskOk(s, i);
    if step.ResumeStream? && step.sid == i {
      ResumeOk(s.tasks[i].st, s.tasks[i].stage.persisted);
      StepInv(s, step);
      assert TaskOk(Apply(s, step), i);
    }
  }

  /** Nothing is written to a closed stream, even by a pass over a stale copy of the listeners. */
  lemma {:induction false} NothingAfterEnd(s: System, steps: seq<Step>, i: nat)
    requires Inv(s) && Runs(s, steps) && i < |s.tasks| && s.tasks[i].st.closed
    ensures var s' := Final(s, steps);
      i < |s'.tasks| && s'.tasks[i].st.closed
      && s'.tasks[i].st.frames == s.tasks[i].st.frames && s'.tasks[i].st.ends == s.tasks[i].st.ends
    decreases |steps|
  {
    if steps != [] {
      ClosedStep(s, steps[0], i);
      StepInv(s, steps[0]);
      NothingAfterEnd(Apply(s, steps[0]), steps[1..], i);
    }
  }

  /** No reachable state blocks a writer or a delivery pass: their steps are always enabled. */
  lemma WritersNeverBlock(s0: System, steps: seq<Step>)
    requires Init(s0) && Runs(s0, steps)
    ensures var s := Final(s0, steps);
      && (s.pass.Idle? ==> forall ref :: ref in s.pending ==> Enabled(s, StartPublish(ref)))
      && (s.pass.Delivering? ==> Enabled(s, DeliverNext))
  {
    InitInv(s0);
    RunInv(s0, steps);
    var s := Final(s0, steps);
    if s.pass.Delivering? && s.pass.remaining != [] {
      assert s.pass.remaining[0] in s.pass.remaining;
    }
  }
}
