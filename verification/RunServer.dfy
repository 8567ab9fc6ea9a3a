/**
 The broker and the stream objects at work.  Whatever is done to them is a run of the step
 system, so what holds of every run holds of the objects.
 */
module RunServer {
  import opened Wrappers
  import opened RunProtocol
  import opened RunProtocolSafety
  import opened RunStreamObjects
  import Order = RunProtocolOrder

  lemma ExtendRun(s: System, steps: seq<Step>, step: Step)
    requires Runs(s, steps) && Enabled(Final(s, steps), step)
    ensures Runs(s, steps + [step]) && Final(s, steps + [step]) == Apply(Final(s, steps), step)
  {
    Order.OneStep(Final(s, steps), step, Apply(Final(s, steps), step));
    Order.RunsAppend(s, steps, [step]);
  }

  /** The streams of the step system. */
  function StreamsOf(s: System): (r: seq<Stream>)
    ensures |r| == |s.tasks| && forall i :: 0 <= i < |r| ==> r[i] == s.tasks[i].st
  {
    seq(|s.tasks|, i requires 0 <= i < |s.tasks| => s.tasks[i].st)
  }

  // ---------------------------------------------------------------- the registry as a value

  /** `x` is an open stream of the run. */
  ghost predicate OpenStream<T>(xs: seq<T>, states: seq<Stream>, r: string, x: T)
    requires |xs| == |states|
  {
    exists i :: 0 <= i < |xs| && xs[i] == x && states[i].runId == r && !states[i].closed
  }

  /** The broker lists exactly the open streams, each under its run. */
  ghost predicate Registry<T>(lists: map<string, seq<T>>, xs: seq<T>, states: seq<Stream>)
    requires |xs| == |states|
  {
    && ListsOk(lists) && NoDup(xs)
    && (forall r, k :: r in lists && 0 <= k < |lists[r]| ==> OpenStream(xs, states, r, lists[r][k]))
    && (forall i :: 0 <= i < |xs| && !states[i].closed ==> xs[i] in ListenersOf(lists, states[i].runId))
  }

  lemma RegistryMember<T>(lists: map<string, seq<T>>, xs: seq<T>, states: seq<Stream>, r: string, x: T)
    requires |xs| == |states| && Registry(lists, xs, states)
    ensures x in ListenersOf(lists, r) <==> OpenStream(xs, states, r, x)
  {}

  lemma RegistryFromMembers<T>(lists: map<string, seq<T>>, xs: seq<T>, states: seq<Stream>)
    requires |xs| == |states| && ListsOk(lists) && NoDup(xs)
    requires forall r, x :: x in ListenersOf(lists, r) <==> OpenStream(xs, states, r, x)
    ensures Registry(lists, xs, states)
  {
    forall r, k | r in lists && 0 <= k < |lists[r]| ensures OpenStream(xs, states, r, lists[r][k]) {
      assert lists[r][k] in ListenersOf(lists, r);
    }
    forall i | 0 <= i < |xs| && !states[i].closed ensures xs[i] in ListenersOf(lists, states[i].runId) {
      assert OpenStream(xs, states, states[i].runId, xs[i]);
    }
  }

  lemma UnsubscribeMembers<T>(m: map<string, seq<T>>, run: string, x: T)
    requires ListsOk(m)
    ensures ListsOk(Unsubscribe(m, run, x))
    ensures forall r, y :: y in ListenersOf(Unsubscribe(m, run, x), r) <==> y in ListenersOf(m, r) && !(r == run && y == x)
  {
    if run in m { WithoutNoDup(m[run], x); }
  }

  lemma SubscribeMembers<T>(m: map<string, seq<T>>, run: string, x: T)
    requires ListsOk(m)
    ensures ListsOk(Subscribe(m, run, x))
    ensures forall r, y :: y in ListenersOf(Subscribe(m, run, x), r) <==> y in ListenersOf(m, r) || (r == run && y == x)
  {}

  /** Changing one stream, and dropping it if that closed it, keeps the registry right. */
  lemma RegistryUpdate<T>(lists: map<string, seq<T>>, xs: seq<T>, states: seq<Stream>, i: nat, st: Stream)
    requires |xs| == |states| && Registry(lists, xs, states) && i < |xs|
    requires st.runId == states[i].runId && (states[i].closed ==> st.closed)
    ensures Registry(if st.closed && !states[i].closed then Unsubscribe(lists, st.runId, xs[i]) else lists, xs, states[i := st])
  {
    var states' := states[i := st];
    var lists' := if st.closed && !states[i].closed then Unsubscribe(lists, st.runId, xs[i]) else lists;
    UnsubscribeMembers(lists, st.runId, xs[i]);
    forall r, x ensures x in ListenersOf(lists', r) <==> OpenStream(xs, states', r, x) {
      RegistryMember(lists, xs, states, r, x);
      OpenUpdate(xs, states, i, st, r, x);
    }
    RegistryFromMembers(lists', xs, states');
  }

  lemma OpenUpdate<T>(xs: seq<T>, states: seq<Stream>, i: nat, st: Stream, r: string, x: T)
    requires |xs| == |states| && NoDup(xs) && i < |xs| && st.runId == states[i].runId && (states[i].closed ==> st.closed)
    ensures OpenStream(xs, states[i := st], r, x) <==>
            OpenStream(xs, states, r, x) && !(st.closed && !states[i].closed && r == st.runId && x == xs[i])
  {
    var states' := states[i := st];
    if j :| 0 <= j < |xs| && xs[j] == x && states'[j].runId == r && !states'[j].closed {
      assert states[j].runId == r && !states[j].closed;
    }
    if j :| 0 <= j < |xs| && xs[j] == x && states[j].runId == r && !states[j].closed {
      if j != i || !st.closed { assert states'[j].runId == r && !states'[j].closed; }
    }
  }

  lemma RegistryOpen<T>(lists: map<string, seq<T>>, xs: seq<T>, states: seq<Stream>, x: T, run: string)
    requires |xs| == |states| && Registry(lists, xs, states) && x !in xs
    ensures Registry(Subscribe(lists, run, x), xs + [x], states + [NewStream(run)])
  {
    var xs', states' := xs + [x], states + [NewStream(run)];
    SubscribeMembers(lists, run, x);
    forall r, y ensures y in ListenersOf(Subscribe(lists, run, x), r) <==> OpenStream(xs', states', r, y) {
      RegistryMember(lists, xs, states, r, y);
      if j :| 0 <= j < |xs'| && xs'[j] == y && states'[j].runId == r && !states'[j].closed {
        if j < |xs| { assert xs[j] == y && states[j].runId == r && !states[j].closed; }
      }
      if j :| 0 <= j < |xs| && xs[j] == y && states[j].runId == r && !states[j].closed {
        assert xs'[j] == y && states'[j].runId == r && !states'[j].closed;
      }
      assert xs'[|xs|] == x && states'[|xs|].runId == run && !states'[|xs|].closed;
    }
    RegistryFromMembers(Subscribe(lists, run, x), xs', states');
  }

  // ---------------------------------------------------------------- a whole pass

  /** The steps of one publication: its start, a delivery to each listener and the end of the pass. */
  function PassOf(s: System, ref: Ref): seq<Step> {
    [StartPublish(ref)] + Deliveries(|ListenersOf(s.listeners, ref.runId)| + 1)
  }

  function Delivered(st: Stream, run: string, event: Event): Stream {
    if st.runId == run then st.Deliver(event) else st
  }

  function AllDelivered(states: seq<Stream>, run: string, event: Event): seq<Stream> {
    seq(|states|, i requires 0 <= i < |states| => Delivered(states[i], run, event))
  }

  /** A whole pass delivers the event to every stream of the run; closed ones ignore it. */
  lemma PublishRun(s0: System, steps: seq<Step>, ref: Ref)
    requires Init(s0) && Runs(s0, steps) && Enabled(Final(s0, steps), StartPublish(ref))
    ensures var now := Final(s0, steps);
      && Runs(s0, steps + PassOf(now, ref))
      && var next := Final(s0, steps + PassOf(now, ref));
      && next.pass.Idle? && |next.tasks| == |now.tasks| && ref.index < |now.Log(ref.runId)|
      && forall i :: 0 <= i < |now.tasks| ==>
           next.tasks[i].st == Delivered(now.tasks[i].st, ref.runId, now.redact(now.Log(ref.runId)[ref.index]))
  {
    var now := Final(s0, steps);
    InitInv(s0);
    RunInv(s0, steps);
    StepInv(now, StartPublish(ref));
    var begun := Apply(now, StartPublish(ref));
    WholePass(begun);
    Order.OneStep(now, StartPublish(ref), begun);
    var deliveries := Deliveries(|begun.pass.remaining| + 1);
    Order.RunsAppend(now, [StartPublish(ref)], deliveries);
    Order.RunsAppend(s0, steps, PassOf(now, ref));
    forall i: nat | i < |now.tasks| ensures i in begun.pass.remaining <==> now.tasks[i].st.runId == ref.runId && !now.tasks[i].st.closed {}
  }

  lemma {:induction false} KeepsRedact(s: System, steps: seq<Step>)
    requires Runs(s, steps)
    ensures Final(s, steps).redact == s.redact
    decreases |steps|
  {
    if steps != [] { KeepsRedact(Apply(s, steps[0]), steps[1..]); }
  }

  /** After a pass the broker lists the streams of the run that are still open. */
  lemma RegistryPublish<T>(lists: map<string, seq<T>>, xs: seq<T>, states: seq<Stream>, lists': map<string, seq<T>>, run: string, e: Event)
    requires |xs| == |states| && Registry(lists, xs, states) && ListsOk(lists')
    requires forall i :: 0 <= i < |xs| && xs[i] in ListenersOf(lists, run) ==>
               (xs[i] in ListenersOf(lists', run) <==> !Delivered(states[i], run, e).closed)
    requires forall x :: x in ListenersOf(lists', run) ==> x in ListenersOf(lists, run)
    requires forall r :: r != run ==> ListenersOf(lists', r) == ListenersOf(lists, r)
    ensures Registry(lists', xs, AllDelivered(states, run, e))
  {
    var states' := AllDelivered(states, run, e);
    forall i | 0 <= i < |states| ensures states'[i].runId == states[i].runId && (states[i].closed ==> states'[i].closed) {
      EmitEventFields(states[i], e);
    }
    forall r, x ensures x in ListenersOf(lists', r) <==> OpenStream(xs, states', r, x) {
      RegistryMember(lists, xs, states, r, x);
      if x in ListenersOf(lists', r) {
        var i :| 0 <= i < |xs| && xs[i] == x && states[i].runId == r && !states[i].closed;
        assert states'[i].runId == r && !states'[i].closed;
      }
      if i :| 0 <= i < |xs| && xs[i] == x && states'[i].runId == r && !states'[i].closed {
        assert states[i].runId == r && !states[i].closed;
      }
    }
    RegistryFromMembers(lists', xs, states');
  }

  // ---------------------------------------------------------------- the objects

  class Server {
    const broker: RunEventBroker
    var streams: seq<RunStream>
    ghost const start: System
    ghost var trace: seq<Step>

    ghost function States(): (r: seq<Stream>)
      reads this, streams
      ensures |r| == |streams| && forall i :: 0 <= i < |r| ==> r[i] == streams[i].State()
    {
      seq(|streams|, i requires 0 <= i < |streams| reads this, streams => streams[i].State())
    }

    /** The state of the step system after what was done so far. */
    ghost function Now(): System
      reads this
      requires Runs(start, trace)
    {
      Final(start, trace)
    }

    ghost predicate Valid()
      reads this, broker, streams
    {
      && Init(start) && Runs(start, trace) && Now().pass.Idle?
      && States() == StreamsOf(Now())
      && ObjectsOk()
    }

    constructor (ghost redact: Event -> Event)
      requires KeepsIdentity(redact)
      ensures Valid() && streams == [] && trace == [] && start.redact == redact
    {
      broker := new RunEventBroker();
      streams := [];
      start := System(redact, map[], {}, {}, map[], Idle, []);
      trace := [];
    }

    /** A stream is opened; it subscribes before it reads. */
    method Open(runId: string) returns (s: RunStream)
      requires Valid()
      modifies this`streams, this`trace, broker
      ensures Valid() && trace == old(trace) + [Step.Open(runId)]
      ensures fresh(s) && streams == old(streams) + [s]
    {
      ghost var states := States();
      s := new RunStream(runId, broker);
      RegistryOpen(old(broker.listenersByRun), streams, states, s, runId);
      OpenedRun(start, trace, runId);
      streams := streams + [s];
      trace := trace + [Step.Open(runId)];
      assert States() == states + [NewStream(runId)];
    }

    /** An event is persisted, or rejected because of its id; nothing happens to the objects. */
    ghost method Persist(e: Event)
      requires Valid()
      modifies this`trace
      ensures Valid() && trace == old(trace) + [Step.Persist(e)]
    {
      ExtendRun(start, trace, Step.Persist(e));
      trace := trace + [Step.Persist(e)];
    }

    /** The read of stream `i` is answered. */
    ghost method Read(i: nat)
      requires Valid() && Enabled(Now(), ReadSnapshot(i))
      modifies this`trace
      ensures Valid() && trace == old(trace) + [ReadSnapshot(i)]
    {
      ExtendRun(start, trace, ReadSnapshot(i));
      trace := trace + [ReadSnapshot(i)];
    }

    method Resume(i: nat, persisted: seq<Event>)
      requires Valid() && i < |streams| && Now().tasks[i].stage == HasSnapshot(persisted)
      modifies this`trace, broker, streams
      ensures Valid() && streams == old(streams) && trace == old(trace) + [ResumeStream(i)]
    {
      ghost var states, now := States(), Now();
      InitInv(start);
      RunInv(start, trace);
      assert TaskOk(now, i);
      ResumeOk(states[i], persisted);
      streams[i].Resume(persisted);
      Acted(start, trace, ResumeStream(i), i, Finished, states[i].Resume(persisted));
      trace := trace + [ResumeStream(i)];
      RegistryUpdate(old(broker.listenersByRun), streams, states, i, states[i].Resume(persisted));
      assert States() == states[i := states[i].Resume(persisted)];
    }

    method ReadFails(i: nat)
      requires Valid() && i < |streams| && Now().tasks[i].stage.Reading?
      modifies this`trace, broker, streams
      ensures Valid() && streams == old(streams) && trace == old(trace) + [Step.ReadFails(i)]
    {
      ghost var states := States();
      streams[i].Teardown(None);
      Acted(start, trace, Step.ReadFails(i), i, Finished, states[i].Teardown(None));
      trace := trace + [Step.ReadFails(i)];
      RegistryUpdate(old(broker.listenersByRun), streams, states, i, states[i].Teardown(None));
      assert States() == states[i := states[i].Teardown(None)];
    }

    method ClientCloses(i: nat)
      requires Valid() && i < |streams|
      modifies this`trace, broker, streams
      ensures Valid() && streams == old(streams) && trace == old(trace) + [ClientClose(i)]
    {
      ghost var states, now := States(), Now();
      streams[i].Teardown(None);
      Acted(start, trace, ClientClose(i), i, now.tasks[i].stage, states[i].Teardown(None));
      trace := trace + [ClientClose(i)];
      RegistryUpdate(old(broker.listenersByRun), streams, states, i, states[i].Teardown(None));
      assert States() == states[i := states[i].Teardown(None)];
    }

    /** The objects fit together, whatever happened to them. */
    ghost predicate ObjectsOk()
      reads this, broker, streams
    {
      && Registry(broker.listenersByRun, streams, States())
      && forall i :: 0 <= i < |streams| ==> streams[i].broker == broker
    }

    lemma BrokerReady()
      requires ObjectsOk()
      ensures broker.Valid()
      ensures forall r, x :: x in ListenersOf(broker.listenersByRun, r) ==> x in streams
    {
      var lists := broker.listenersByRun;
      forall r, x | x in ListenersOf(lists, r) ensures x in streams { RegistryMember(lists, streams, States(), r, x); }
      forall r, s | r in lists && s in lists[r]
        ensures s in broker.Registered() && s.runId == r && s.broker == broker && !s.closed
      {
        RegistryMember(lists, streams, States(), r, s);
      }
    }

    /** Each stream of the run gets the event; the broker keeps the ones that stay open. */
    method DeliverToAll(runId: string, event: Event)
      requires ObjectsOk()
      modifies broker, streams
      ensures ObjectsOk() && States() == AllDelivered(old(States()), runId, event)
    {
      ghost var states, lists := States(), broker.listenersByRun;
      BrokerReady();
      broker.Publish(runId, event);
      forall i | 0 <= i < |streams| ensures streams[i].State() == Delivered(states[i], runId, event) {
        RegistryMember(lists, streams, states, runId, streams[i]);
      }
      assert States() == AllDelivered(states, runId, event);
      RegistryPublish(lists, streams, states, broker.listenersByRun, runId, event);
    }

    /** A writer publishes a persisted event, in the form that redaction gives it. */
    method Publish(ghost ref: Ref, runId: string, event: Event)
      requires Valid() && Enabled(Now(), StartPublish(ref)) && runId == ref.runId
      requires event == start.redact(Now().Log(ref.runId)[ref.index])
      modifies this`trace, broker, streams
      ensures Valid() && streams == old(streams)
      ensures trace == old(trace) + PassOf(old(Now()), ref)
    {
      KeepsRedact(start, trace);
      PublishRun(start, trace, ref);
      DeliverToAll(runId, event);
      trace := trace + PassOf(Now(), ref);
      assert States() == StreamsOf(Now());
    }

    method Tick(i: nat)
      requires Valid() && i < |streams| && streams[i].heartbeat
      modifies this`trace, streams
      ensures Valid() && streams == old(streams) && trace == old(trace) + [HeartbeatTick(i)]
    {
      ghost var states, now := States(), Now();
      streams[i].Tick();
      Acted(start, trace, HeartbeatTick(i), i, now.tasks[i].stage, states[i].Tick());
      trace := trace + [HeartbeatTick(i)];
      RegistryUpdate(old(broker.listenersByRun), streams, states, i, states[i].Tick());
      assert States() == states[i := states[i].Tick()];
    }
  }

  lemma OpenedRun(s: System, steps: seq<Step>, run: string)
    requires Runs(s, steps)
    ensures Runs(s, steps + [Open(run)])
    ensures var now, next := Final(s, steps), Final(s, steps + [Open(run)]);
      StreamsOf(next) == StreamsOf(now) + [NewStream(run)] && next.pass == now.pass
  {
    ExtendRun(s, steps, Open(run));
  }

  /** A step that replaces stream `i`. */
  lemma Acted(s: System, steps: seq<Step>, step: Step, i: nat, stage: Stage, st: Stream)
    requires Runs(s, steps) && Enabled(Final(s, steps), step) && i < |Final(s, steps).tasks|
    requires Apply(Final(s, steps), step) == Final(s, steps).Update(i, stage, st)
    ensures Runs(s, steps + [step])
    ensures var now, next := Final(s, steps), Final(s, steps + [step]);
      StreamsOf(next) == StreamsOf(now)[i := st] && next.pass == now.pass
  {
    ExtendRun(s, steps, step);
  }

  // ---------------------------------------------------------------- what holds of the objects

  /** Each stream object has sent each event at most once, and only persisted events of its run. */
  lemma ObjectsExactlyOnce(server: Server, i: nat)
    requires server.Valid() && i < |server.streams|
    ensures var s, got := server.Now(), Received(server.streams[i].frames);
      && DistinctIds(got)
      && (forall e :: e in got ==> FromLog(s.Log(server.streams[i].runId), s.redact, e))
      && Strip(server.streams[i].frames) == Render(got)
  {
    assert server.States()[i] == server.Now().tasks[i].st;
    ExactlyOnce(server.start, server.trace, i);
  }

  /** A stream object is ended once if it is closed and not before, and is listed exactly while it is open. */
  lemma ObjectsCleanTeardown(server: Server, i: nat)
    requires server.Valid() && i < |server.streams|
    ensures var st := server.streams[i];
      && st.ends == (if st.closed then 1 else 0) && (st.closed ==> !st.heartbeat)
      && (forall j :: 0 <= j < |st.frames| && st.frames[j].DoneFrame? ==> j == |st.frames| - 1 && st.closed)
      && forall r :: st in ListenersOf(server.broker.listenersByRun, r) <==> r == st.runId && !st.closed
  {
    assert server.States()[i] == server.Now().tasks[i].st;
    CleanTeardown(server.start, server.trace, i);
    forall r ensures server.streams[i] in ListenersOf(server.broker.listenersByRun, r) <==>
                     r == server.streams[i].runId && !server.streams[i].closed
    {
      RegistryMember(server.broker.listenersByRun, server.streams, server.States(), r, server.streams[i]);
    }
  }
}
