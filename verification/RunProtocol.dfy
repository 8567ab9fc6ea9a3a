/**
 The run-event streaming protocol: events are persisted, later published to the
 listeners of their run, and every open stream replays the persisted events of its
 run before it goes live.

 A `Stream` is the state that the handler of one client keeps; its member functions
 are the handler's inner functions.  A `System` is the event store, the broker and
 all handlers; a `Step` is one piece of code that runs without interruption, except
 that a delivery pass of the broker is cut into one step per listener, so that any
 other step may fall between two deliveries of the same pass.
 */
module RunProtocol {
  import opened Wrappers

  datatype Phase =
    | ChatReceived | Triage | ContextBuilding | Planning | SkepticReview | Crucible
    | DagCompilation | Executing | Validating | Healing | Synthesizing
    | Done | NeedsDecision | Failed | Aborted

  predicate IsTerminal(p: Phase) {
    p.Done? || p.NeedsDecision? || p.Failed? || p.Aborted?
  }

  /** `providerCall` says whether the payload holds a provider-call object. */
  datatype Event = Event(id: string, runId: string, phase: Phase, payload: string, providerCall: bool)

  /** A cost frame is the aggregate of the events it names. */
  datatype Frame =
    | RunEventFrame(event: Event)
    | CostFrame(seen: seq<Event>)
    | DoneFrame(phase: Phase)
    | KeepAlive

  function Ids(es: seq<Event>): (r: seq<string>)
    ensures |r| == |es| && forall i :: 0 <= i < |es| ==> r[i] == es[i].id
  {
    seq(|es|, i requires 0 <= i < |es| => es[i].id)
  }

  // ---------------------------------------------------------------- one stream

  datatype Stream = Stream(
    runId: string,
    closed: bool,
    replaying: bool,
    emittedIds: set<string>,
    liveBuffer: seq<Event>,
    seenEvents: seq<Event>,
    heartbeat: bool,
    frames: seq<Frame>,
    ends: nat)
  {
    function Write(f: Frame): Stream {
      this.(frames := frames + [f])
    }

    function Teardown(final: Option<Frame>): Stream {
      if closed then this
      else
        var s := this.(closed := true);
        var s := if final.Some? then s.Write(final.value) else s;
        s.(heartbeat := false, ends := ends + 1)
    }

    /** The second component is true when the event ended the stream. */
    function EmitEvent(e: Event): (Stream, bool) {
      if closed || e.id in emittedIds then (this, false)
      else
        var s := this.(emittedIds := emittedIds + {e.id}, seenEvents := seenEvents + [e]);
        var s := s.Write(RunEventFrame(e));
        var s := if e.providerCall then s.Write(CostFrame(s.seenEvents)) else s;
        if IsTerminal(e.phase) then (s.Teardown(Some(DoneFrame(e.phase))), true)
        else (s, false)
    }

    /** The listener that the stream registers with the broker. */
    function Deliver(e: Event): Stream {
      if closed then this
      else if replaying then this.(liveBuffer := liveBuffer + [e])
      else EmitEvent(e).0
    }

    /** A replay loop; the second component is true when the loop returned early. */
    function EmitAll(es: seq<Event>): (Stream, bool)
      decreases |es|
    {
      if es == [] then (this, false)
      else if closed then (this, true)
      else
        var (s, terminal) := EmitEvent(es[0]);
        if terminal then (s, true) else s.EmitAll(es[1..])
    }

    /** Everything after the awaited read of the persisted events. */
    function Resume(persisted: seq<Event>): Stream {
      var (s, returned) := EmitAll(persisted);
      if returned then s
      else
        var (t, returned') := s.(replaying := false, liveBuffer := []).EmitAll(s.liveBuffer);
        if returned' || t.closed then t else t.(heartbeat := true)
    }

    function Tick(): Stream {
      if closed then this else Write(KeepAlive)
    }
  }

  function NewStream(runId: string): Stream {
    Stream(runId, false, true, {}, [], [], false, [], 0)
  }

  // ---------------------------------------------------------------- the broker

  type Listeners = map<string, seq<nat>>

  function Without<T(==)>(xs: seq<T>, x: T): (r: seq<T>)
    ensures forall y :: y in r ==> y in xs && y != x
    ensures forall y :: y in xs && y != x ==> y in r
  {
    if xs == [] then []
    else if xs[0] == x then Without(xs[1..], x)
    else [xs[0]] + Without(xs[1..], x)
  }

  function ListenersOf<T>(m: map<string, seq<T>>, runId: string): seq<T> {
    if runId in m then m[runId] else []
  }

  function Subscribe<T(==)>(m: map<string, seq<T>>, runId: string, x: T): map<string, seq<T>> {
    var xs := ListenersOf(m, runId);
    m[runId := if x in xs then xs else xs + [x]]
  }

  function Unsubscribe<T(==)>(m: map<string, seq<T>>, runId: string, x: T): map<string, seq<T>> {
    if runId !in m then m
    else
      var xs := Without(m[runId], x);
      if xs == [] then m - {runId} else m[runId := xs]
  }

  // ---------------------------------------------------------------- the system

  /** Where the handler of a stream is suspended. */
  datatype Stage = Reading | HasSnapshot(persisted: seq<Event>) | Finished

  datatype Task = Task(stage: Stage, st: Stream)

  /** The broker's current delivery pass, over a copy of the listeners. */
  datatype Pass = Idle | Delivering(runId: string, index: nat, event: Event, remaining: seq<nat>)

  datatype Ref = Ref(runId: string, index: nat)

  /**
   `logs` holds the persisted events of each run in insertion order, `pending` the
   persisted events whose writer has not published them yet, and `redact` the
   redaction that is applied to an event when it is published.
   */
  datatype System = System(
    redact: Event -> Event,
    logs: map<string, seq<Event>>,
    ids: set<string>,
    pending: set<Ref>,
    listeners: Listeners,
    pass: Pass,
    tasks: seq<Task>)
  {
    function Log(runId: string): seq<Event> {
      if runId in logs then logs[runId] else []
    }

    /** Replace stream `i`; a stream that was closed by the change is unsubscribed. */
    function Update(i: nat, stage: Stage, st: Stream): System
      requires i < |tasks|
    {
      var s := this.(tasks := tasks[i := Task(stage, st)]);
      if st.closed && !tasks[i].st.closed
      then s.(listeners := Unsubscribe(listeners, tasks[i].st.runId, i))
      else s
    }
  }

  datatype Step =
    | Persist(event: Event)
    | StartPublish(ref: Ref)
    | DeliverNext
    | Open(runId: string)
    | ReadSnapshot(sid: nat)
    | ReadFails(sid: nat)
    | ResumeStream(sid: nat)
    | ClientClose(sid: nat)
    | HeartbeatTick(sid: nat)

  predicate Enabled(s: System, step: Step) {
    match step
    case Persist(e) => true
    case StartPublish(ref) => s.pass.Idle? && ref in s.pending && ref.index < |s.Log(ref.runId)|
    case DeliverNext => s.pass.Delivering? && (s.pass.remaining != [] ==> s.pass.remaining[0] < |s.tasks|)
    case Open(r) => true
    case ReadSnapshot(i) => i < |s.tasks| && s.tasks[i].stage.Reading?
    case ReadFails(i) => i < |s.tasks| && s.tasks[i].stage.Reading?
    case ResumeStream(i) => i < |s.tasks| && s.tasks[i].stage.HasSnapshot?
    case ClientClose(i) => i < |s.tasks|
    case HeartbeatTick(i) => i < |s.tasks| && s.tasks[i].st.heartbeat
  }

  function Apply(s: System, step: Step): System
    requires Enabled(s, step)
  {
    match step
    case Persist(e) =>
      // A duplicate id is rejected by the store: nothing is persisted or published.
      if e.id in s.ids then s
      else s.(logs := s.logs[e.runId := s.Log(e.runId) + [e]],
              ids := s.ids + {e.id},
              pending := s.pending + {Ref(e.runId, |s.Log(e.runId)|)})
    case StartPublish(ref) =>
      s.(pending := s.pending - {ref},
         pass := Delivering(ref.runId, ref.index, s.redact(s.Log(ref.runId)[ref.index]),
                            ListenersOf(s.listeners, ref.runId)))
    case DeliverNext =>
      if s.pass.remaining == [] then s.(pass := Idle)
      else
        var i := s.pass.remaining[0];
        s.Update(i, s.tasks[i].stage, s.tasks[i].st.Deliver(s.pass.event))
         .(pass := s.pass.(remaining := s.pass.remaining[1..]))
    case Open(r) =>
      s.(tasks := s.tasks + [Task(Reading, NewStream(r))],
         listeners := Subscribe(s.listeners, r, |s.tasks|))
    case ReadSnapshot(i) =>
      s.Update(i, HasSnapshot(s.Log(s.tasks[i].st.runId)), s.tasks[i].st)
    case ReadFails(i) => s.Update(i, Finished, s.tasks[i].st.Teardown(None))
    case ResumeStream(i) => s.Update(i, Finished, s.tasks[i].st.Resume(s.tasks[i].stage.persisted))
    case ClientClose(i) => s.Update(i, s.tasks[i].stage, s.tasks[i].st.Teardown(None))
    case HeartbeatTick(i) => s.Update(i, s.tasks[i].stage, s.tasks[i].st.Tick())
  }

  ghost predicate KeepsIdentity(redact: Event -> Event) {
    forall e :: redact(e).id == e.id && redact(e).runId == e.runId && redact(e).phase == e.phase
  }

  ghost predicate Init(s: System) {
    && KeepsIdentity(s.redact)
    && s.logs == map[] && s.ids == {} && s.pending == {} && s.listeners == map[]
    && s.pass == Idle && s.tasks == []
  }

  predicate Runs(s: System, steps: seq<Step>)
    decreases |steps|
  {
    steps == [] || (Enabled(s, steps[0]) && Runs(Apply(s, steps[0]), steps[1..]))
  }

  function Final(s: System, steps: seq<Step>): System
    requires Runs(s, steps)
    decreases |steps|
  {
    if steps == [] then s else Final(Apply(s, steps[0]), steps[1..])
  }
}
