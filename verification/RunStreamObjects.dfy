/**
 The broker and the stream handler as objects: a map of listener lists and the
 handler's variables, updated in place.  Every method is proved against the member
 function of `Stream` of the same name and the broker functions on maps, which are
 what the step system of `RunProtocol` is made of.
 */
module RunStreamObjects {
  import opened Wrappers
  import opened RunProtocol
  import opened RunProtocolSafety

  /** Unsubscribing several listeners of one run. */
  ghost function UnsubscribeAll<T>(m: map<string, seq<T>>, r: string, xs: seq<T>): map<string, seq<T>> {
    if xs == [] then m else Unsubscribe(UnsubscribeAll(m, r, xs[..|xs| - 1]), r, xs[|xs| - 1])
  }

  ghost predicate ListsOk<T>(m: map<string, seq<T>>) {
    forall r :: r in m ==> m[r] != [] && NoDup(m[r])
  }

  lemma {:induction false} UnsubscribeAllEffect<T>(m: map<string, seq<T>>, r: string, xs: seq<T>)
    requires ListsOk(m)
    ensures var m' := UnsubscribeAll(m, r, xs);
      && ListsOk(m')
      && (forall x :: x in ListenersOf(m', r) ==> x in ListenersOf(m, r) && x !in xs)
      && (forall x :: x in ListenersOf(m, r) && x !in xs ==> x in ListenersOf(m', r))
      && (forall q :: q != r ==> (q in m' <==> q in m) && ListenersOf(m', q) == ListenersOf(m, q))
    decreases |xs|
  {
    if xs != [] {
      var n := |xs| - 1;
      UnsubscribeAllEffect(m, r, xs[..n]);
      var m1 := UnsubscribeAll(m, r, xs[..n]);
      if r in m1 { WithoutNoDup(m1[r], xs[n]); }
      assert forall x :: x in xs <==> x in xs[..n] || x == xs[n];
    }
  }

  class RunEventBroker {
    var listenersByRun: map<string, seq<RunStream>>

    constructor ()
      ensures listenersByRun == map[] && Valid()
    {
      listenersByRun := map[];
    }

    ghost function Registered(): set<RunStream>
      reads this
    {
      set r, s | r in listenersByRun && s in listenersByRun[r] :: s
    }

    /** Listener lists are not empty and hold open streams of their run, each once. */
    ghost predicate Valid()
      reads this, Registered()
    {
      && ListsOk(listenersByRun)
      && forall r, s :: r in listenersByRun && s in listenersByRun[r] ==>
           s in Registered() && s.runId == r && s.broker == this && !s.closed
    }

    method AddListener(runId: string, s: RunStream)
      modifies this
      ensures listenersByRun == Subscribe(old(listenersByRun), runId, s)
    {
      var xs := if runId in listenersByRun then listenersByRun[runId] else [];
      if s !in xs {
        xs := xs + [s];
      }
      listenersByRun := listenersByRun[runId := xs];
    }

    method RemoveListener(runId: string, s: RunStream)
      modifies this
      ensures listenersByRun == Unsubscribe(old(listenersByRun), runId, s)
    {
      if runId !in listenersByRun {
        return;
      }
      var xs := Without(listenersByRun[runId], s);
      if xs == [] {
        listenersByRun := listenersByRun - {runId};
      } else {
        listenersByRun := listenersByRun[runId := xs];
      }
    }

    /**
     Deliver an event to every listener that was registered when the pass began.
     Each of them reacts as if it were alone; those that the event closes are gone
     from the list afterwards, and no other run is touched.
     */
    method Publish(runId: string, event: Event)
      requires Valid()
      modifies this, ListenersOf(listenersByRun, runId)
      ensures ListsOk(listenersByRun)
      ensures forall s :: s in old(ListenersOf(listenersByRun, runId)) ==> s.State() == old(s.State()).Deliver(event)
      ensures forall s :: s in old(ListenersOf(listenersByRun, runId)) ==>
                          (s in ListenersOf(listenersByRun, runId) <==> !s.closed)
      ensures forall s :: s in ListenersOf(listenersByRun, runId) ==> s in old(ListenersOf(listenersByRun, runId))
      ensures forall r :: r != runId ==>
                (r in listenersByRun <==> r in old(listenersByRun))
                && ListenersOf(listenersByRun, r) == old(ListenersOf(listenersByRun, r))
    {
      var snapshot := ListenersOf(listenersByRun, runId);
      ghost var gone: seq<RunStream> := [];
      var i := 0;
      while i < |snapshot|
        invariant 0 <= i <= |snapshot|
        invariant forall j :: 0 <= j < i ==> snapshot[j].State() == old(snapshot[j].State()).Deliver(event)
        invariant forall j :: i <= j < |snapshot| ==> snapshot[j].State() == old(snapshot[j].State())
        invariant listenersByRun == UnsubscribeAll(old(listenersByRun), runId, gone)
        invariant forall j :: 0 <= j < i ==> (snapshot[j] in gone <==> snapshot[j].closed)
        invariant forall s :: s in gone ==> s in snapshot[..i]
      {
        var s := snapshot[i];
        assert s in snapshot && s !in gone;
        s.Deliver(event);
        if s.closed {
          gone := gone + [s];
        }
        i := i + 1;
      }
      UnsubscribeAllEffect(old(listenersByRun), runId, gone);
    }
  }

  class RunStream {
    const runId: string
    const broker: RunEventBroker
    var closed: bool
    var replaying: bool
    var emittedIds: set<string>
    var liveBuffer: seq<Event>
    var seenEvents: seq<Event>
    var heartbeat: bool
    var frames: seq<Frame>
    var ends: nat

    /** The abstract value of the handler's variables. */
    function State(): Stream
      reads this
    {
      Stream(runId, closed, replaying, emittedIds, liveBuffer, seenEvents, heartbeat, frames, ends)
    }

    /** Subscribe first: nothing that is published from here on is missed. */
    constructor (runId: string, broker: RunEventBroker)
      modifies broker
      ensures State() == NewStream(runId) && this.broker == broker
      ensures broker.listenersByRun == Subscribe(old(broker.listenersByRun), runId, this)
    {
      this.runId, this.broker := runId, broker;
      closed, replaying, heartbeat := false, true, false;
      emittedIds, liveBuffer, seenEvents, frames, ends := {}, [], [], [], 0;
      new;
      broker.AddListener(runId, this);
    }

    method Write(f: Frame)
      modifies this`frames
      ensures State() == old(State()).Write(f)
    {
      frames := frames + [f];
    }

    method Teardown(final: Option<Frame>)
      modifies this, broker
      ensures State() == old(State()).Teardown(final)
      ensures broker.listenersByRun ==
              if old(closed) then old(broker.listenersByRun)
              else Unsubscribe(old(broker.listenersByRun), runId, this)
    {
      if closed {
        return;
      }
      closed := true;
      if final.Some? {
        Write(final.value);
      }
      broker.RemoveListener(runId, this);
      heartbeat := false;
      ends := ends + 1;
    }

    method EmitEvent(event: Event) returns (terminal: bool)
      modifies this, broker
      ensures (State(), terminal) == old(State()).EmitEvent(event)
      ensures broker.listenersByRun ==
              if closed && !old(closed) then Unsubscribe(old(broker.listenersByRun), runId, this)
              else old(broker.listenersByRun)
    {
      if closed {
        return false;
      }
      if event.id in emittedIds {
        return false;
      }
      emittedIds := emittedIds + {event.id};
      seenEvents := seenEvents + [event];
      Write(RunEventFrame(event));
      if event.providerCall {
        Write(CostFrame(seenEvents));
      }
      if IsTerminal(event.phase) {
        Teardown(Some(DoneFrame(event.phase)));
        return true;
      }
      return false;
    }

    method Deliver(event: Event)
      modifies this, broker
      ensures State() == old(State()).Deliver(event)
      ensures broker.listenersByRun ==
              if closed && !old(closed) then Unsubscribe(old(broker.listenersByRun), runId, this)
              else old(broker.listenersByRun)
    {
      if closed {
        return;
      }
      if replaying {
        liveBuffer := liveBuffer + [event];
        return;
      }
      var _ := EmitEvent(event);
    }

    method EmitAll(events: seq<Event>) returns (returned: bool)
      modifies this, broker
      ensures (State(), returned) == old(State()).EmitAll(events)
      ensures broker.listenersByRun ==
              if closed && !old(closed) then Unsubscribe(old(broker.listenersByRun), runId, this)
              else old(broker.listenersByRun)
    {
      var i := 0;
      while i < |events|
        invariant 0 <= i <= |events|
        invariant State().EmitAll(events[i..]) == old(State()).EmitAll(events)
        invariant closed == old(closed) && broker.listenersByRun == old(broker.listenersByRun)
      {
        if closed {
          return true;
        }
        assert events[i..][1..] == events[i + 1..];
        var terminal := EmitEvent(events[i]);
        if terminal {
          return true;
        }
        i := i + 1;
      }
      return false;
    }

    /** The code after the awaited read. */
    method Resume(persisted: seq<Event>)
      modifies this, broker
      ensures State() == old(State()).Resume(persisted)
      ensures broker.listenersByRun ==
              if closed && !old(closed) then Unsubscribe(old(broker.listenersByRun), runId, this)
              else old(broker.listenersByRun)
    {
      var returned := EmitAll(persisted);
      if returned {
        return;
      }
      replaying := false;
      var buffered := liveBuffer;
      liveBuffer := [];
      returned := EmitAll(buffered);
      if returned || closed {
        return;
      }
      heartbeat := true;
    }

    method Tick()
      modifies this`frames
      ensures State() == old(State()).Tick()
    {
      if closed {
        return;
      }
      Write(KeepAlive);
    }
  }

  // ---------------------------------------------------------------- the pass as steps

  function Deliveries(n: nat): seq<Step> {
    seq(n, i => DeliverNext)
  }

  /**
   Running a delivery pass to its end in the step system does to the streams what
   `RunEventBroker.Publish` does: every listener of the copy gets the event once,
   no other stream changes.
   */
  lemma {:induction false} WholePass(s: System)
    requires Inv(s) && s.pass.Delivering?
    ensures var steps := Deliveries(|s.pass.remaining| + 1);
      && Runs(s, steps)
      && var s' := Final(s, steps);
      && s'.pass.Idle? && |s'.tasks| == |s.tasks|
      && s'.logs == s.logs && s'.pending == s.pending
      && forall i: nat :: i < |s.tasks| ==>
           s'.tasks[i] == if i in s.pass.remaining then s.tasks[i].(st := s.tasks[i].st.Deliver(s.pass.event))
                          else s.tasks[i]
    decreases |s.pass.remaining|
  {
    var steps := Deliveries(|s.pass.remaining| + 1);
    if s.pass.remaining == [] {
      assert steps[1..] == [];
    } else {
      assert s.pass.remaining[0] in s.pass.remaining;
      StepInv(s, DeliverNext);
      var s1 := Apply(s, DeliverNext);
      WholePass(s1);
      assert steps[1..] == Deliveries(|s1.pass.remaining| + 1);
    }
  }
}
