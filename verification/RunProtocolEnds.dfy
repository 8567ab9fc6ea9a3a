/**
 How streams end: an event in one of the four phases that finish a run, and no other
 event, makes an open stream write its last frame and close, whether the event is
 replayed, flushed from the buffer or delivered live.
 */
module RunProtocolEnds {
  import opened Wrappers
  import opened RunProtocol
  import opened RunProtocolSafety

  /** What is written for one fresh event that reaches an open stream. */
  lemma FreshEventEmitted(st: Stream, e: Event)
    requires !st.closed && e.id !in st.emittedIds
    ensures var (st', terminal) := st.EmitEvent(e);
      && (terminal <==> e.phase in {Done, NeedsDecision, Failed, Aborted})
      && st'.closed == terminal && st'.ends == st.ends + (if terminal then 1 else 0)
      && st'.frames == st.frames + [RunEventFrame(e)]
           + (if e.providerCall then [CostFrame(st.seenEvents + [e])] else [])
           + (if e.phase in {Done, NeedsDecision, Failed, Aborted} then [DoneFrame(e.phase)] else [])
  {}

  // ---------------------------------------------------------------- what was received

  /**
   In every run: an event in a finishing phase that a client has received is its last
   one, the stream is closed and its last frame is `done` with that phase; and a `done`
   frame is the last frame, with the phase of the last received event, a finishing one.
   */
  lemma DoneExactlyAtTerminal(s0: System, steps: seq<Step>, i: nat)
    requires Init(s0) && Runs(s0, steps) && i < |Final(s0, steps).tasks|
    ensures var st := Final(s0, steps).tasks[i].st; var got := Received(st.frames);
      && (forall j :: 0 <= j < |got| && got[j].phase in {Done, NeedsDecision, Failed, Aborted} ==>
            && j == |got| - 1 && st.closed && st.ends == 1
            && st.frames != [] && st.frames[|st.frames| - 1] == DoneFrame(got[j].phase))
      && (forall j :: 0 <= j < |st.frames| && st.frames[j].DoneFrame? ==>
            && j == |st.frames| - 1 && got != [] && st.frames[j] == DoneFrame(got[|got| - 1].phase)
            && got[|got| - 1].phase in {Done, NeedsDecision, Failed, Aborted})
  {
    InitInv(s0);
    RunInv(s0, steps);
    assert TaskOk(Final(s0, steps), i);
    ReceivedIsSeen(Final(s0, steps).tasks[i].st);
  }

  // ---------------------------------------------------------------- live delivery

  /**
   In every run, delivering an event that an open live stream has not received: the
   client gets its frames, and the stream is closed, with a last `done` frame, exactly
   if the phase is a finishing one.
   */
  lemma LiveEventEnds(s0: System, steps: seq<Step>, i: nat)
    requires Init(s0) && Runs(s0, steps)
    requires var s := Final(s0, steps);
      && s.pass.Delivering? && s.pass.remaining != [] && s.pass.remaining[0] == i < |s.tasks|
      && s.tasks[i].stage.Finished? && !s.tasks[i].st.closed
      && s.pass.event.id !in IdSet(Received(s.tasks[i].st.frames))
    ensures var s := Final(s0, steps); var st, e := s.tasks[i].st, s.pass.event;
      var st' := Apply(s, DeliverNext).tasks[i].st;
      && (st'.closed <==> e.phase in {Done, NeedsDecision, Failed, Aborted})
      && st'.frames == st.frames + [RunEventFrame(e)]
           + (if e.providerCall then [CostFrame(Received(st.frames) + [e])] else [])
           + (if e.phase in {Done, NeedsDecision, Failed, Aborted} then [DoneFrame(e.phase)] else [])
  {
    InitInv(s0);
    RunInv(s0, steps);
    var s := Final(s0, steps);
    assert TaskOk(s, i);
    ReceivedIsSeen(s.tasks[i].st);
    FreshEventEmitted(s.tasks[i].st, s.pass.event);
  }

  // ---------------------------------------------------------------- replay and flush

  /** Position `k` holds the first event in a finishing phase. */
  ghost predicate FirstFinishing(es: seq<Event>, k: nat) {
    && k < |es| && es[k].phase in {Done, NeedsDecision, Failed, Aborted}
    && forall j :: 0 <= j < k ==> es[j].phase !in {Done, NeedsDecision, Failed, Aborted}
  }

  lemma {:induction false} FindFirst(es: seq<Event>, k: nat) returns (n: nat)
    requires k < |es| && es[k].phase in {Done, NeedsDecision, Failed, Aborted}
    ensures FirstFinishing(es, n)
    decreases |es|
  {
    if es[0].phase in {Done, NeedsDecision, Failed, Aborted} {
      n := 0;
    } else {
      n := FindFirst(es[1..], k - 1);
      n := n + 1;
      forall j | 0 < j < n ensures es[j].phase !in {Done, NeedsDecision, Failed, Aborted} {
        assert es[1..][j - 1] == es[j];
      }
    }
  }

  /** A loop ends the stream at the first event in a finishing phase, if the event is fresh then. */
  lemma {:induction false} LoopEndsAt(st: Stream, es: seq<Event>, k: nat)
    requires !st.closed && FirstFinishing(es, k) && es[k].id !in st.emittedIds
    requires forall j :: 0 <= j < k ==> es[j].id != es[k].id
    ensures var (st', returned) := st.EmitAll(es);
      returned && st'.closed && st'.frames != [] && st'.frames[|st'.frames| - 1] == DoneFrame(es[k].phase)
    decreases k
  {
    if k == 0 {
      FreshEventEmitted(st, es[0]);
    } else {
      EmitEventFields(st, es[0]);
      var s, rest := st.EmitEvent(es[0]).0, es[1..];
      assert es[0].phase !in {Done, NeedsDecision, Failed, Aborted} && rest[k - 1] == es[k];
      forall j | 0 <= j < k - 1
        ensures rest[j].phase !in {Done, NeedsDecision, Failed, Aborted} && rest[j].id != es[k].id
      {
        assert rest[j] == es[j + 1];
      }
      LoopEndsAt(s, rest, k - 1);
    }
  }

  /** Without such an event it leaves the stream open. */
  lemma {:induction false} LoopStaysOpen(st: Stream, es: seq<Event>)
    requires !st.closed && forall j :: 0 <= j < |es| ==> es[j].phase !in {Done, NeedsDecision, Failed, Aborted}
    ensures !st.EmitAll(es).1 && !st.EmitAll(es).0.closed
    decreases |es|
  {
    if es != [] {
      EmitEventFields(st, es[0]);
      assert es[0].phase !in {Done, NeedsDecision, Failed, Aborted};
      LoopStaysOpen(st.EmitEvent(es[0]).0, es[1..]);
    }
  }

  /** Two events of one log with the same id are in the same phase. */
  lemma SameIdSamePhase(log: seq<Event>, redact: Event -> Event, e: Event, f: Event)
    requires KeepsIdentity(redact) && DistinctIds(log) && FromLog(log, redact, e) && FromLog(log, redact, f) && e.id == f.id
    ensures e.phase == f.phase
  {
    var k :| 0 <= k < |log| && (f == log[k] || f == redact(log[k]));
    assert log[k] in log;
    FromLogUnique(log, redact, e, log[k]);
  }

  /** The first event in a finishing phase has an id that no event before it has. */
  lemma FirstIsFresh(log: seq<Event>, redact: Event -> Event, es: seq<Event>, k: nat)
    requires KeepsIdentity(redact) && DistinctIds(log) && FirstFinishing(es, k)
    requires forall e :: e in es ==> FromLog(log, redact, e)
    ensures forall j :: 0 <= j < k ==> es[j].id != es[k].id
  {
    forall j | 0 <= j < k ensures es[j].id != es[k].id {
      if es[j].id == es[k].id {
        SameIdSamePhase(log, redact, es[j], es[k]);
      }
    }
  }

  lemma ResumeReturns(st: Stream, persisted: seq<Event>)
    ensures var (s, returned) := st.EmitAll(persisted);
      var flushed := s.(replaying := false, liveBuffer := []).EmitAll(s.liveBuffer);
      (returned ==> st.Resume(persisted) == s) && (!returned && flushed.1 ==> st.Resume(persisted) == flushed.0)
  {}

  /** Going on after the read, with a finishing event among the replayed ones. */
  lemma ReplayEndsAt(st: Stream, persisted: seq<Event>, k: nat)
    requires !st.closed && st.emittedIds == {} && FirstFinishing(persisted, k)
    requires forall j :: 0 <= j < k ==> persisted[j].id != persisted[k].id
    ensures var st' := st.Resume(persisted);
      st'.closed && st'.frames != [] && st'.frames[|st'.frames| - 1] == DoneFrame(persisted[k].phase)
  {
    LoopEndsAt(st, persisted, k);
    ResumeReturns(st, persisted);
  }

  /** What a loop that stays open has emitted. */
  lemma OpenLoopIds(st: Stream, es: seq<Event>, x: string)
    requires StreamOk(st) && st.seenEvents == [] && forall j :: 0 <= j < |es| ==> es[j].id != x
    ensures x !in st.EmitAll(es).0.emittedIds
  {
    EmitAllSeen(st, es);
    EmitAllOk(st, es);
    var s := st.EmitAll(es).0;
    forall e | e in s.seenEvents ensures e.id != x {
      assert e in es;
    }
  }

  /** Going on after the read, with a finishing event among the buffered ones only. */
  lemma FlushEndsAt(st: Stream, persisted: seq<Event>, k: nat)
    requires StreamOk(st) && !st.closed && st.seenEvents == [] && FirstFinishing(st.liveBuffer, k)
    requires forall j :: 0 <= j < |persisted| ==>
               persisted[j].phase !in {Done, NeedsDecision, Failed, Aborted} && persisted[j].id != st.liveBuffer[k].id
    requires forall j :: 0 <= j < k ==> st.liveBuffer[j].id != st.liveBuffer[k].id
    ensures var st' := st.Resume(persisted);
      st'.closed && st'.frames != [] && st'.frames[|st'.frames| - 1] == DoneFrame(st.liveBuffer[k].phase)
  {
    LoopStaysOpen(st, persisted);
    EmitAllFields(st, persisted);
    OpenLoopIds(st, persisted, st.liveBuffer[k].id);
    LoopEndsAt(st.EmitAll(persisted).0.(replaying := false, liveBuffer := []), st.liveBuffer, k);
    ResumeReturns(st, persisted);
  }

  /** Going on after the read, with a finishing event among the replayed or buffered ones. */
  lemma ResumeEndsAt(st: Stream, persisted: seq<Event>, k: nat)
    requires StreamOk(st) && !st.closed && st.seenEvents == [] && FirstFinishing(persisted + st.liveBuffer, k)
    requires var all := persisted + st.liveBuffer; forall j :: 0 <= j < k ==> all[j].id != all[k].id
    ensures var all := persisted + st.liveBuffer; var st' := st.Resume(persisted);
      st'.closed && st'.frames != [] && st'.frames[|st'.frames| - 1] == DoneFrame(all[k].phase)
  {
    var all, n := persisted + st.liveBuffer, |persisted|;
    if k < n {
      forall j | 0 <= j <= k ensures persisted[j] == all[j] {}
      ReplayEndsAt(st, persisted, k);
    } else {
      forall j | 0 <= j < n ensures persisted[j] == all[j] {}
      forall j | 0 <= j <= k - n ensures st.liveBuffer[j] == all[n + j] {}
      FlushEndsAt(st, persisted, k - n);
    }
  }

  lemma ResumeStaysOpen(st: Stream, persisted: seq<Event>)
    requires !st.closed
    requires var all := persisted + st.liveBuffer; forall j :: 0 <= j < |all| ==> all[j].phase !in {Done, NeedsDecision, Failed, Aborted}
    ensures !st.Resume(persisted).closed
  {
    var all := persisted + st.liveBuffer;
    forall j | 0 <= j < |persisted| ensures persisted[j] == all[j] {}
    forall j | 0 <= j < |st.liveBuffer| ensures st.liveBuffer[j] == all[|persisted| + j] {}
    LoopStaysOpen(st, persisted);
    EmitAllFields(st, persisted);
    LoopStaysOpen(st.EmitAll(persisted).0.(replaying := false, liveBuffer := []), st.liveBuffer);
  }

  lemma ResumedFromLog(s: System, i: nat)
    requires Inv(s) && i < |s.tasks| && s.tasks[i].stage.HasSnapshot?
    ensures forall e :: e in s.tasks[i].stage.persisted + s.tasks[i].st.liveBuffer ==> FromLog(s.Log(s.tasks[i].st.runId), s.redact, e)
  {
    assert TaskOk(s, i);
    var log, persisted := s.Log(s.tasks[i].st.runId), s.tasks[i].stage.persisted;
    forall e | e in persisted ensures FromLog(log, s.redact, e) {
      var k :| 0 <= k < |persisted| && persisted[k] == e;
      assert log[k] == e;
    }
  }

  /**
   In every run, when the handler of an open stream goes on after its read: it is closed
   exactly if one of the replayed or buffered events is in a finishing phase, and its last
   frame is then `done` with the phase of the first such event.
   */
  lemma ResumeEnds(s0: System, steps: seq<Step>, i: nat)
    requires Init(s0) && Runs(s0, steps)
    requires var s := Final(s0, steps); i < |s.tasks| && s.tasks[i].stage.HasSnapshot? && !s.tasks[i].st.closed
    ensures var s := Final(s0, steps);
      var all := s.tasks[i].stage.persisted + s.tasks[i].st.liveBuffer;
      var st' := Apply(s, ResumeStream(i)).tasks[i].st;
      && (st'.closed <==> exists k :: 0 <= k < |all| && all[k].phase in {Done, NeedsDecision, Failed, Aborted})
      && (forall k: nat :: FirstFinishing(all, k) ==>
            st'.frames != [] && st'.frames[|st'.frames| - 1] == DoneFrame(all[k].phase))
  {
    InitInv(s0);
    RunInv(s0, steps);
    var s := Final(s0, steps);
    assert TaskOk(s, i);
    var st, persisted := s.tasks[i].st, s.tasks[i].stage.persisted;
    var all := persisted + st.liveBuffer;
    ResumedFromLog(s, i);
    forall k: nat | FirstFinishing(all, k)
      ensures var st' := st.Resume(persisted); st'.closed && st'.frames != [] && st'.frames[|st'.frames| - 1] == DoneFrame(all[k].phase)
    {
      FirstIsFresh(s.Log(st.runId), s.redact, all, k);
      ResumeEndsAt(st, persisted, k);
    }
    if k: nat :| k < |all| && all[k].phase in {Done, NeedsDecision, Failed, Aborted} {
      var n := FindFirst(all, k);
    } else {
      ResumeStaysOpen(st, persisted);
    }
  }
}
