/** What a send answers, exactly. */
module SendAnswers {
  // Over every run of the queue: when a call answers true and when it answers false,
  // where its message goes, and what reaches the wire.

  import opened AsyncWriters

  // ---------------------------------------------------------------- the states of a run

  /** The state before step `i`. */
  function At(s: State, steps: seq<Step>, i: nat): State
    requires IsRun(s, steps) && i <= |steps|
    decreases |steps|
  {
    if i == 0 then s else At(After(s, steps[0]), steps[1..], i - 1)
  }

  lemma {:induction false} AtStep(s: State, steps: seq<Step>, i: nat)
    requires IsRun(s, steps) && i < |steps|
    ensures Enabled(At(s, steps, i), steps[i]) && At(s, steps, i + 1) == After(At(s, steps, i), steps[i])
    decreases |steps|
  {
    hide After, Enabled;
    if i > 0 {
      AtStep(After(s, steps[0]), steps[1..], i - 1);
    }
  }

  lemma {:induction false} AtEnd(s: State, steps: seq<Step>)
    requires IsRun(s, steps)
    ensures At(s, steps, |steps|) == AfterAll(s, steps)
    decreases |steps|
  {
    hide After, Enabled;
    if steps != [] {
      AtEnd(After(s, steps[0]), steps[1..]);
    }
  }

  lemma {:induction false} AtInv(s: State, steps: seq<Step>, i: nat)
    requires Inv(s) && IsRun(s, steps) && i <= |steps|
    ensures Inv(At(s, steps, i))
    decreases i
  {
    hide Exclusive, FlagFirst, InOrder, Honest, After, Enabled;
    if i > 0 {
      AtStep(s, steps, i - 1);
      AtInv(s, steps, i - 1);
      var before := At(s, steps, i - 1);
      StepKeepsExclusive(before, steps[i - 1]);
      StepKeepsFlagFirst(before, steps[i - 1]);
      StepKeepsInOrder(before, steps[i - 1]);
      StepKeepsHonest(before, steps[i - 1]);
    }
  }

  // ---------------------------------------------------------------- the flag

  /** Some stopper raised the flag before step `i`. */
  ghost predicate Raised(steps: seq<Step>, i: nat)
  {
    exists k :: 0 <= k < i && k < |steps| && steps[k].MarkStopped?
  }

  /** The flag is up exactly from the first time on that a stopper raised it. */
  lemma {:induction false} FlagIsRaised(steps: seq<Step>, i: nat)
    requires IsRun(FRESH, steps) && i <= |steps|
    ensures At(FRESH, steps, i).stopped <==> Raised(steps, i)
    decreases i
  {
    if i > 0 {
      AtStep(FRESH, steps, i - 1);
      FlagIsRaised(steps, i - 1);
      var e := steps[i - 1];
      FlagStep(At(FRESH, steps, i - 1), e);
      if Raised(steps, i) && !e.MarkStopped? {
        var k :| 0 <= k < i && k < |steps| && steps[k].MarkStopped?;
        assert k < i - 1;
      }
    }
  }

  lemma FlagStep(s: State, e: Step)
    requires Enabled(s, e)
    ensures After(s, e).stopped <==> s.stopped || e.MarkStopped?
  {
    hide Enabled, After;
    if OfSender(e) {
      SenderStep(s, e);
    } else {
      OtherStep(s, e);
    }
  }

  // ---------------------------------------------------------------- the course of one call

  ghost predicate CalledWith(steps: seq<Step>, i: nat, t: nat, payload: Payload)
  {
    exists c :: 0 <= c < i && c < |steps| && steps[c] == Call(t, payload)
  }

  /** The call found the flag down at its check. */
  ghost predicate Passed(steps: seq<Step>, i: nat, t: nat, k: nat)
    requires IsRun(FRESH, steps) && i <= |steps|
  {
    k < i && steps[k] == CheckStopped(t) && !Raised(steps, k)
  }

  /** The call found the flag up at its check. */
  ghost predicate Refused(steps: seq<Step>, i: nat, t: nat)
    requires IsRun(FRESH, steps) && i <= |steps|
  {
    exists k :: 0 <= k < i && steps[k] == CheckStopped(t) && Raised(steps, k)
  }

  /** The call came to the queue at step `j`, which had room or not. */
  ghost predicate Offered(steps: seq<Step>, i: nat, t: nat, payload: Payload, ok: bool)
    requires IsRun(FRESH, steps) && i <= |steps|
  {
    exists k, j :: 0 <= k < j < i && Passed(steps, i, t, k) && Enqueued(steps, t, payload, ok, j)
  }

  /** With fewer than 64 messages in the queue the call's own goes to the end; otherwise the queue stays as it is. */
  ghost predicate Enqueued(steps: seq<Step>, t: nat, payload: Payload, ok: bool, j: nat)
    requires IsRun(FRESH, steps) && j < |steps|
  {
    && steps[j] == Enqueue(t)
    && (ok <==> |At(FRESH, steps, j).queue| < 64)
    && At(FRESH, steps, j + 1).queue == At(FRESH, steps, j).queue + if ok then [Msg(t, payload)] else []
  }

  /** What has happened to a call before step `i`, by how far it has come. */
  ghost predicate Course(steps: seq<Step>, i: nat, t: nat)
    requires IsRun(FRESH, steps) && i <= |steps|
  {
    var senders := At(FRESH, steps, i).senders;
    t in senders ==>
      match senders[t]
      case Called(p) => CalledWith(steps, i, t, p)
      case Locked(p) => CalledWith(steps, i, t, p)
      case Checked(p) => CalledWith(steps, i, t, p) && exists k :: 0 <= k && Passed(steps, i, t, k)
      case Decided(p, ok) => CalledWith(steps, i, t, p) && ((!ok && Refused(steps, i, t)) || Offered(steps, i, t, p, ok))
      case Returned(p, ok) => CalledWith(steps, i, t, p) && ((!ok && Refused(steps, i, t)) || Offered(steps, i, t, p, ok))
  }

  lemma CourseStays(steps: seq<Step>, i: nat, t: nat)
    requires IsRun(FRESH, steps) && i < |steps| && Course(steps, i, t)
    requires t in At(FRESH, steps, i + 1).senders ==>
               t in At(FRESH, steps, i).senders && At(FRESH, steps, i + 1).senders[t] == At(FRESH, steps, i).senders[t]
    ensures Course(steps, i + 1, t)
  {
    hide At, IsRun;
    var senders := At(FRESH, steps, i).senders;
    if t in senders {
      hide Enqueued, Raised;
      var p := senders[t].payload;
      if CalledWith(steps, i, t, p) {
        CalledStays(steps, i, t, p);
      }
      if k :| 0 <= k && Passed(steps, i, t, k) {
        assert Passed(steps, i + 1, t, k);
      }
      if Refused(steps, i, t) {
        RefusedStays(steps, i, t);
      }
      forall ok | Offered(steps, i, t, p, ok) ensures Offered(steps, i + 1, t, p, ok) {
        OfferedStays(steps, i, t, p, ok);
      }
    }
  }

  lemma CalledStays(steps: seq<Step>, i: nat, t: nat, p: Payload)
    requires CalledWith(steps, i, t, p)
    ensures CalledWith(steps, i + 1, t, p)
  {
  }

  lemma RefusedStays(steps: seq<Step>, i: nat, t: nat)
    requires IsRun(FRESH, steps) && i < |steps| && Refused(steps, i, t)
    ensures Refused(steps, i + 1, t)
  {
    hide Raised, IsRun;
  }

  lemma OfferedStays(steps: seq<Step>, i: nat, t: nat, p: Payload, ok: bool)
    requires IsRun(FRESH, steps) && i < |steps| && Offered(steps, i, t, p, ok)
    ensures Offered(steps, i + 1, t, p, ok)
  {
    hide Raised, IsRun, Enqueued;
    var k, j :| 0 <= k < j < i && Passed(steps, i, t, k) && Enqueued(steps, t, p, ok, j);
    assert Passed(steps, i + 1, t, k);
  }

  lemma DecidedStays(steps: seq<Step>, i: nat, t: nat, p: Payload, ok: bool)
    requires IsRun(FRESH, steps) && i < |steps| && CalledWith(steps, i, t, p)
    requires (!ok && Refused(steps, i, t)) || Offered(steps, i, t, p, ok)
    ensures CalledWith(steps, i + 1, t, p) && ((!ok && Refused(steps, i + 1, t)) || Offered(steps, i + 1, t, p, ok))
  {
    hide IsRun;
    CalledStays(steps, i, t, p);
    if Refused(steps, i, t) {
      RefusedStays(steps, i, t);
    }
    if Offered(steps, i, t, p, ok) {
      OfferedStays(steps, i, t, p, ok);
    }
  }

  predicate OfSender(e: Step)
  {
    e.Call? || e.LockRead? || e.CheckStopped? || e.Enqueue? || e.UnlockRead?
  }

  predicate OfStopper(e: Step)
  {
    e.Stop? || e.LockWrite? || e.MarkStopped? || e.CloseOnce? || e.UnlockWrite? || e.CloseControl? || e.StopReturns?
  }

  /** Steps of others leave a call where it is. */
  lemma OthersStep(s: State, e: Step, t: nat)
    requires Enabled(s, e) && !(OfSender(e) && e.t == t)
    ensures t in After(s, e).senders <==> t in s.senders
    ensures t in s.senders ==> After(s, e).senders[t] == s.senders[t]
  {
    hide Enabled, After;
    if OfSender(e) {
      SenderStep(s, e);
    } else {
      OtherStep(s, e);
    }
  }

  lemma SenderStep(s: State, e: Step)
    requires Enabled(s, e) && OfSender(e)
    ensures forall t :: t != e.t ==> (t in After(s, e).senders <==> t in s.senders)
                                     && (t in s.senders ==> After(s, e).senders[t] == s.senders[t])
    ensures After(s, e).stopped == s.stopped && After(s, e).loop == s.loop
  {
    hide WriteLocked;
  }

  lemma OtherStep(s: State, e: Step)
    requires Enabled(s, e) && !OfSender(e)
    ensures After(s, e).senders == s.senders
    ensures After(s, e).stopped <==> s.stopped || e.MarkStopped?
  {
    hide WriteLocked, ReadLocked, LoopEnded, WireOf;
    if OfStopper(e) {
      hide Enabled, After;
      StopperStep(s, e);
    }
  }

  lemma StopperStep(s: State, e: Step)
    requires Enabled(s, e) && OfStopper(e)
    ensures After(s, e).senders == s.senders && After(s, e).loop == s.loop
    ensures After(s, e).stopped <==> s.stopped || e.MarkStopped?
  {
    hide Enabled, After;
    if e.MarkStopped? || e.CloseOnce? {
      FlagOrClose(s, e);
    } else {
      PlainStopperStep(s, e);
    }
  }

  lemma FlagOrClose(s: State, e: Step)
    requires Enabled(s, e) && (e.MarkStopped? || e.CloseOnce?)
    ensures After(s, e).senders == s.senders && After(s, e).loop == s.loop
    ensures After(s, e).stopped <==> s.stopped || e.MarkStopped?
  {
  }

  lemma PlainStopperStep(s: State, e: Step)
    requires Enabled(s, e) && (e.Stop? || e.LockWrite? || e.UnlockWrite? || e.CloseControl? || e.StopReturns?)
    ensures After(s, e).senders == s.senders && After(s, e).loop == s.loop && After(s, e).stopped == s.stopped
  {
    hide WriteLocked, ReadLocked, LoopEnded;
  }

  /** A call is made, or gets the lock. */
  lemma EnterStep(steps: seq<Step>, i: nat, t: nat)
    requires IsRun(FRESH, steps) && i < |steps| && Course(steps, i, t)
    requires steps[i] == LockRead(t) || (steps[i].Call? && steps[i].t == t)
    ensures Course(steps, i + 1, t)
  {
    hide IsRun, At, WriteLocked, Enqueued, Raised;
    AtStep(FRESH, steps, i);
    if steps[i].Call? {
      assert CalledWith(steps, i + 1, t, steps[i].payload);
    } else {
      CalledStays(steps, i, t, At(FRESH, steps, i).senders[t].payload);
    }
  }

  lemma CheckStep(steps: seq<Step>, i: nat, t: nat)
    requires IsRun(FRESH, steps) && i < |steps| && Course(steps, i, t) && steps[i] == CheckStopped(t)
    ensures Course(steps, i + 1, t)
  {
    hide IsRun, At, Enqueued, Raised;
    AtStep(FRESH, steps, i);
    FlagIsRaised(steps, i);
    CalledStays(steps, i, t, At(FRESH, steps, i).senders[t].payload);
    if At(FRESH, steps, i).stopped {
      assert Refused(steps, i + 1, t);
    } else {
      assert Passed(steps, i + 1, t, i);
    }
  }

  lemma EnqueueStep(steps: seq<Step>, i: nat, t: nat)
    requires IsRun(FRESH, steps) && i < |steps| && Course(steps, i, t) && steps[i] == Enqueue(t)
    ensures Course(steps, i + 1, t)
  {
    hide IsRun, At, Raised, After, Exclusive, InOrder, Honest, FlagFirst;
    AtStep(FRESH, steps, i);
    FreshIsGood();
    AtInv(FRESH, steps, i);
    var s := At(FRESH, steps, i);
    var p, ok := s.senders[t].payload, |s.queue| < 64;
    var k :| 0 <= k && Passed(steps, i, t, k);
    assert Passed(steps, i + 1, t, k);
    QueueStep(s, t);
    assert Enqueued(steps, t, p, ok, i);
    CalledStays(steps, i, t, p);
    assert Offered(steps, i + 1, t, p, ok);
  }

  lemma LeaveStep(steps: seq<Step>, i: nat, t: nat)
    requires IsRun(FRESH, steps) && i < |steps| && Course(steps, i, t) && steps[i] == UnlockRead(t)
    ensures Course(steps, i + 1, t)
  {
    hide IsRun, At, Enqueued, Raised;
    AtStep(FRESH, steps, i);
    var call := At(FRESH, steps, i).senders[t];
    DecidedStays(steps, i, t, call.payload, call.ok);
  }

  lemma OwnStep(steps: seq<Step>, i: nat, t: nat)
    requires IsRun(FRESH, steps) && i < |steps| && Course(steps, i, t) && OfSender(steps[i]) && steps[i].t == t
    ensures Course(steps, i + 1, t)
  {
    hide Course, IsRun;
    if steps[i].CheckStopped? {
      CheckStep(steps, i, t);
    } else if steps[i].Enqueue? {
      EnqueueStep(steps, i, t);
    } else if steps[i].UnlockRead? {
      LeaveStep(steps, i, t);
    } else {
      EnterStep(steps, i, t);
    }
  }

  lemma QueueStep(s: State, t: nat)
    requires Enabled(s, Enqueue(t)) && FlagFirst(s)
    ensures var ok := |s.queue| < 64;
            && After(s, Enqueue(t)).queue == s.queue + (if ok then [Msg(t, s.senders[t].payload)] else [])
            && After(s, Enqueue(t)).senders[t] == Decided(s.senders[t].payload, ok)
  {
    assert !s.closed;
    assert s.queue + [] == s.queue;
  }

  lemma {:induction false} EveryCourse(steps: seq<Step>, i: nat, t: nat)
    requires IsRun(FRESH, steps) && i <= |steps|
    ensures Course(steps, i, t)
    decreases i
  {
    hide Course, Enabled, After;
    if i == 0 {
      NoCourse(steps, t);
    } else {
      var e := steps[i - 1];
      EveryCourse(steps, i - 1, t);
      AtStep(FRESH, steps, i - 1);
      if OfSender(e) && e.t == t {
        OwnStep(steps, i - 1, t);
      } else {
        OthersStep(At(FRESH, steps, i - 1), e, t);
        CourseStays(steps, i - 1, t);
      }
    }
  }

  lemma NoCourse(steps: seq<Step>, t: nat)
    requires IsRun(FRESH, steps)
    ensures Course(steps, 0, t)
  {
  }

  /**
   The answer of every call in every run. A call that answers was made with its payload,
   and either found the flag up at its check and answers false, or came to the queue: it
   answers true, with its message at the end of the queue, if fewer than 64 messages
   were in it, and false otherwise.
   */
  lemma AnswersExactly(steps: seq<Step>, t: nat)
    requires IsRun(FRESH, steps) && t in AfterAll(FRESH, steps).senders
    requires AfterAll(FRESH, steps).senders[t].Decided? || AfterAll(FRESH, steps).senders[t].Returned?
    ensures var call := AfterAll(FRESH, steps).senders[t];
            && CalledWith(steps, |steps|, t, call.payload)
            && ((!call.ok && Refused(steps, |steps|, t)) || Offered(steps, |steps|, t, call.payload, call.ok))
  {
    hide IsRun, AfterAll, At;
    EveryCourse(steps, |steps|, t);
    AtEnd(FRESH, steps);
  }

  // ---------------------------------------------------------------- what reaches the wire

  /** Messages in order: the bytes of each, and nothing for one that carries none. */
  lemma WireIs(msgs: seq<Msg>, t: nat, text: string)
    ensures WireOfAll([]) == []
    ensures WireOfAll(msgs + [Msg(t, Bytes(text))]) == WireOfAll(msgs) + [text]
    ensures WireOfAll(msgs + [Msg(t, Nothing)]) == WireOfAll(msgs)
  {
    WireOfOneMore(msgs, Msg(t, Bytes(text)));
    WireOfOneMore(msgs, Msg(t, Nothing));
    assert WireOfAll(msgs) + [] == WireOfAll(msgs);
  }

  ghost predicate NoFailure(steps: seq<Step>)
  {
    forall i :: 0 <= i < |steps| ==> !steps[i].WriteFails?
  }

  lemma {:induction false} NeverFailed(s: State, steps: seq<Step>)
    requires IsRun(s, steps) && NoFailure(steps) && !s.loop.Failed?
    ensures !AfterAll(s, steps).loop.Failed?
    decreases |steps|
  {
    if steps != [] {
      LoopStep(s, steps[0]);
      hide Enabled, After;
      NeverFailed(After(s, steps[0]), steps[1..]);
    }
  }

  lemma LoopStep(s: State, e: Step)
    requires Enabled(s, e) && !e.WriteFails? && !s.loop.Failed?
    ensures !After(s, e).loop.Failed?
  {
    hide WriteLocked, ReadLocked;
    if OfSender(e) {
      hide Enabled, After;
      SenderStep(s, e);
    } else if OfStopper(e) {
      hide Enabled, After;
      StopperStep(s, e);
    }
  }

  /** Without a failed write, everything that was accepted is on the wire, in order, when a stop returns. */
  lemma AllWritten(steps: seq<Step>, p: nat)
    requires IsRun(FRESH, steps) && NoFailure(steps)
    requires p in AfterAll(FRESH, steps).stoppers && AfterAll(FRESH, steps).stoppers[p].StopReturned?
    ensures AfterAll(FRESH, steps).wire == WireOfAll(AfterAll(FRESH, steps).accepted)
  {
    hide Exclusive, Honest, AfterAll, IsRun, WireOfAll;
    FreshIsGood();
    RunKeepsInv(FRESH, steps);
    NeverFailed(FRESH, steps);
    WireIsPrefix(steps);
  }

  // ---------------------------------------------------------------- one send, a stop, and a send after it

  lemma {:induction false} OneMore(s: State, steps: seq<Step>, e: Step)
    requires IsRun(s, steps) && Enabled(AfterAll(s, steps), e)
    ensures IsRun(s, steps + [e]) && AfterAll(s, steps + [e]) == After(AfterAll(s, steps), e)
    decreases |steps|
  {
    hide Enabled, After;
    if steps == [] {
      assert steps + [e] == [e] && [e][1..] == [];
    } else {
      assert (steps + [e])[0] == steps[0] && (steps + [e])[1..] == steps[1..] + [e];
      OneMore(After(s, steps[0]), steps[1..], e);
    }
  }

  /** A call on a fresh queue: it answers true and its bytes are written. */
  lemma OneSend(text: string) returns (steps: seq<Step>)
    ensures IsRun(FRESH, steps)
    ensures AfterAll(FRESH, steps) ==
            FRESH.(senders := map[0 := Returned(Bytes(text), true)], wire := [text],
                   accepted := [Msg(0, Bytes(text))], handled := [Msg(0, Bytes(text))])
  {
    hide IsRun, AfterAll;
    steps := [];
    Nothing0();
    OneMore(FRESH, steps, Call(0, Bytes(text)));
    steps := steps + [Call(0, Bytes(text))];
    OneMore(FRESH, steps, LockRead(0));
    steps := steps + [LockRead(0)];
    OneMore(FRESH, steps, CheckStopped(0));
    steps := steps + [CheckStopped(0)];
    OneMore(FRESH, steps, Enqueue(0));
    steps := steps + [Enqueue(0)];
    OneMore(FRESH, steps, UnlockRead(0));
    steps := steps + [UnlockRead(0)];
    OneMore(FRESH, steps, Take);
    steps := steps + [Take];
    OneMore(FRESH, steps, WriteSucceeds);
    steps := steps + [WriteSucceeds];
  }

  lemma Nothing0()
    ensures IsRun(FRESH, []) && AfterAll(FRESH, []) == FRESH
  {
  }

  /** Then a stop, after which another call answers false. */
  lemma StoppedSend(text: string) returns (steps: seq<Step>)
    ensures IsRun(FRESH, steps)
    ensures var s := AfterAll(FRESH, steps);
            && s.senders == map[0 := Returned(Bytes(text), true), 1 := Returned(Bytes(text), false)]
            && s.stoppers == map[0 := StopReturned] && s.closed && s.controlClosed && s.wire == [text]
  {
    hide IsRun, AfterAll;
    steps := OneSend(text);
    OneMore(FRESH, steps, Stop(0));
    steps := steps + [Stop(0)];
    OneMore(FRESH, steps, LockWrite(0));
    steps := steps + [LockWrite(0)];
    OneMore(FRESH, steps, MarkStopped(0));
    steps := steps + [MarkStopped(0)];
    OneMore(FRESH, steps, CloseOnce(0));
    steps := steps + [CloseOnce(0)];
    OneMore(FRESH, steps, UnlockWrite(0));
    steps := steps + [UnlockWrite(0)];
    OneMore(FRESH, steps, CloseControl(0));
    steps := steps + [CloseControl(0)];
    OneMore(FRESH, steps, Drain);
    steps := steps + [Drain];
    OneMore(FRESH, steps, StopReturns(0));
    steps := steps + [StopReturns(0)];
    OneMore(FRESH, steps, Call(1, Bytes(text)));
    steps := steps + [Call(1, Bytes(text))];
    OneMore(FRESH, steps, LockRead(1));
    steps := steps + [LockRead(1)];
    OneMore(FRESH, steps, CheckStopped(1));
    steps := steps + [CheckStopped(1)];
    OneMore(FRESH, steps, UnlockRead(1));
    steps := steps + [UnlockRead(1)];
  }

  /** A write that fails: nothing reaches the wire, the loop ends and the control stream is closed. */
  lemma FailedSend(text: string) returns (steps: seq<Step>)
    ensures IsRun(FRESH, steps)
    ensures var s := AfterAll(FRESH, steps);
            && s.senders == map[0 := Returned(Bytes(text), true)] && s.accepted == [Msg(0, Bytes(text))]
            && s.loop == Failed(Msg(0, Bytes(text))) && s.controlClosed && s.wire == [] && !s.closed && !s.stopped
  {
    hide IsRun, AfterAll;
    steps := [];
    Nothing0();
    OneMore(FRESH, steps, Call(0, Bytes(text)));
    steps := steps + [Call(0, Bytes(text))];
    OneMore(FRESH, steps, LockRead(0));
    steps := steps + [LockRead(0)];
    OneMore(FRESH, steps, CheckStopped(0));
    steps := steps + [CheckStopped(0)];
    OneMore(FRESH, steps, Enqueue(0));
    steps := steps + [Enqueue(0)];
    OneMore(FRESH, steps, Take);
    steps := steps + [Take];
    OneMore(FRESH, steps, UnlockRead(0));
    steps := steps + [UnlockRead(0)];
    OneMore(FRESH, steps, WriteFails);
    steps := steps + [WriteFails];
  }

  /** After a failed write the loop takes nothing more, whatever happens. */
  lemma {:induction false} FailedForGood(s: State, steps: seq<Step>)
    requires IsRun(s, steps) && s.loop.Failed?
    ensures AfterAll(s, steps).loop == s.loop && AfterAll(s, steps).wire == s.wire
    decreases |steps|
  {
    if steps != [] {
      FailedStep(s, steps[0]);
      hide Enabled, After;
      FailedForGood(After(s, steps[0]), steps[1..]);
    }
  }

  lemma FailedStep(s: State, e: Step)
    requires Enabled(s, e) && s.loop.Failed?
    ensures After(s, e).loop == s.loop && After(s, e).wire == s.wire
  {
    hide Enabled, After;
    if OfSender(e) {
      SenderStep(s, e);
      SenderWire(s, e);
    } else if OfStopper(e) {
      StopperStep(s, e);
      StopperWire(s, e);
    } else {
      NoLoopStep(s, e);
    }
  }

  lemma NoLoopStep(s: State, e: Step)
    requires s.loop.Failed? && !OfSender(e) && !OfStopper(e)
    ensures !Enabled(s, e)
  {
  }

  lemma SenderWire(s: State, e: Step)
    requires Enabled(s, e) && OfSender(e)
    ensures After(s, e).wire == s.wire
  {
    hide WriteLocked;
  }

  lemma StopperWire(s: State, e: Step)
    requires Enabled(s, e) && OfStopper(e)
    ensures After(s, e).wire == s.wire
  {
    if e.MarkStopped? || e.CloseOnce? {
      hide Enabled, After;
      FlagOrCloseWire(s, e);
    } else {
      hide WriteLocked, ReadLocked, LoopEnded, AfterClose;
    }
  }

  lemma FlagOrCloseWire(s: State, e: Step)
    requires Enabled(s, e) && (e.MarkStopped? || e.CloseOnce?)
    ensures After(s, e).wire == s.wire
  {
  }
}
