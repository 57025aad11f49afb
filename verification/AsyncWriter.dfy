/** The write queue of one peer, interleaved at every step on shared state. */
module AsyncWriters {
  // There are any number of senders, any number of calls to stop, and one writer loop.

  const QUEUE_SIZE := 64

  /** What a send hands over; both fields of the source's message may be nil, and then nothing is written. */
  datatype Payload = Bytes(text: string) | Nothing

  /** A queued message, tagged with the call that sent it. */
  datatype Msg = Msg(call: nat, payload: Payload)

  /** A call to sendControl or sendControlRaw, by the last step it took. */
  datatype Sender =
    | Called(payload: Payload)
    | Locked(payload: Payload)
    | Checked(payload: Payload)
    | Decided(payload: Payload, ok: bool)
    | Returned(payload: Payload, ok: bool)

  /** A call to stopWriter, by the last step it took. */
  datatype Stopper = StopCalled | StopLocked | StopMarked | StopClosed | StopUnlocked | StopWaiting | StopReturned

  datatype Loop = Waiting | Writing(msg: Msg) | Failed(msg: Msg) | Drained

  datatype State = State(
    senders: map<nat, Sender>,
    stoppers: map<nat, Stopper>,
    stopped: bool,
    once: bool,
    closed: bool,
    queue: seq<Msg>,
    loop: Loop,
    controlClosed: bool,
    wire: seq<string>,
    accepted: seq<Msg>,
    handled: seq<Msg>,
    panicked: bool)

  datatype Step =
    | Call(t: nat, payload: Payload)
    | LockRead(t: nat)
    | CheckStopped(t: nat)
    | Enqueue(t: nat)
    | UnlockRead(t: nat)
    | Stop(p: nat)
    | LockWrite(p: nat)
    | MarkStopped(p: nat)
    | CloseOnce(p: nat)
    | UnlockWrite(p: nat)
    | CloseControl(p: nat)
    | StopReturns(p: nat)
    | Take
    | WriteSucceeds
    | WriteFails
    | Drain

  predicate Reads(s: Sender)
  {
    s.Locked? || s.Checked? || s.Decided?
  }

  predicate Writes(p: Stopper)
  {
    p.StopLocked? || p.StopMarked? || p.StopClosed?
  }

  predicate PastClose(p: Stopper)
  {
    p.StopClosed? || p.StopUnlocked? || p.StopWaiting? || p.StopReturned?
  }

  predicate WriteLocked(s: State)
  {
    exists p :: p in s.stoppers && Writes(s.stoppers[p])
  }

  predicate ReadLocked(s: State)
  {
    exists t :: t in s.senders && Reads(s.senders[t])
  }

  predicate LoopEnded(s: State)
  {
    s.loop.Failed? || s.loop.Drained?
  }

  predicate Enabled(s: State, e: Step)
  {
    match e
    case Call(t, _) => t !in s.senders
    case LockRead(t) => t in s.senders && s.senders[t].Called? && !WriteLocked(s)
    case CheckStopped(t) => t in s.senders && s.senders[t].Locked?
    case Enqueue(t) => t in s.senders && s.senders[t].Checked?
    case UnlockRead(t) => t in s.senders && s.senders[t].Decided?
    case Stop(p) => p !in s.stoppers
    case LockWrite(p) => p in s.stoppers && s.stoppers[p].StopCalled? && !WriteLocked(s) && !ReadLocked(s)
    case MarkStopped(p) => p in s.stoppers && s.stoppers[p].StopLocked?
    case CloseOnce(p) => p in s.stoppers && s.stoppers[p].StopMarked?
    case UnlockWrite(p) => p in s.stoppers && s.stoppers[p].StopClosed?
    case CloseControl(p) => p in s.stoppers && s.stoppers[p].StopUnlocked?
    case StopReturns(p) => p in s.stoppers && s.stoppers[p].StopWaiting? && LoopEnded(s)
    case Take => s.loop.Waiting? && s.queue != []
    case WriteSucceeds => s.loop.Writing? && (s.loop.msg.payload.Nothing? || !s.controlClosed)
    case WriteFails => s.loop.Writing? && s.loop.msg.payload.Bytes?
    case Drain => s.loop.Waiting? && s.queue == [] && s.closed
  }

  function AfterSend(s: State, t: nat): State
    requires t in s.senders && s.senders[t].Checked?
  {
    var payload := s.senders[t].payload;
    if s.closed then s.(panicked := true)
    else if |s.queue| < QUEUE_SIZE then
      s.(queue := s.queue + [Msg(t, payload)],
         accepted := s.accepted + [Msg(t, payload)],
         senders := s.senders[t := Decided(payload, true)])
    else s.(senders := s.senders[t := Decided(payload, false)])
  }

  /** Closing a channel twice panics; the once guard is what runs the close at most once. */
  function AfterClose(s: State): State
  {
    if s.once then s else s.(once := true, closed := true, panicked := s.panicked || s.closed)
  }

  function WireOf(m: Msg): seq<string>
  {
    if m.payload.Bytes? then [m.payload.text] else []
  }

  function After(s: State, e: Step): State
    requires Enabled(s, e)
  {
    match e
    case Call(t, payload) => s.(senders := s.senders[t := Called(payload)])
    case LockRead(t) => s.(senders := s.senders[t := Locked(s.senders[t].payload)])
    case CheckStopped(t) =>
      s.(senders := s.senders[t := if s.stopped then Decided(s.senders[t].payload, false)
                                   else Checked(s.senders[t].payload)])
    case Enqueue(t) => AfterSend(s, t)
    case UnlockRead(t) => s.(senders := s.senders[t := Returned(s.senders[t].payload, s.senders[t].ok)])
    case Stop(p) => s.(stoppers := s.stoppers[p := StopCalled])
    case LockWrite(p) => s.(stoppers := s.stoppers[p := StopLocked])
    case MarkStopped(p) => s.(stopped := true, stoppers := s.stoppers[p := StopMarked])
    case CloseOnce(p) => AfterClose(s).(stoppers := s.stoppers[p := StopClosed])
    case UnlockWrite(p) => s.(stoppers := s.stoppers[p := StopUnlocked])
    case CloseControl(p) => s.(controlClosed := true, stoppers := s.stoppers[p := StopWaiting])
    case StopReturns(p) => s.(stoppers := s.stoppers[p := StopReturned])
    case Take => s.(queue := s.queue[1..], loop := Writing(s.queue[0]))
    case WriteSucceeds => s.(wire := s.wire + WireOf(s.loop.msg), handled := s.handled + [s.loop.msg], loop := Waiting)
    case WriteFails => s.(loop := Failed(s.loop.msg), controlClosed := true)
    case Drain => s.(loop := Drained)
  }

  // ---------------------------------------------------------------- what every step keeps

  function WireOfAll(msgs: seq<Msg>): seq<string>
  {
    if msgs == [] then [] else WireOfAll(msgs[..|msgs| - 1]) + WireOf(msgs[|msgs| - 1])
  }

  /** The message the loop took and has not written. */
  function InHand(l: Loop): seq<Msg>
  {
    if l.Writing? || l.Failed? then [l.msg] else []
  }

  /** A stopper in the write lock shuts out every other stopper and every sender. */
  ghost predicate Exclusive(s: State)
  {
    && (forall p, t :: p in s.stoppers && Writes(s.stoppers[p]) && t in s.senders ==> !Reads(s.senders[t]))
    && (forall p, q :: p in s.stoppers && q in s.stoppers && Writes(s.stoppers[p]) && Writes(s.stoppers[q]) ==> p == q)
  }

  /** The flag is up before the channel closes, and no sender that saw it down is still inside. */
  ghost predicate FlagFirst(s: State)
  {
    && !s.panicked && s.once == s.closed
    && (s.closed ==> s.stopped)
    && (forall t :: t in s.senders && s.senders[t].Checked? ==> !s.stopped)
    && (forall p :: p in s.stoppers && !s.stoppers[p].StopCalled? && !s.stoppers[p].StopLocked? ==> s.stopped)
    && (forall p :: p in s.stoppers && PastClose(s.stoppers[p]) ==> s.closed)
    && (forall p :: p in s.stoppers && s.stoppers[p].StopReturned? ==> LoopEnded(s))
  }

  /** Whatever was accepted was handled, is in hand or is queued, in that order. */
  ghost predicate InOrder(s: State)
  {
    && |s.queue| <= QUEUE_SIZE
    && s.accepted == s.handled + InHand(s.loop) + s.queue
    && s.wire == WireOfAll(s.handled)
    && (s.loop.Drained? ==> s.queue == [] && s.closed)
  }

  predicate SaidYes(s: Sender)
  {
    (s.Decided? || s.Returned?) && s.ok
  }

  /** The accepted messages are exactly those of the calls that answer true, once each. */
  ghost predicate Honest(s: State)
  {
    && (forall m :: m in s.accepted ==>
          m.call in s.senders && SaidYes(s.senders[m.call]) && s.senders[m.call].payload == m.payload)
    && (forall t :: t in s.senders && SaidYes(s.senders[t]) ==> Msg(t, s.senders[t].payload) in s.accepted)
    && (forall i, j :: 0 <= i < j < |s.accepted| ==> s.accepted[i].call != s.accepted[j].call)
  }

  ghost predicate Inv(s: State)
  {
    Exclusive(s) && FlagFirst(s) && InOrder(s) && Honest(s)
  }

  const FRESH := State(map[], map[], false, false, false, [], Waiting, false, [], [], [], false)

  lemma FreshIsGood()
    ensures Inv(FRESH)
  {
  }

  /** A sender moves on: into the read lock only while no stopper is in the write lock. */
  lemma SenderKeepsExclusive(s: State, s': State, t: nat)
    requires Exclusive(s) && s'.stoppers == s.stoppers && t in s'.senders
    requires s'.senders == s.senders[t := s'.senders[t]]
    requires Reads(s'.senders[t]) ==> !WriteLocked(s) || (t in s.senders && Reads(s.senders[t]))
    ensures Exclusive(s')
  {
  }

  /** A stopper moves on: into the write lock only while nobody is in either lock. */
  lemma StopperKeepsExclusive(s: State, s': State, p: nat)
    requires Exclusive(s) && s'.senders == s.senders && p in s'.stoppers
    requires s'.stoppers == s.stoppers[p := s'.stoppers[p]]
    requires Writes(s'.stoppers[p]) ==>
               (!WriteLocked(s) && !ReadLocked(s)) || (p in s.stoppers && Writes(s.stoppers[p]))
    ensures Exclusive(s')
  {
  }

  lemma StepKeepsExclusive(s: State, e: Step)
    requires Exclusive(s) && Enabled(s, e)
    ensures Exclusive(After(s, e))
  {
    hide Exclusive;
    if e.Call? || e.LockRead? || e.CheckStopped? || e.Enqueue? || e.UnlockRead? {
      hide After;
      SenderStepExclusive(s, e);
    } else if e.Take? || e.WriteSucceeds? || e.WriteFails? || e.Drain? {
      LoopKeepsExclusive(s, After(s, e));
    } else {
      hide After;
      StopperStepExclusive(s, e);
    }
  }

  lemma SenderStepExclusive(s: State, e: Step)
    requires Exclusive(s) && Enabled(s, e)
    requires e.Call? || e.LockRead? || e.CheckStopped? || e.Enqueue? || e.UnlockRead?
    ensures Exclusive(After(s, e))
  {
    hide Exclusive, WriteLocked, ReadLocked;
    var s' := After(s, e);
    assert s'.senders == s.senders[e.t := s'.senders[e.t]];
    SenderKeepsExclusive(s, s', e.t);
  }

  lemma StopperStepExclusive(s: State, e: Step)
    requires Exclusive(s) && Enabled(s, e)
    requires e.Stop? || e.LockWrite? || e.MarkStopped? || e.CloseOnce? || e.UnlockWrite? || e.CloseControl? || e.StopReturns?
    ensures Exclusive(After(s, e))
  {
    hide Exclusive, WriteLocked, ReadLocked;
    StopperKeepsExclusive(s, After(s, e), e.p);
  }

  lemma LoopKeepsExclusive(s: State, s': State)
    requires Exclusive(s) && s'.senders == s.senders && s'.stoppers == s.stoppers
    ensures Exclusive(s')
  {
  }

  lemma StepKeepsFlagFirst(s: State, e: Step)
    requires Exclusive(s) && FlagFirst(s) && Enabled(s, e)
    ensures FlagFirst(After(s, e))
  {
    var s' := After(s, e);
    if e.MarkStopped? {
      assert Writes(s.stoppers[e.p]);
    }
    if e.Enqueue? {
      assert !s.closed;
    }
  }

  lemma WireOfOneMore(msgs: seq<Msg>, m: Msg)
    ensures WireOfAll(msgs + [m]) == WireOfAll(msgs) + WireOf(m)
  {
    assert (msgs + [m])[..|msgs|] == msgs;
  }

  lemma AcceptKeepsInOrder(s: State, t: nat)
    requires InOrder(s) && FlagFirst(s) && t in s.senders && s.senders[t].Checked?
    ensures InOrder(AfterSend(s, t))
  {
    hide WireOfAll;
    var m := Msg(t, s.senders[t].payload);
    assert s.accepted + [m] == s.handled + InHand(s.loop) + (s.queue + [m]);
  }

  lemma TakeKeepsInOrder(s: State)
    requires InOrder(s) && Enabled(s, Take)
    ensures InOrder(After(s, Take))
  {
    hide WireOfAll;
    assert s.queue == [s.queue[0]] + s.queue[1..];
  }

  lemma WriteKeepsInOrder(s: State)
    requires InOrder(s) && Enabled(s, WriteSucceeds)
    ensures InOrder(After(s, WriteSucceeds))
  {
    hide WireOfAll;
    WireOfOneMore(s.handled, s.loop.msg);
    assert s.handled + [s.loop.msg] + s.queue == s.handled + [s.loop.msg] + [] + s.queue;
  }

  lemma LoopEndKeepsInOrder(s: State, e: Step)
    requires InOrder(s) && Enabled(s, e) && (e.WriteFails? || e.Drain?)
    ensures InOrder(After(s, e))
  {
    hide WireOfAll;
  }

  lemma StepKeepsInOrder(s: State, e: Step)
    requires FlagFirst(s) && InOrder(s) && Enabled(s, e)
    ensures InOrder(After(s, e))
  {
    hide InOrder, FlagFirst;
    match e {
      case Enqueue(t) => AcceptKeepsInOrder(s, t);
      case Take => TakeKeepsInOrder(s);
      case WriteSucceeds => WriteKeepsInOrder(s);
      case WriteFails | Drain => LoopEndKeepsInOrder(s, e);
      case _ => CallsKeepInOrder(s, After(s, e));
    }
  }

  lemma CallsKeepInOrder(s: State, s': State)
    requires InOrder(s) && (s.closed ==> s'.closed)
    requires s'.queue == s.queue && s'.loop == s.loop && s'.wire == s.wire
    requires s'.accepted == s.accepted && s'.handled == s.handled
    ensures InOrder(s')
  {
    hide WireOfAll;
  }

  /** One more accepted message, for a call that has none yet. */
  lemma AcceptKeepsHonest(s: State, t: nat)
    requires Honest(s) && t in s.senders && s.senders[t].Checked?
    requires !s.closed && |s.queue| < QUEUE_SIZE
    ensures Honest(AfterSend(s, t))
  {
    var s' := AfterSend(s, t);
    var m := Msg(t, s.senders[t].payload);
    assert s'.accepted == s.accepted + [m];
    assert forall n :: n in s.accepted ==> n.call != t;
    forall u | u in s'.senders && SaidYes(s'.senders[u]) ensures Msg(u, s'.senders[u].payload) in s'.accepted {
      assert u == t || Msg(u, s.senders[u].payload) in s.accepted;
    }
  }

  lemma SameAnswersHonest(s: State, s': State)
    requires Honest(s) && s'.accepted == s.accepted
    requires forall t :: t in s.senders && SaidYes(s.senders[t]) ==> t in s'.senders && SaidYes(s'.senders[t])
    requires forall t :: t in s'.senders && SaidYes(s'.senders[t]) ==> t in s.senders && SaidYes(s.senders[t])
    requires forall t :: t in s.senders && t in s'.senders ==> s'.senders[t].payload == s.senders[t].payload
    ensures Honest(s')
  {
  }

  lemma StepKeepsHonest(s: State, e: Step)
    requires FlagFirst(s) && Honest(s) && Enabled(s, e)
    ensures Honest(After(s, e))
  {
    hide Honest;
    var s' := After(s, e);
    if e.Enqueue? && |s.queue| < QUEUE_SIZE {
      AcceptKeepsHonest(s, e.t);
    } else {
      assert s'.accepted == s.accepted;
      SameAnswersHonest(s, s');
    }
  }

  ghost predicate IsRun(s: State, steps: seq<Step>)
    decreases |steps|
  {
    steps == [] || (Enabled(s, steps[0]) && IsRun(After(s, steps[0]), steps[1..]))
  }

  function AfterAll(s: State, steps: seq<Step>): State
    requires IsRun(s, steps)
    decreases |steps|
  {
    if steps == [] then s else AfterAll(After(s, steps[0]), steps[1..])
  }

  lemma {:induction false} RunKeepsInv(s: State, steps: seq<Step>)
    requires Inv(s) && IsRun(s, steps)
    ensures Inv(AfterAll(s, steps))
    decreases |steps|
  {
    hide Exclusive, FlagFirst, InOrder, Honest;
    if steps != [] {
      StepKeepsExclusive(s, steps[0]);
      StepKeepsFlagFirst(s, steps[0]);
      StepKeepsInOrder(s, steps[0]);
      StepKeepsHonest(s, steps[0]);
      RunKeepsInv(After(s, steps[0]), steps[1..]);
    }
  }

  // ---------------------------------------------------------------- what holds in every interleaving

  /** Nothing is ever sent on a closed channel and none is closed twice; the queue stays within its size. */
  lemma NeverPanics(steps: seq<Step>)
    requires IsRun(FRESH, steps)
    ensures var s := AfterAll(FRESH, steps); !s.panicked && |s.queue| <= QUEUE_SIZE
  {
    FreshIsGood();
    RunKeepsInv(FRESH, steps);
  }

  /** The frames on the wire are those of a prefix of the messages whose send answered true. */
  lemma WireIsPrefix(steps: seq<Step>)
    requires IsRun(FRESH, steps)
    ensures var s := AfterAll(FRESH, steps);
            && s.handled <= s.accepted && s.wire == WireOfAll(s.handled)
            && Honest(s)
            && (s.loop.Drained? ==> s.wire == WireOfAll(s.accepted))
  {
    FreshIsGood();
    RunKeepsInv(FRESH, steps);
    var s := AfterAll(FRESH, steps);
    if s.loop.Drained? {
      assert s.accepted == s.handled;
    }
  }

  lemma StoppedStaysStopped(s: State, p: nat, e: Step)
    requires FlagFirst(s) && InOrder(s) && p in s.stoppers && s.stoppers[p].StopReturned? && Enabled(s, e)
    ensures var s' := After(s, e);
            && p in s'.stoppers && s'.stoppers[p].StopReturned?
            && s'.accepted == s.accepted && s'.wire == s.wire
  {
  }

  /**
   Once a call to stop returned, nothing more is accepted or written, in any continuation:
   every call that answers true had its message accepted before.
   */
  lemma {:induction false} StopIsFinal(s: State, p: nat, more: seq<Step>)
    requires Inv(s) && p in s.stoppers && s.stoppers[p].StopReturned? && IsRun(s, more)
    ensures var s' := AfterAll(s, more);
            && s'.accepted == s.accepted && s'.wire == s.wire
            && forall t :: t in s'.senders && SaidYes(s'.senders[t]) ==> Msg(t, s'.senders[t].payload) in s.accepted
    decreases |more|
  {
    hide Exclusive, FlagFirst, InOrder;
    if more != [] {
      var e := more[0];
      StepKeepsExclusive(s, e);
      StepKeepsFlagFirst(s, e);
      StepKeepsInOrder(s, e);
      StepKeepsHonest(s, e);
      StoppedStaysStopped(s, p, e);
      StopIsFinal(After(s, e), p, more[1..]);
    }
  }

  ghost predicate Finished(s: State)
  {
    && (forall t :: t in s.senders ==> s.senders[t].Returned?)
    && (forall p :: p in s.stoppers ==> s.stoppers[p].StopReturned?)
  }

  /** A step of a call that is inside the lock. */
  lemma InsideMoves(s: State) returns (e: Step)
    requires ReadLocked(s) || WriteLocked(s)
    ensures Enabled(s, e) && !e.Call? && !e.Stop? && !e.LockRead?
  {
    if ReadLocked(s) {
      var t :| t in s.senders && Reads(s.senders[t]);
      e := match s.senders[t]
           case Locked(_) => CheckStopped(t)
           case Checked(_) => Enqueue(t)
           case _ => UnlockRead(t);
    } else {
      var p :| p in s.stoppers && Writes(s.stoppers[p]);
      e := match s.stoppers[p]
           case StopLocked => MarkStopped(p)
           case StopMarked => CloseOnce(p)
           case _ => UnlockWrite(p);
    }
  }

  /**
   A step that goes on with a call already made, under a lock that lets no new sender
   in while a stopper is waiting for it.
   */
  ghost predicate Continues(s: State, e: Step)
  {
    && Enabled(s, e) && !e.Call? && !e.Stop?
    && (e.LockRead? ==> forall p :: p in s.stoppers ==> !s.stoppers[p].StopCalled?)
  }

  /** No interleaving gets stuck: while any call is unfinished some step continues one. */
  lemma SomethingMoves(s: State) returns (e: Step)
    requires Inv(s) && !Finished(s)
    ensures Continues(s, e)
  {
    if ReadLocked(s) || WriteLocked(s) {
      e := InsideMoves(s);
    } else if p :| p in s.stoppers && s.stoppers[p].StopCalled? {
      e := LockWrite(p);
    } else if p :| p in s.stoppers && !s.stoppers[p].StopReturned? {
      e := if s.stoppers[p].StopUnlocked? then CloseControl(p)
           else if LoopEnded(s) then StopReturns(p)
           else if s.loop.Writing? then (if s.loop.msg.payload.Nothing? then WriteSucceeds else WriteFails)
           else if s.queue == [] then Drain
           else Take;
    } else {
      var t :| t in s.senders && !s.senders[t].Returned?;
      e := LockRead(t);
    }
  }

  // ---------------------------------------------------------------- every call finishes

  function SenderWork(s: Sender): nat
  {
    match s
    case Called(_) => 7
    case Locked(_) => 6
    case Checked(_) => 5
    case Decided(_, _) => 1
    case Returned(_, _) => 0
  }

  function StopperWork(p: Stopper): nat
  {
    match p
    case StopCalled => 6
    case StopLocked => 5
    case StopMarked => 4
    case StopClosed => 3
    case StopUnlocked => 2
    case StopWaiting => 1
    case StopReturned => 0
  }

  function LoopWork(l: Loop): nat
  {
    if l.Waiting? then 1 else if l.Writing? then 3 else 0
  }

  ghost function Total(m: map<nat, nat>): nat
    decreases |m|
  {
    if m == map[] then 0
    else
      assert m.Keys != {};
      var k :| k in m;
      assert (m - {k}).Keys == m.Keys - {k};
      m[k] + Total(m - {k})
  }

  lemma {:induction false} TotalWithout(m: map<nat, nat>, k: nat)
    requires k in m
    ensures Total(m) == m[k] + Total(m - {k})
    decreases |m|
  {
    assert m.Keys != {};
    var j :| j in m && Total(m) == m[j] + Total(m - {j});
    if j != k {
      assert (m - {j}).Keys == m.Keys - {j} && (m - {k}).Keys == m.Keys - {k};
      TotalWithout(m - {j}, k);
      TotalWithout(m - {k}, j);
      assert m - {j} - {k} == m - {k} - {j};
    }
  }

  lemma TotalUpdate(m: map<nat, nat>, k: nat, v: nat)
    requires k in m
    ensures Total(m[k := v]) + m[k] == Total(m) + v
  {
    TotalWithout(m, k);
    TotalWithout(m[k := v], k);
    assert m[k := v] - {k} == m - {k};
  }

  function SenderWorks(senders: map<nat, Sender>): map<nat, nat>
  {
    map t | t in senders :: SenderWork(senders[t])
  }

  function StopperWorks(stoppers: map<nat, Stopper>): map<nat, nat>
  {
    map p | p in stoppers :: StopperWork(stoppers[p])
  }

  /** A bound on the steps that the calls made so far can still take. */
  ghost function Work(s: State): nat
  {
    Total(SenderWorks(s.senders)) + Total(StopperWorks(s.stoppers)) + 3 * |s.queue| + LoopWork(s.loop)
  }

  lemma SenderMoves(senders: map<nat, Sender>, t: nat, to: Sender)
    requires t in senders
    ensures Total(SenderWorks(senders[t := to])) + SenderWork(senders[t]) == Total(SenderWorks(senders)) + SenderWork(to)
  {
    hide SenderWork, Total;
    TotalUpdate(SenderWorks(senders), t, SenderWork(to));
    assert SenderWorks(senders[t := to]) == SenderWorks(senders)[t := SenderWork(to)];
  }

  lemma StopperMoves(stoppers: map<nat, Stopper>, p: nat, to: Stopper)
    requires p in stoppers
    ensures Total(StopperWorks(stoppers[p := to])) + StopperWork(stoppers[p]) ==
            Total(StopperWorks(stoppers)) + StopperWork(to)
  {
    hide StopperWork, Total;
    TotalUpdate(StopperWorks(stoppers), p, StopperWork(to));
    assert StopperWorks(stoppers[p := to]) == StopperWorks(stoppers)[p := StopperWork(to)];
  }

  /** Every step but a new call leaves less work. */
  lemma WorkFalls(s: State, e: Step)
    requires FlagFirst(s) && Enabled(s, e) && !e.Call? && !e.Stop?
    ensures Work(After(s, e)) < Work(s)
  {
    hide SenderWorks, StopperWorks, Total;
    var s' := After(s, e);
    if e.LockRead? || e.CheckStopped? || e.Enqueue? || e.UnlockRead? {
      SenderMoves(s.senders, e.t, s'.senders[e.t]);
    } else if e.Take? || e.WriteSucceeds? || e.WriteFails? || e.Drain? {
    } else {
      StopperMoves(s.stoppers, e.p, s'.stoppers[e.p]);
    }
  }

  ghost predicate NoNewCalls(steps: seq<Step>)
  {
    forall e :: e in steps ==> !e.Call? && !e.Stop?
  }

  lemma {:induction false} StepsWithinWork(s: State, more: seq<Step>)
    requires Inv(s) && IsRun(s, more) && NoNewCalls(more)
    ensures |more| <= Work(s)
    decreases |more|
  {
    hide Exclusive, FlagFirst, InOrder, Honest, Work;
    if more != [] {
      var e := more[0];
      assert e in more;
      WorkFalls(s, e);
      StepKeepsExclusive(s, e);
      StepKeepsFlagFirst(s, e);
      StepKeepsInOrder(s, e);
      StepKeepsHonest(s, e);
      StepsWithinWork(After(s, e), more[1..]);
    }
  }

  /**
   Every send and every stop finishes once no new calls come: any continuation is
   bounded by the work left, and one that cannot go on has finished every call.
   */
  lemma EveryCallFinishes(steps: seq<Step>, more: seq<Step>)
    requires IsRun(FRESH, steps) && IsRun(AfterAll(FRESH, steps), more) && NoNewCalls(more)
    ensures var s := AfterAll(FRESH, steps);
            && |more| <= Work(s)
            && ((forall e :: !Continues(AfterAll(s, more), e)) ==> Finished(AfterAll(s, more)))
  {
    hide Exclusive, FlagFirst, InOrder, Honest, Work, Finished, Continues;
    FreshIsGood();
    RunKeepsInv(FRESH, steps);
    var s := AfterAll(FRESH, steps);
    StepsWithinWork(s, more);
    RunKeepsInv(s, more);
    if !Finished(AfterAll(s, more)) {
      var e := SomethingMoves(AfterAll(s, more));
    }
  }
}
