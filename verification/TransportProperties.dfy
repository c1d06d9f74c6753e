/**
 Safety over whole runs of any transport: delivery order, lost wake-ups, callbacks and frames that cannot
 be encoded. The events of a run are arbitrary, and so are the calls each read handler makes.
 */
module TransportProperties {
  import opened Common
  import opened TransportSpec
  import opened TransportInvariants

  // ---- What the calls made inside one task leave alone ----

  /** `t` follows `s` by scheduling and client calls only: no completion is processed in between. */
  ghost predicate CallsOnly<M(!new), R>(s: State<M, R>, t: State<M, R>) {
    && t.handler == s.handler
    && t.h.callbacks == s.h.callbacks && t.h.received == s.h.received && t.h.completed == s.h.completed
    && s.h.accepted <= t.h.accepted && s.h.started <= t.h.started
    && s.pendingReads <= t.pendingReads && s.pendingWrites <= t.pendingWrites
    && (s.closed ==>
      && t.closed && t.h.accepted == s.h.accepted && t.h.started == s.h.started
      && t.pendingReads == s.pendingReads && t.pendingWrites == s.pendingWrites)
  }

  /** The messages the client sends by these calls. */
  function SendsIn<M>(actions: seq<Action<M>>): seq<M> {
    if actions == [] then [] else SendsIn(Init(actions)) + if Last(actions).Send? then [Last(actions).message] else []
  }

  lemma WriteStartedCalls<M(!new), R>(p: Protocol<M, R>, s: State<M, R>)
    requires CanStartWrite(s)
    ensures CallsOnly(s, WriteStarted(p, s)) && WriteStarted(p, s).h.accepted == s.h.accepted
  {
  }

  lemma ReadStartedCalls<M(!new), R>(s: State<M, R>)
    requires CanStartRead(s)
    ensures CallsOnly(s, ReadStarted(s)) && ReadStarted(s).h.accepted == s.h.accepted
  {
  }

  lemma ScheduledCalls<M(!new), R>(p: Protocol<M, R>, s: State<M, R>)
    ensures CallsOnly(s, Scheduled(p, s)) && Scheduled(p, s).h.accepted == s.h.accepted
  {
    var s1 := if CanStartWrite(s) then WriteStarted(p, s) else s;
    if CanStartWrite(s) {
      WriteStartedCalls(p, s);
    }
    if CanStartRead(s1) {
      ReadStartedCalls(s1);
      CallsOnlyTransitive(s, s1, Scheduled(p, s));
    }
  }

  lemma ClosingCalls<M(!new), R>(s: State<M, R>)
    ensures CallsOnly(s, Closing(s)) && Closing(s).h.accepted == s.h.accepted
  {
  }

  lemma SendsInOne<M>(action: Action<M>)
    ensures SendsIn([action]) == if action.Send? then [action.message] else []
  {
    assert Init([action]) == [];
  }

  lemma SendingCalls<M(!new), R>(p: Protocol<M, R>, s: State<M, R>, message: M)
    requires !s.closed
    ensures CallsOnly(s, Sending(p, s, message)) && Sending(p, s, message).h.accepted == s.h.accepted + [message]
  {
    var s1 := s.(queue := s.queue + [message], h := s.h.(accepted := s.h.accepted + [message]));
    ScheduledCalls(p, s1);
    CallsOnlyTransitive(s, s1, Scheduled(p, s1));
  }

  lemma SettingCalls<M(!new), R>(p: Protocol<M, R>, s: State<M, R>, s1: State<M, R>)
    requires s1 == s.(enabled := s1.enabled, mode := s1.mode)
    ensures CallsOnly(s, Scheduled(p, s1)) && Scheduled(p, s1).h.accepted == s.h.accepted
  {
    ScheduledCalls(p, s1);
    CallsOnlyTransitive(s, s1, Scheduled(p, s1));
  }

  /** Neither call schedules anything. */
  lemma QuietCalls<M(!new), R>(s: State<M, R>, size: nat)
    ensures CallsOnly(s, s) && CallsOnly(s, s.(enabled := false)) && CallsOnly(s, Resized(s, size))
  {
  }

  lemma CallIsCallsOnly<M(!new), R>(p: Protocol<M, R>, s: State<M, R>, action: Action<M>)
    ensures CallsOnly(s, Applied(p, s, action))
    ensures Applied(p, s, action).h.accepted ==
            s.h.accepted + if action.Send? && !s.closed then [action.message] else []
  {
    assert s.h.accepted + [] == s.h.accepted;
    match action
    case Send(message) =>
      if s.closed {
        QuietCalls(s, 0);
      } else {
        SendingCalls(p, s, message);
      }
    case Close => ClosingCalls(s);
    case StartReading => SettingCalls(p, s, s.(enabled := true));
    case StopReading => QuietCalls(s, 0);
    case SetDuplexMode(mode) => SettingCalls(p, s, s.(mode := mode));
    case SetReadBufferSize(size) => QuietCalls(s, size);
  }

  lemma AppliedCalls<M(!new), R>(p: Protocol<M, R>, s: State<M, R>, action: Action<M>)
    ensures var t := Applied(p, s, action);
            && CallsOnly(s, t)
            && t.h.accepted <= s.h.accepted + SendsIn([action])
            && (!t.closed ==> t.h.accepted == s.h.accepted + SendsIn([action]))
  {
    SendsInOne(action);
    CallIsCallsOnly(p, s, action);
  }

  lemma {:induction false} AppliedAllCalls<M(!new), R>(p: Protocol<M, R>, s: State<M, R>, actions: seq<Action<M>>)
    ensures var t := AppliedAll(p, s, actions);
            && CallsOnly(s, t)
            && t.h.accepted <= s.h.accepted + SendsIn(actions)
            && (!t.closed ==> t.h.accepted == s.h.accepted + SendsIn(actions))
  {
    if actions != [] {
      AppliedAllCalls(p, s, Init(actions));
      var t := AppliedAll(p, s, Init(actions));
      var u := Applied(p, t, Last(actions));
      AppliedCalls(p, t, Last(actions));
      assert SendsIn(actions) == SendsIn(Init(actions)) + SendsIn([Last(actions)]) by {
        assert Init([Last(actions)]) == [];
      }
      CallsOnlyTransitive(s, t, u);
      if t.closed {
        assert u.h.accepted == t.h.accepted;
      } else {
        assert s.h.accepted + SendsIn(actions) == t.h.accepted + SendsIn([Last(actions)]);
      }
    }
  }

  lemma CallsOnlyTransitive<M(!new), R>(s: State<M, R>, t: State<M, R>, u: State<M, R>)
    requires CallsOnly(s, t) && CallsOnly(t, u)
    ensures CallsOnly(s, u)
  {
  }

  // ---- Exactly-once FIFO ----

  /** Whether a read handler is installed after the tasks `es` of a fresh session. */
  function HandlerAfter<M>(es: seq<Event<M>>): bool {
    if es == [] then false
    else if Last(es).InstallHandler? then Last(es).present
    else HandlerAfter(Init(es))
  }

  /** All messages the client sends in a run, read off its events alone. */
  function SendsOf<M>(es: seq<Event<M>>): seq<M> {
    if es == [] then [] else SendsOf(Init(es)) + SendsBy(Last(es), HandlerAfter(Init(es)))
  }

  /** The messages one task sends; the calls of a read handler count only if there is one. */
  function SendsBy<M>(e: Event<M>, handler: bool): seq<M> {
    match e
    case Call(action) => SendsIn([action])
    case ReadDone(_, reaction) => if handler then SendsIn(reaction) else []
    case _ => []
  }

  /** The three facts about a read completion that do not depend on what the handler does. */
  lemma ReadFinishedCalls<M(!new), R>(
      p: Protocol<M, R>, s: State<M, R>, result: ReadResult, reaction: seq<Action<M>>)
    requires Inv(p, s) && s.pendingReads != []
    ensures var t := ReadFinished(p, s, result, reaction);
            var s1 := ReadReturned(s, result);
            var sends := if s.handler then SendsIn(reaction) else [];
            && CallsOnly(if s.handler then Recorded(s1, CallbackFor(p, result)) else s1, t)
            && t.h.accepted <= s.h.accepted + sends
            && (!t.closed ==> t.h.accepted == s.h.accepted + sends)
            && (CallbackFor(p, result).Failed? ==> t.closed)
  {
    var s1, callback := ReadReturned(s, result), CallbackFor(p, result);
    var s2 := Notified(p, s1, callback, reaction);
    AppliedAllCalls(p, Recorded(s1, callback), reaction);
    ScheduledCalls(p, s2);
    ClosingCalls(s2);
    var start := if s.handler then Recorded(s1, callback) else s1;
    assert CallsOnly(start, s2);
    CallsOnlyTransitive(start, s2, if callback.Failed? then Closing(s2) else Scheduled(p, s2));
  }

  lemma NextSends<M(!new), R>(p: Protocol<M, R>, s: State<M, R>, e: Event<M>)
    requires Inv(p, s) && Enabled(s, e)
    ensures var t := Next(p, s, e);
            && (s.closed ==> t.closed && t.h.accepted == s.h.accepted)
            && t.h.accepted <= s.h.accepted + SendsBy(e, s.handler)
            && (!t.closed ==> t.h.accepted == s.h.accepted + SendsBy(e, s.handler))
            && t.handler == (if e.InstallHandler? then e.present else s.handler)
  {
    match e
    case Call(action) => AppliedCalls(p, s, action);
    case ReadDone(result, reaction) => ReadFinishedCalls(p, s, result, reaction);
    case _ =>
  }

  /** Acceptance: while the session is open nothing sent is dropped; what was accepted is a prefix of what was sent. */
  lemma {:induction false} AcceptedAreSent<M(!new), R>(p: Protocol<M, R>, s: State<M, R>, es: seq<Event<M>>)
    requires Initial(s) && ValidRun(p, s, es)
    ensures var t := Exec(p, s, es);
            t.handler == HandlerAfter(es) && t.h.accepted <= SendsOf(es) && (!t.closed ==> t.h.accepted == SendsOf(es))
  {
    if es != [] {
      AcceptedAreSent(p, s, Init(es));
      OpenedInv(p, s);
      ExecInv(p, s, Init(es));
      NextSends(p, Exec(p, s, Init(es)), Last(es));
    }
  }

  /**
   Delivery: while open, the messages sent are exactly the completed ones followed by the queue, and the one in
   flight is its head; after a close the completed ones, and then the one still in flight, are a prefix of those sent.
   */
  lemma ExactlyOnceFifo<M(!new), R>(p: Protocol<M, R>, s: State<M, R>, es: seq<Event<M>>)
    requires Initial(s) && ValidRun(p, s, es)
    ensures var t := Exec(p, s, es);
            && (!t.closed ==> SendsOf(es) == t.h.completed + t.queue && t.pendingWrites <= t.queue)
            && (t.closed ==> t.queue == [])
            && |t.pendingWrites| <= 1
            && t.h.completed + t.pendingWrites <= t.h.started <= SendsOf(es)
  {
    AcceptedAreSent(p, s, es);
    OpenedInv(p, s);
    ExecInv(p, s, es);
  }

  /** A success reported after the close removes nothing and starts nothing. */
  lemma LateWriteCompletion<M(!new), R>(p: Protocol<M, R>, s: State<M, R>)
    requires Inv(p, s) && s.closed && s.pendingWrites != []
    ensures var t := WriteFinished(p, s, true);
            && t.closed && t.queue == [] && t.pendingWrites == [] && t.h.started == s.h.started
            && t.h.completed == s.h.completed + s.pendingWrites
  {
  }

  /** No lost wake-up, and at most one operation of each kind outstanding, between any two tasks of any run. */
  lemma NoLostWakeUp<M(!new), R>(p: Protocol<M, R>, s: State<M, R>, es: seq<Event<M>>)
    requires Initial(s) && ValidRun(p, s, es)
    ensures var t := Exec(p, s, es);
            && !CanStartWrite(t) && !CanStartRead(t)
            && |t.pendingReads| <= 1 && |t.pendingWrites| <= 1
            && (!t.closed && t.queue != [] ==> t.pendingWrites != [] || (t.mode.HalfDuplex? && t.pendingReads != []))
            && (t.enabled ==> t.pendingReads != [] || (t.mode.HalfDuplex? && t.pendingWrites != []))
  {
    OpenedInv(p, s);
    ExecInv(p, s, es);
  }

  /** The preemption flag is never raised and the device never cancelled, so a paused session is unreachable. */
  lemma PreemptionUnreachable<M(!new), R>(p: Protocol<M, R>, s: State<M, R>, es: seq<Event<M>>)
    requires Initial(s) && ValidRun(p, s, es)
    ensures !Exec(p, s, es).pause && Exec(p, s, es).h.cancels == 0
  {
    OpenedInv(p, s);
    ExecInv(p, s, es);
  }

  // ---- Read side ----

  /** The callbacks a run owes the handler, read off its events alone. */
  function CallbacksOf<M, R>(p: Protocol<M, R>, es: seq<Event<M>>): seq<Callback<R>> {
    if es == [] then []
    else CallbacksOf(p, Init(es)) + CallsBack(p, HandlerAfter(Init(es)), Last(es))
  }

  /** The values delivered by these callbacks. */
  function DataIn<R>(callbacks: seq<Callback<R>>): seq<R> {
    if callbacks == [] then []
    else DataIn(Init(callbacks)) + if Last(callbacks).Data? then [Last(callbacks).value] else []
  }

  lemma {:induction false} DataInConcat<R>(a: seq<Callback<R>>, b: seq<Callback<R>>)
    ensures DataIn(a + b) == DataIn(a) + DataIn(b)
  {
    if b == [] {
      assert a + b == a;
    } else {
      DataInConcat(a, Init(b));
      assert Init(a + b) == a + Init(b);
    }
  }

  /** The callback one task makes, if any. */
  function CallsBack<M, R>(p: Protocol<M, R>, handler: bool, e: Event<M>): seq<Callback<R>> {
    if e.ReadDone? && handler then [CallbackFor(p, e.result)] else []
  }

  /** The bytes of the successful reads of a run. */
  function BytesOf<M>(es: seq<Event<M>>): seq<seq<byte>> {
    if es == [] then []
    else BytesOf(Init(es)) + if Last(es).ReadDone? && Last(es).result.Bytes? then [Last(es).result.data] else []
  }

  lemma NextReads<M(!new), R>(p: Protocol<M, R>, s: State<M, R>, e: Event<M>)
    requires Inv(p, s) && Enabled(s, e)
    ensures var t := Next(p, s, e);
            && t.h.callbacks == s.h.callbacks + CallsBack(p, s.handler, e)
            && t.h.received == s.h.received + (if e.ReadDone? && e.result.Bytes? then [e.result.data] else [])
            && t.h.completed == s.h.completed + (if e.WriteDone? && e.ok then s.pendingWrites else [])
            && s.h.accepted <= t.h.accepted && s.h.started <= t.h.started
            && (s.closed ==> t.closed)
  {
    match e
    case Call(action) => AppliedCalls(p, s, action);
    case ReadDone(result, reaction) => ReadFinishedCalls(p, s, result, reaction);
    case WriteDone(ok) =>
      assert s.pendingWrites == [s.pendingWrites[0]];
      ScheduledCalls(p, Consumed(s));
    case InstallHandler(_) =>
  }

  /** Every read completion calls the installed handler exactly once, in order, with what it decoded or the error. */
  lemma {:induction false} CallbacksMirrorReads<M(!new), R>(p: Protocol<M, R>, s: State<M, R>, es: seq<Event<M>>)
    requires Initial(s) && ValidRun(p, s, es)
    ensures Exec(p, s, es).h.callbacks == CallbacksOf(p, es)
    ensures Exec(p, s, es).h.received == BytesOf(es)
  {
    if es != [] {
      CallbacksMirrorReads(p, s, Init(es));
      AcceptedAreSent(p, s, Init(es));
      OpenedInv(p, s);
      ExecInv(p, s, Init(es));
      NextReads(p, Exec(p, s, Init(es)), Last(es));
    }
  }

  /** A read completion never reports more bytes than the buffer holds at that moment, whatever was resized before. */
  lemma CompletionFitsBuffer<M(!new), R>(p: Protocol<M, R>, s: State<M, R>, es: seq<Event<M>>, e: Event<M>)
    requires Initial(s) && ValidRun(p, s, es) && Enabled(Exec(p, s, es), e)
    requires e.ReadDone? && e.result.Bytes?
    ensures |e.result.data| <= Exec(p, s, es).bufferSize
  {
    OpenedInv(p, s);
    ExecInv(p, s, es);
  }

  // ---- Callbacks around a failure ----

  /** What is left to call back: callbacks made plus reads outstanding never grows once the session is closed. */
  lemma ClosedNext<M(!new), R>(p: Protocol<M, R>, s: State<M, R>, e: Event<M>)
    requires Inv(p, s) && s.closed && Enabled(s, e)
    ensures var t := Next(p, s, e);
            && t.closed && t.h.started == s.h.started && t.h.accepted == s.h.accepted
            && |t.h.callbacks| + |t.pendingReads| <= |s.h.callbacks| + |s.pendingReads|
            && s.h.callbacks <= t.h.callbacks
  {
    match e
    case ReadDone(result, reaction) => ReadFinishedCalls(p, s, result, reaction);
    case _ =>
  }

  /** After a close: only a read already outstanding can still call back, and nothing new is accepted or started. */
  lemma {:induction false} CallbacksAfterClose<M(!new), R>(p: Protocol<M, R>, s: State<M, R>, es: seq<Event<M>>)
    requires Inv(p, s) && Quiescent(s) && s.closed && ValidRun(p, s, es)
    ensures var t := Exec(p, s, es);
            && t.closed && t.h.started == s.h.started && t.h.accepted == s.h.accepted
            && |t.h.callbacks| + |t.pendingReads| <= |s.h.callbacks| + |s.pendingReads| <= |s.h.callbacks| + 1
  {
    if es != [] {
      CallbacksAfterClose(p, s, Init(es));
      ExecInv(p, s, Init(es));
      ClosedNext(p, Exec(p, s, Init(es)), Last(es));
    }
  }

  /** After the callback number `i` failed, at most one more callback is made or still owed. */
  ghost predicate FailureBounded<M, R>(s: State<M, R>) {
    forall i :: 0 <= i < |s.h.callbacks| && s.h.callbacks[i].Failed? ==>
      s.closed && |s.h.callbacks| + |s.pendingReads| <= i + 2
  }

  lemma NextFailureBounded<M(!new), R>(p: Protocol<M, R>, s: State<M, R>, e: Event<M>)
    requires Inv(p, s) && Quiescent(s) && FailureBounded(s) && Enabled(s, e)
    ensures FailureBounded(Next(p, s, e))
  {
    var t := Next(p, s, e);
    NextInv(p, s, e);
    NextReads(p, s, e);
    if s.closed {
      ClosedNext(p, s, e);
    }
    if e.ReadDone? && CallbackFor(p, e.result).Failed? {
      assert t.closed;
    }
  }

  /** At most one read callback follows the first failing one, however the handlers re-enter the session. */
  lemma {:induction false} AtMostOneCallbackAfterFailure<M(!new), R>(
      p: Protocol<M, R>, s: State<M, R>, es: seq<Event<M>>)
    requires Initial(s) && ValidRun(p, s, es)
    ensures FailureBounded(Exec(p, s, es))
  {
    if es != [] {
      AtMostOneCallbackAfterFailure(p, s, Init(es));
      OpenedInv(p, s);
      ExecInv(p, s, Init(es));
      NextFailureBounded(p, Exec(p, s, Init(es)), Last(es));
    }
  }

  /** The calls that run the scheduler. */
  predicate Schedules<M>(action: Action<M>) {
    action.Send? || action.StartReading? || action.SetDuplexMode?
  }

  lemma AppliedQuiet<M(!new), R>(p: Protocol<M, R>, s: State<M, R>, action: Action<M>)
    requires !Schedules(action)
    ensures Applied(p, s, action).pendingReads == s.pendingReads
  {
  }

  lemma {:induction false} AppliedAllQuiet<M(!new), R>(p: Protocol<M, R>, s: State<M, R>, actions: seq<Action<M>>)
    requires forall a :: a in actions ==> !Schedules(a)
    ensures AppliedAll(p, s, actions).pendingReads == s.pendingReads
  {
    if actions != [] {
      AppliedAllQuiet(p, s, Init(actions));
      AppliedQuiet(p, AppliedAll(p, s, Init(actions)), Last(actions));
    }
  }

  /** If the failing callback makes no call that schedules, no callback follows it in any continuation. */
  lemma NoCallbackAfterQuietFailure<M(!new), R>(
      p: Protocol<M, R>, s: State<M, R>, e: Event<M>, es: seq<Event<M>>)
    requires Inv(p, s) && Quiescent(s) && Enabled(s, e)
    requires e.ReadDone? && CallbackFor(p, e.result).Failed?
    requires forall a :: a in e.reaction ==> !Schedules(a)
    requires ValidRun(p, Next(p, s, e), es)
    ensures |Exec(p, Next(p, s, e), es).h.callbacks| <= |s.h.callbacks| + 1
  {
    AppliedAllQuiet(p, Recorded(ReadReturned(s, e.result), CallbackFor(p, e.result)), e.reaction);
    NextInv(p, s, e);
    NextReads(p, s, e);
    CallbacksAfterClose(p, Next(p, s, e), es);
  }

  /** The bound is met: a handler that restarts reading on an error is called a second time. */
  lemma SecondFailureWitness<M(!new), R>(p: Protocol<M, R>) returns (es: seq<Event<M>>)
    ensures ValidRun(p, Opened(FullDuplex, 1), es)
    ensures Exec(p, Opened(FullDuplex, 1), es).h.callbacks == [Failed(OtherError), Failed(OperationAborted)]
  {
    var s0: State<M, R> := Opened(FullDuplex, 1);
    es := ReadingRun(p, s0, 1);
    es := ExecSnoc(p, s0, es, ReadDone(ReadError(OtherError), [StartReading]));
    RestartOnError(p, s0.(handler := true, enabled := true, reading := true, pendingReads := [1],
                          h := s0.h.(starts := [Start(false, FullDuplex, false)])));
    es := ExecSnoc(p, s0, es, ReadDone(ReadError(OperationAborted), []));
  }

  /** A handler is installed and a read started. */
  lemma ReadingRun<M(!new), R>(p: Protocol<M, R>, s0: State<M, R>, size: nat) returns (es: seq<Event<M>>)
    requires s0 == Opened(FullDuplex, size)
    ensures ValidRun(p, s0, es)
    ensures Exec(p, s0, es) == s0.(handler := true, enabled := true, reading := true, pendingReads := [size],
                                   h := s0.h.(starts := [Start(false, FullDuplex, false)]))
  {
    es := [];
    es := ExecSnoc(p, s0, es, InstallHandler(true));
    es := ExecSnoc(p, s0, es, Call(StartReading));
  }

  lemma RestartOnError<M(!new), R>(p: Protocol<M, R>, s: State<M, R>)
    requires s.handler && !s.closed && s.pendingReads == [1] && !s.pause && s.bufferSize == 1 && s.queue == []
    requires s.mode.FullDuplex? && s.h.callbacks == []
    ensures var t := ReadFinished(p, s, ReadError(OtherError), [StartReading]);
            t.closed && t.handler && t.pendingReads == [1] && !t.pause && t.h.callbacks == [Failed(OtherError)]
  {
    var r := Recorded(ReadReturned(s, ReadError(OtherError)), Failed(OtherError));
    var restart: seq<Action<M>> := [StartReading];
    assert Init(restart) == [] && AppliedAll(p, r, []) == r;
  }

  lemma ExecSnoc<M(!new), R>(p: Protocol<M, R>, s: State<M, R>, es: seq<Event<M>>, e: Event<M>)
    returns (longer: seq<Event<M>>)
    requires ValidRun(p, s, es) && Enabled(Exec(p, s, es), e)
    ensures longer == es + [e] && ValidRun(p, s, longer)
    ensures Exec(p, s, longer) == Next(p, Exec(p, s, es), e)
  {
    longer := es + [e];
    assert Init(longer) == es;
  }
}
