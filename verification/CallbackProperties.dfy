/**
 The handler's side of reading: what it is told, what read its calls leave in flight, and exactly when it can still be
 called after a close or after a failure.
 */
module CallbackProperties {
  import opened Common
  import opened TransportSpec
  import opened TransportInvariants
  import opened TransportProperties
  import opened DuplexProperties

  // ---- What the handler is told ----

  /** The callback reports this outcome: the decoded value, the error, or bytes that cannot be decoded. */
  predicate Tells<M, R(==)>(p: Protocol<M, R>, callback: Callback<R>, result: ReadResult) {
    match callback
    case Data(value) => result.Bytes? && p.decode(result.data) == Some(value)
    case Failed(error) =>
      if result.Bytes? then p.decode(result.data) == None && error == ProtocolError else error == result.error
  }

  /** The outcomes of the reads that completed while a handler was installed. */
  function HandledResults<M>(es: seq<Event<M>>): seq<ReadResult> {
    if es == [] then []
    else HandledResults(Init(es)) + if Last(es).ReadDone? && HandlerAfter(Init(es)) then [Last(es).result] else []
  }

  lemma CallbackTells<M(!new), R>(p: Protocol<M, R>, result: ReadResult)
    ensures Tells(p, CallbackFor(p, result), result)
  {
  }

  lemma {:induction false} CallbacksOfTell<M(!new), R>(p: Protocol<M, R>, es: seq<Event<M>>)
    ensures |CallbacksOf(p, es)| == |HandledResults(es)|
    ensures forall i :: 0 <= i < |HandledResults(es)| ==> Tells(p, CallbacksOf(p, es)[i], HandledResults(es)[i])
  {
    if es != [] {
      CallbacksOfTell(p, Init(es));
      if Last(es).ReadDone? {
        CallbackTells(p, Last(es).result);
      }
    }
  }

  /** The handler is told the outcome of each read that completes while it is installed, once and in order. */
  lemma HandlerIsTold<M(!new), R>(p: Protocol<M, R>, s: State<M, R>, es: seq<Event<M>>)
    requires Initial(s) && ValidRun(p, s, es)
    ensures var told := Exec(p, s, es).h.callbacks;
            && |told| == |HandledResults(es)|
            && forall i :: 0 <= i < |told| ==> Tells(p, told[i], HandledResults(es)[i])
  {
    CallbacksMirrorReads(p, s, es);
    CallbacksOfTell(p, es);
  }

  /** Some continuation calls the read handler once more. */
  ghost predicate FurtherCallback<M(!new), R(!new)>(p: Protocol<M, R>, s: State<M, R>) {
    exists es :: ValidRun(p, s, es) && |s.h.callbacks| < |Exec(p, s, es).h.callbacks|
  }

  // ---- After a close ----

  /** A read outstanding at the close can still end in any way, and the handler is called with the outcome. */
  lemma LateCallback<M(!new), R>(p: Protocol<M, R>, s: State<M, R>, result: ReadResult) returns (es: seq<Event<M>>)
    requires Inv(p, s) && s.closed && Enabled(s, ReadDone(result, []))
    ensures ValidRun(p, s, es) && Exec(p, s, es).h.callbacks == s.h.callbacks + [CallbackFor(p, result)]
  {
    es := ExecSnoc(p, s, [], InstallHandler(true));
    NextInv(p, s, InstallHandler(true));
    NextReads(p, s.(handler := true), ReadDone(result, []));
    es := ExecSnoc(p, s, es, ReadDone(result, []));
  }

  /** Once closed, a session calls its handler again in some continuation exactly if a read is outstanding. */
  lemma CallbackAfterCloseExactly<M(!new), R(!new)>(p: Protocol<M, R>, s: State<M, R>)
    requires Inv(p, s) && Quiescent(s) && s.closed
    ensures FurtherCallback(p, s) <==> s.pendingReads != []
  {
    if s.pendingReads != [] {
      var es := LateCallback(p, s, ReadError(OperationAborted));
    } else {
      forall es | ValidRun(p, s, es) ensures |Exec(p, s, es).h.callbacks| <= |s.h.callbacks| {
        CallbacksAfterClose(p, s, es);
      }
    }
  }

  /** A run in which a read that succeeded before the close delivers its data after it. */
  lemma DataAfterClose<M(!new), R>(p: Protocol<M, R>, size: nat, data: seq<byte>) returns (es: seq<Event<M>>)
    requires 0 < size && |data| <= size && p.decode(data).Some?
    ensures es != [] && ValidRun(p, Opened(FullDuplex, size), Init(es)) && ValidRun(p, Opened(FullDuplex, size), es)
    ensures var t := Exec(p, Opened(FullDuplex, size), Init(es)); t.closed && t.h.callbacks == []
    ensures Exec(p, Opened(FullDuplex, size), es).h.callbacks == [Data(p.decode(data).value)]
  {
    var s0: State<M, R> := Opened(FullDuplex, size);
    es := ReadingRun(p, s0, size);
    es := ExecSnoc(p, s0, es, Call(Close));
    var closed := Exec(p, s0, es);
    OpenedInv(p, s0);
    ExecInv(p, s0, es);
    NextReads(p, closed, ReadDone(Bytes(data), []));
    var longer := ExecSnoc(p, s0, es, ReadDone(Bytes(data), []));
    assert Init(longer) == es;
    es := longer;
  }

  // ---- The read a handler leaves in flight ----

  /** The head of the queue waits, and starting to write it will close the session instead. */
  predicate Stuck<M, R>(p: Protocol<M, R>, s: State<M, R>) {
    !s.writing && s.queue != [] && !p.encodes(s.queue[0])
  }

  function EnabledAfter<M>(enabled: bool, call: Action<M>): bool {
    call.StartReading? || (enabled && !call.StopReading?)
  }

  function ModeAfter<M>(mode: DuplexMode, call: Action<M>): DuplexMode {
    if call.SetDuplexMode? then call.mode else mode
  }

  function SizeAfter<M>(size: nat, call: Action<M>): nat {
    if call.SetReadBufferSize? && call.size != 0 then call.size else size
  }

  /** The call closes the session: outright, or as a message that cannot be encoded and is tried at once. */
  predicate Closes<M, R>(p: Protocol<M, R>, busy: bool, call: Action<M>) {
    call.Close? || (call.Send? && !busy && !p.encodes(call.message))
  }

  predicate MayRead(enabled: bool, mode: DuplexMode, busy: bool) {
    enabled && (mode.FullDuplex? || !busy)
  }

  /**
   The read these calls start, as the room it is given, if they start one: before any call that closes the session, some
   call that schedules is made while reading is on and, in half duplex, nothing is being written or queued (`busy`). At
   the end operations are scheduled once more if the session does so.
   */
  function ReadStartedBy<M, R>(
      p: Protocol<M, R>, enabled: bool, mode: DuplexMode, busy: bool, size: nat, calls: seq<Action<M>>, schedules: bool)
    : seq<nat>
    decreases |calls|
  {
    if calls == [] then if schedules && MayRead(enabled, mode, busy) then [size] else []
    else if Closes(p, busy, calls[0]) then []
    else
      var enabled', mode' := EnabledAfter(enabled, calls[0]), ModeAfter(mode, calls[0]);
      var busy', size' := busy || calls[0].Send?, SizeAfter(size, calls[0]);
      if Schedules(calls[0]) && MayRead(enabled', mode', busy') then [size']
      else ReadStartedBy(p, enabled', mode', busy', size', calls[1..], schedules)
  }

  /** `ReadStartedBy` for the calls of a handler that is called in state `s`. */
  function ReadLeft<M, R>(p: Protocol<M, R>, s: State<M, R>, calls: seq<Action<M>>, schedules: bool): seq<nat> {
    ReadStartedBy(p, s.enabled, s.mode, s.queue != [], s.bufferSize, calls, schedules)
  }

  /** Whether these calls start a read by themselves. */
  predicate Restarts<M, R>(p: Protocol<M, R>, s: State<M, R>, calls: seq<Action<M>>) {
    ReadLeft(p, s, calls, false) != []
  }

  lemma {:induction false} FirstCall<M(!new), R>(p: Protocol<M, R>, s: State<M, R>, calls: seq<Action<M>>)
    requires calls != []
    ensures AppliedAll(p, s, calls) == AppliedAll(p, Applied(p, s, calls[0]), calls[1..])
  {
    if |calls| > 1 {
      FirstCall(p, s, Init(calls));
      assert Init(calls)[1..] == Init(calls[1..]);
    } else {
      assert Init(calls) == [] && calls[1..] == [];
    }
  }

  /** Open, and no read in flight. */
  ghost predicate Resting<M(!new), R>(p: Protocol<M, R>, s: State<M, R>) {
    Inv(p, s) && !s.closed && s.pendingReads == []
  }

  lemma ScheduledFromRest<M(!new), R>(p: Protocol<M, R>, s: State<M, R>)
    requires Resting(p, s)
    ensures var t := Scheduled(p, s);
            if Stuck(p, s) then t.closed && t.pendingReads == []
            else
              && Inv(p, t) && !t.closed && !Stuck(p, t)
              && t.enabled == s.enabled && t.mode == s.mode && t.queue == s.queue
              && (t.pendingReads != [] <==> s.enabled && (s.mode.FullDuplex? || s.queue == []))
  {
    ScheduledInv(p, s);
  }

  lemma {:induction false} StuckStaysAtRest<M(!new), R>(p: Protocol<M, R>, s: State<M, R>, calls: seq<Action<M>>)
    requires Resting(p, s) && Stuck(p, s)
    ensures AppliedAll(p, s, calls).pendingReads == [] && Scheduled(p, AppliedAll(p, s, calls)).pendingReads == []
    decreases |calls|
  {
    if calls == [] {
      ScheduledFromRest(p, s);
    } else {
      var t := Applied(p, s, calls[0]);
      FirstCall(p, s, calls);
      StuckCall(p, s, calls[0]);
      if t.closed {
        NothingMore(p, t, calls[1..]);
      } else {
        StuckStaysAtRest(p, t, calls[1..]);
      }
    }
  }

  /** A closed session starts nothing, and a read in flight is the only one. */
  lemma NothingMore<M(!new), R>(p: Protocol<M, R>, s: State<M, R>, calls: seq<Action<M>>)
    requires Inv(p, s) && (s.closed || s.pendingReads != [])
    ensures AppliedAll(p, s, calls).pendingReads == s.pendingReads
    ensures Scheduled(p, AppliedAll(p, s, calls)).pendingReads == s.pendingReads
  {
    var t := AppliedAll(p, s, calls);
    AppliedAllCalls(p, s, calls);
    AppliedAllInv(p, s, calls);
    ScheduledCalls(p, t);
    ScheduledInv(p, t);
  }

  lemma StuckCall<M(!new), R>(p: Protocol<M, R>, s: State<M, R>, call: Action<M>)
    requires Resting(p, s) && Stuck(p, s)
    ensures var t := Applied(p, s, call);
            Inv(p, t) && t.pendingReads == [] && (!t.closed ==> Stuck(p, t))
  {
    AppliedInv(p, s, call);
    match call
    case Send(message) =>
      ScheduledFromRest(p, s.(queue := s.queue + [message], h := s.h.(accepted := s.h.accepted + [message])));
    case StartReading => ScheduledFromRest(p, s.(enabled := true));
    case SetDuplexMode(mode) => ScheduledFromRest(p, s.(mode := mode));
    case _ =>
  }

  /** What one call does to an open session with no read in flight. */
  lemma RestingCall<M(!new), R>(p: Protocol<M, R>, s: State<M, R>, call: Action<M>)
    requires Resting(p, s) && !Stuck(p, s)
    ensures var t := Applied(p, s, call);
            && (t.closed <==> Closes(p, s.queue != [], call))
            && (t.closed ==> t.pendingReads == [])
            && (!t.closed ==>
                  && t.enabled == EnabledAfter(s.enabled, call) && t.mode == ModeAfter(s.mode, call)
                  && (t.queue != [] <==> s.queue != [] || call.Send?)
                  && (t.pendingReads != [] <==> Schedules(call) && MayRead(t.enabled, t.mode, t.queue != []))
                  && !Stuck(p, t))
  {
    match call
    case Send(message) =>
      ScheduledFromRest(p, s.(queue := s.queue + [message], h := s.h.(accepted := s.h.accepted + [message])));
    case StartReading => ScheduledFromRest(p, s.(enabled := true));
    case SetDuplexMode(mode) => ScheduledFromRest(p, s.(mode := mode));
    case _ =>
  }

  lemma RestingCallSize<M(!new), R>(p: Protocol<M, R>, s: State<M, R>, call: Action<M>)
    requires Resting(p, s)
    ensures Applied(p, s, call).bufferSize == SizeAfter(s.bufferSize, call)
  {
  }

  /** The calls of a handler leave exactly the computed read in flight, with or without scheduling at the end. */
  lemma {:induction false} CallsLeave<M(!new), R>(p: Protocol<M, R>, s: State<M, R>, calls: seq<Action<M>>)
    requires Resting(p, s) && !Stuck(p, s)
    ensures AppliedAll(p, s, calls).pendingReads == ReadLeft(p, s, calls, false)
    ensures Scheduled(p, AppliedAll(p, s, calls)).pendingReads == ReadLeft(p, s, calls, true)
    decreases |calls|
  {
    if calls == [] {
      ScheduledFromRest(p, s);
    } else {
      var t := Applied(p, s, calls[0]);
      FirstCall(p, s, calls);
      AppliedInv(p, s, calls[0]);
      RestingCall(p, s, calls[0]);
      RestingCallSize(p, s, calls[0]);
      if t.closed || t.pendingReads != [] {
        NothingMore(p, t, calls[1..]);
      } else {
        CallsLeave(p, t, calls[1..]);
      }
    }
  }

  lemma RestartsExactly<M(!new), R>(p: Protocol<M, R>, s: State<M, R>, calls: seq<Action<M>>)
    requires Resting(p, s) && !Stuck(p, s)
    ensures AppliedAll(p, s, calls).pendingReads != [] <==> Restarts(p, s, calls)
  {
    CallsLeave(p, s, calls);
  }

  // ---- After data ----

  /**
   A successful read is followed by exactly the read the handler's calls and the scheduling behind them ask for: the
   handler runs first, so what it stops, resizes or switches counts for the next read.
   */
  lemma ReadAfterData<M(!new), R>(p: Protocol<M, R>, s: State<M, R>, e: Event<M>)
    requires Inv(p, s) && Enabled(s, e) && e.ReadDone? && CallbackFor(p, e.result).Data?
    ensures Next(p, s, e).pendingReads ==
            if s.closed || Stuck(p, s) then [] else ReadLeft(p, s, if s.handler then e.reaction else [], true)
  {
    var s1 := ReadReturned(s, e.result);
    var r := if s.handler then Recorded(s1, CallbackFor(p, e.result)) else s1;
    var calls := if s.handler then e.reaction else [];
    assert Inv(p, r) && AppliedAll(p, r, calls) == Notified(p, s1, CallbackFor(p, e.result), e.reaction);
    if s.closed {
      NothingMore(p, r, calls);
    } else if Stuck(p, s) {
      StuckStaysAtRest(p, r, calls);
    } else {
      CallsLeave(p, r, calls);
    }
  }

  function SizeAfterAll<M>(size: nat, calls: seq<Action<M>>): nat
    decreases |calls|
  {
    if calls == [] then size else SizeAfterAll(SizeAfter(size, calls[0]), calls[1..])
  }

  lemma {:induction false} QuietCallsLeave<M(!new), R>(
      p: Protocol<M, R>, enabled: bool, mode: DuplexMode, busy: bool, size: nat, calls: seq<Action<M>>)
    requires forall a :: a in calls ==> !Schedules(a)
    ensures ReadStartedBy(p, enabled, mode, busy, size, calls, true) ==
            if Close !in calls && StopReading !in calls && MayRead(enabled, mode, busy)
            then [SizeAfterAll(size, calls)] else []
    decreases |calls|
  {
    if calls != [] {
      assert calls == [calls[0]] + calls[1..] && calls[0] in calls;
      QuietCallsLeave(p, EnabledAfter(enabled, calls[0]), mode, busy, SizeAfter(size, calls[0]), calls[1..]);
    }
  }

  /**
   If no call of a data handler schedules, a read is outstanding afterwards exactly if it neither closed nor stopped
   reading, reading was on, and in half duplex there is nothing to write; its room follows the handler's resizes.
   */
  lemma ReadAfterQuietData<M(!new), R>(p: Protocol<M, R>, s: State<M, R>, e: Event<M>)
    requires Inv(p, s) && Enabled(s, e) && e.ReadDone? && CallbackFor(p, e.result).Data?
    requires s.handler && !s.closed && !Stuck(p, s) && forall a :: a in e.reaction ==> !Schedules(a)
    ensures Next(p, s, e).pendingReads ==
            if && Close !in e.reaction && StopReading !in e.reaction
               && s.enabled && (s.mode.FullDuplex? || s.queue == [])
            then [SizeAfterAll(s.bufferSize, e.reaction)] else []
  {
    ReadAfterData(p, s, e);
    QuietCallsLeave(p, s.enabled, s.mode, s.queue != [], s.bufferSize, e.reaction);
  }

  /** A read handler that ends by stopping to read has stopped it: after it no read starts until one is asked for. */
  lemma NoReadAfterHandlerStops<M(!new), R>(p: Protocol<M, R>, s: State<M, R>, e: Event<M>, es: seq<Event<M>>)
    requires Inv(p, s) && Enabled(s, e) && e.ReadDone? && s.handler
    requires e.reaction != [] && Last(e.reaction) == StopReading
    requires ValidRun(p, Next(p, s, e), es) && forall f :: f in es ==> LeavesReadingOff(f)
    ensures var t := Exec(p, Next(p, s, e), es);
            && !t.enabled && ReadsIn(es) + |t.pendingReads| == |Next(p, s, e).pendingReads|
            && ((forall a :: a in e.reaction ==> !Schedules(a)) ==> ReadsIn(es) == 0 && t.pendingReads == [])
  {
    var r := Recorded(ReadReturned(s, e.result), CallbackFor(p, e.result));
    ScheduledReadingOff(p, AppliedAll(p, r, e.reaction));
    if forall a :: a in e.reaction ==> !Schedules(a) {
      AppliedAllQuiet(p, r, e.reaction);
    }
    NoReadWhileOff(p, Next(p, s, e), es);
  }

  // ---- After a failing callback ----

  /** What the handler of a failing callback leaves in flight. */
  lemma FailureLeaves<M(!new), R>(p: Protocol<M, R>, s: State<M, R>, e: Event<M>)
    requires Inv(p, s) && Enabled(s, e) && e.ReadDone? && CallbackFor(p, e.result).Failed?
    ensures Next(p, s, e).pendingReads != [] <==>
            s.handler && !s.closed && !Stuck(p, s) && Restarts(p, s, e.reaction)
  {
    var r := Recorded(ReadReturned(s, e.result), CallbackFor(p, e.result));
    if s.closed {
      NothingMore(p, r, e.reaction);
    } else if Stuck(p, s) {
      StuckStaysAtRest(p, r, e.reaction);
    } else {
      RestartsExactly(p, r, e.reaction);
    }
  }

  /**
   After a failing read completion the handler is called again in some continuation exactly if there is a handler, the
   session was open and its calls start a read.
   */
  lemma CallbackAfterFailureExactly<M(!new), R(!new)>(p: Protocol<M, R>, s: State<M, R>, e: Event<M>)
    requires Inv(p, s) && Quiescent(s) && Enabled(s, e)
    requires e.ReadDone? && CallbackFor(p, e.result).Failed?
    ensures FurtherCallback(p, Next(p, s, e)) <==>
            s.handler && !s.closed && !Stuck(p, s) && Restarts(p, s, e.reaction)
  {
    NextInv(p, s, e);
    ReadFinishedCalls(p, s, e.result, e.reaction);
    FailureLeaves(p, s, e);
    CallbackAfterCloseExactly(p, Next(p, s, e));
  }
}
