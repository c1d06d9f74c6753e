/**
 The deprecated `AsyncSession`: the plain half-duplex scheduler, without preemption. On runs without close, error
 or calls from read handlers `SerialSession` is in lock-step with it.
 */
module PlainSession {
  import opened Common
  import opened TransportSpec
  import opened TransportInvariants
  import opened TransportProperties
  import opened SerialTransport

  /** The fields of an `AsyncSession`, its outstanding operations and its history. */
  datatype Plain = Plain(
    handler: bool, queue: seq<Chunk>, enabled: bool, reading: bool, writing: bool, closed: bool,
    mode: DuplexMode, bufferSize: nat, pendingReads: seq<nat>, pendingWrites: seq<Chunk>,
    started: seq<Chunk>, completed: seq<Chunk>, callbacks: seq<Callback<Chunk>>, starts: seq<Start>)

  /** What a serial session looks like to somebody who does not see the preemption flag. */
  function View(s: State<Chunk, Chunk>): Plain {
    Plain(s.handler, s.queue, s.enabled, s.reading, s.writing, s.closed, s.mode, s.bufferSize,
          s.pendingReads, s.pendingWrites, s.h.started, s.h.completed, s.h.callbacks, s.h.starts)
  }

  predicate PlainCanRead(s: Plain) {
    s.enabled && !s.reading && !s.closed && (s.mode.HalfDuplex? ==> !s.writing && s.queue == [])
  }

  predicate PlainCanWrite(s: Plain) {
    !s.writing && s.queue != [] && !s.closed && (s.mode.HalfDuplex? ==> !s.reading)
  }

  function PlainScheduled(s: Plain): Plain {
    var s1 := if PlainCanWrite(s)
              then s.(writing := true, pendingWrites := s.pendingWrites + [s.queue[0]],
                      started := s.started + [s.queue[0]],
                      starts := s.starts + [Start(true, s.mode, s.pendingReads != [])])
              else s;
    if PlainCanRead(s1)
    then s1.(reading := true, pendingReads := s1.pendingReads + [s1.bufferSize],
             starts := s1.starts + [Start(false, s1.mode, s1.pendingWrites != [])])
    else s1
  }

  /** No close, no error, and no call from inside a read handler. */
  predicate Undisturbed(e: Event<Chunk>) {
    match e
    case Call(action) => !action.Close?
    case InstallHandler(_) => true
    case ReadDone(result, reaction) => result.Bytes? && reaction == []
    case WriteDone(ok) => ok
  }

  /** A successful write pops the queue without looking, which is defined only if there is something to pop. */
  predicate PlainEnabled(s: Plain, e: Event<Chunk>) {
    && (e.ReadDone? ==> s.pendingReads != [] && (e.result.Bytes? ==> |e.result.data| <= s.pendingReads[0]))
    && (e.WriteDone? ==> s.pendingWrites != [] && (e.ok ==> s.queue != []))
  }

  function PlainReturned(s: Plain, callback: Callback<Chunk>): Plain
    requires s.pendingReads != []
  {
    s.(reading := false, pendingReads := s.pendingReads[1..],
       callbacks := s.callbacks + if s.handler then [callback] else [])
  }

  function PlainConsumed(s: Plain): Plain
    requires s.pendingWrites != [] && s.queue != []
  {
    s.(writing := false, pendingWrites := s.pendingWrites[1..], queue := s.queue[1..],
       completed := s.completed + [s.pendingWrites[0]])
  }

  /** One task. The calls a read handler makes are posted, so they are later tasks of their own. */
  function PlainNext(s: Plain, e: Event<Chunk>): Plain
    requires PlainEnabled(s, e)
  {
    match e
    case Call(Send(message)) => PlainScheduled(s.(queue := s.queue + [message]))
    case Call(Close) => s.(enabled := false, queue := [], closed := true)
    case Call(StartReading) => PlainScheduled(s.(enabled := true))
    case Call(StopReading) => s.(enabled := false)
    case Call(SetDuplexMode(mode)) => PlainScheduled(s.(mode := mode))
    case Call(SetReadBufferSize(size)) => if s.reading || size == 0 then s else s.(bufferSize := size)
    case InstallHandler(present) => s.(handler := present)
    case ReadDone(ReadError(error), _) => PlainReturned(s, Failed(error)).(closed := true)
    case ReadDone(Bytes(data), _) => PlainScheduled(PlainReturned(s, Data(data)))
    case WriteDone(ok) =>
      if ok then PlainScheduled(PlainConsumed(s))
      else s.(writing := false, pendingWrites := s.pendingWrites[1..], closed := true)
  }

  ghost predicate PlainValid(s: Plain, es: seq<Event<Chunk>>)
    decreases |es|, 0
  {
    es == [] || (PlainValid(s, Common.Init(es)) && PlainEnabled(PlainExec(s, Common.Init(es)), Last(es)))
  }

  ghost function PlainExec(s: Plain, es: seq<Event<Chunk>>): Plain
    requires PlainValid(s, es)
    decreases |es|, 1
  {
    if es == [] then s else PlainNext(PlainExec(s, Common.Init(es)), Last(es))
  }

  /** A read in flight has the whole current buffer. */
  predicate BufferOk(s: Plain) {
    s.pendingReads == if s.reading then [s.bufferSize] else []
  }

  lemma PlainScheduledBuffer(s: Plain)
    requires BufferOk(s)
    ensures BufferOk(PlainScheduled(s))
  {
  }

  lemma PlainNextBuffer(s: Plain, e: Event<Chunk>)
    requires BufferOk(s) && PlainEnabled(s, e)
    ensures BufferOk(PlainNext(s, e))
  {
    match e
    case Call(Send(message)) => PlainScheduledBuffer(s.(queue := s.queue + [message]));
    case Call(StartReading) => PlainScheduledBuffer(s.(enabled := true));
    case Call(SetDuplexMode(mode)) => PlainScheduledBuffer(s.(mode := mode));
    case Call(_) =>
    case InstallHandler(_) =>
    case ReadDone(Bytes(data), _) => PlainScheduledBuffer(PlainReturned(s, Data(data)));
    case ReadDone(ReadError(_), _) =>
    case WriteDone(ok) =>
      if ok {
        PlainScheduledBuffer(PlainConsumed(s));
      }
  }

  lemma {:induction false} PlainPrefix(s: Plain, es: seq<Event<Chunk>>, n: nat)
    requires PlainValid(s, es) && n <= |es|
    ensures PlainValid(s, es[..n])
    ensures n < |es| ==> PlainEnabled(PlainExec(s, es[..n]), es[n])
  {
    if n < |es| - 1 {
      PlainPrefix(s, Common.Init(es), n);
      assert Common.Init(es)[..n] == es[..n];
    } else if n == |es| {
      assert es[..n] == es;
    }
  }

  class AsyncSession {
    var readHandler: bool
    var writeQueue: seq<Chunk>
    var readEnabled: bool
    var readInProgress: bool
    var writeInProgress: bool
    var closed: bool
    var duplexMode: DuplexMode
    var readBuffer: seq<byte>

    ghost var pendingReads: seq<nat>
    ghost var pendingWrites: seq<Chunk>
    ghost var started: seq<Chunk>
    ghost var completed: seq<Chunk>
    ghost var callbacks: seq<Callback<Chunk>>
    ghost var starts: seq<Start>

    ghost function Snapshot(): Plain
      reads this
    {
      Plain(readHandler, writeQueue, readEnabled, readInProgress, writeInProgress, closed, duplexMode, |readBuffer|,
            pendingReads, pendingWrites, started, completed, callbacks, starts)
    }

    ghost predicate Valid()
      reads this
    {
      BufferOk(Snapshot())
    }

    constructor ()
      ensures Snapshot() == View(Opened(FullDuplex, DEFAULT_READ_BUFFER_SIZE)) && Valid()
    {
      readHandler, readEnabled, readInProgress, writeInProgress, closed := false, false, false, false, false;
      writeQueue, duplexMode := [], FullDuplex;
      readBuffer := seq(DEFAULT_READ_BUFFER_SIZE, _ => 0 as byte);
      pendingReads, pendingWrites, started, completed, callbacks, starts := [], [], [], [], [], [];
    }

    predicate CanStartRead()
      reads this
      ensures CanStartRead() == PlainCanRead(Snapshot())
    {
      if !readEnabled || readInProgress || closed then false
      else if duplexMode == HalfDuplex then !writeInProgress && writeQueue == []
      else true
    }

    predicate CanStartWrite()
      reads this
      ensures CanStartWrite() == PlainCanWrite(Snapshot())
    {
      if writeInProgress || writeQueue == [] || closed then false
      else if duplexMode == HalfDuplex then !readInProgress
      else true
    }

    method DoRead()
      modifies this
      ensures Snapshot() == old(Snapshot()).(reading := true, pendingReads := old(pendingReads) + [old(|readBuffer|)],
                            starts := old(starts) + [Start(false, old(duplexMode), old(pendingWrites) != [])])
    {
      readInProgress := true;
      starts := starts + [Start(false, duplexMode, pendingWrites != [])];
      pendingReads := pendingReads + [|readBuffer|];
    }

    method DoWrite()
      requires writeQueue != []
      modifies this
      ensures Snapshot() == old(Snapshot()).(writing := true,
                            pendingWrites := old(pendingWrites) + [old(writeQueue)[0]],
                            started := old(started) + [old(writeQueue)[0]],
                            starts := old(starts) + [Start(true, old(duplexMode), old(pendingReads) != [])])
    {
      writeInProgress := true;
      started := started + [writeQueue[0]];
      starts := starts + [Start(true, duplexMode, pendingReads != [])];
      pendingWrites := pendingWrites + [writeQueue[0]];
    }

    method ScheduleOperations()
      modifies this
      ensures Snapshot() == PlainScheduled(old(Snapshot()))
    {
      if CanStartWrite() {
        DoWrite();
      }
      if CanStartRead() {
        DoRead();
      }
    }

    // ---- The posted tasks ----

    method Send(message: Chunk)
      modifies this
      ensures Snapshot() == PlainNext(old(Snapshot()), Call(Action.Send(message)))
    {
      writeQueue := writeQueue + [message];
      ScheduleOperations();
    }

    method Close()
      modifies this
      ensures Snapshot() == PlainNext(old(Snapshot()), Call(Action.Close))
    {
      readEnabled := false;
      writeQueue := [];
      CloseSocket();
    }

    method CloseSocket()
      modifies `closed
      ensures closed
    {
      if closed {
        return;
      }
      closed := true;
    }

    method StartReading()
      modifies this
      ensures Snapshot() == PlainNext(old(Snapshot()), Call(Action.StartReading))
    {
      readEnabled := true;
      ScheduleOperations();
    }

    method StopReading()
      modifies this
      ensures Snapshot() == PlainNext(old(Snapshot()), Call(Action.StopReading))
    {
      readEnabled := false;
    }

    method SetDuplexMode(mode: DuplexMode)
      modifies this
      ensures Snapshot() == PlainNext(old(Snapshot()), Call(Action.SetDuplexMode(mode)))
    {
      duplexMode := mode;
      ScheduleOperations();
    }

    method SetReadBufferSize(size: nat)
      modifies this
      ensures Snapshot() == PlainNext(old(Snapshot()), Call(Action.SetReadBufferSize(size)))
    {
      if readInProgress || size == 0 {
        return;
      }
      readBuffer := Resize(readBuffer, size);
    }

    method SetReadHandler(present: bool)
      modifies this
      ensures Snapshot() == PlainNext(old(Snapshot()), InstallHandler(present))
    {
      readHandler := present;
    }

    method NotifyRead(callback: Callback<Chunk>)
      modifies `callbacks
      ensures callbacks == old(callbacks) + if readHandler then [callback] else []
    {
      if readHandler {
        callbacks := callbacks + [callback];
      }
    }

    method OnRead(result: ReadResult)
      requires pendingReads != [] && (result.Bytes? ==> |result.data| <= pendingReads[0] <= |readBuffer|)
      modifies this
      ensures Snapshot() == PlainNext(old(Snapshot()), ReadDone(result, []))
    {
      pendingReads := pendingReads[1..];
      readInProgress := false;
      if result.ReadError? {
        NotifyRead(Failed(result.error));
        CloseSocket();
        return;
      }
      readBuffer := result.data + readBuffer[|result.data|..];
      NotifyRead(Data(readBuffer[..|result.data|]));
      assert Snapshot() == PlainReturned(old(Snapshot()), Data(result.data));
      ScheduleOperations();
    }

    method OnWrite(ok: bool)
      requires pendingWrites != [] && (ok ==> writeQueue != [])
      modifies this
      ensures Snapshot() == PlainNext(old(Snapshot()), WriteDone(ok))
    {
      ghost var message := pendingWrites[0];
      pendingWrites := pendingWrites[1..];
      writeInProgress := false;
      if !ok {
        CloseSocket();
        return;
      }
      completed := completed + [message];
      writeQueue := writeQueue[1..];
      assert Snapshot() == PlainConsumed(old(Snapshot()));
      ScheduleOperations();
    }

    // ---- The strand ----

    method Perform(action: Action<Chunk>)
      modifies this
      ensures Snapshot() == PlainNext(old(Snapshot()), Call(action))
    {
      match action
      case Send(message) => Send(message);
      case Close => Close();
      case StartReading => StartReading();
      case StopReading => StopReading();
      case SetDuplexMode(mode) => SetDuplexMode(mode);
      case SetReadBufferSize(size) => SetReadBufferSize(size);
    }

    /** One task of the strand. */
    method RunTask(e: Event<Chunk>)
      requires Valid() && PlainEnabled(Snapshot(), e)
      modifies this
      ensures Snapshot() == PlainNext(old(Snapshot()), e) && Valid()
    {
      PlainNextBuffer(Snapshot(), e);
      match e
      case Call(action) => Perform(action);
      case InstallHandler(present) => SetReadHandler(present);
      case ReadDone(result, _) => OnRead(result);
      case WriteDone(ok) => OnWrite(ok);
    }

    /** The strand runs its tasks one after the other: the session takes exactly the steps of `PlainExec`. */
    method Run(es: seq<Event<Chunk>>)
      requires Valid() && PlainValid(Snapshot(), es)
      modifies this
      ensures Snapshot() == PlainExec(old(Snapshot()), es) && Valid()
    {
      ghost var s := Snapshot();
      for i := 0 to |es|
        invariant Valid() && PlainValid(s, es[..i])
        invariant Snapshot() == PlainExec(s, es[..i])
      {
        PlainPrefix(s, es, i);
        PlainPrefix(s, es, i + 1);
        assert Common.Init(es[..i + 1]) == es[..i];
        RunTask(es[i]);
      }
      assert es[..|es|] == es;
    }
  }

  // ---- What the plain scheduler keeps, with closes and errors ----

  function SentBy(e: Event<Chunk>): seq<Chunk> {
    if e.Call? && e.action.Send? then [e.action.message] else []
  }

  /** The messages sent in a run. */
  function PlainSends(es: seq<Event<Chunk>>): seq<Chunk> {
    if es == [] then []
    else PlainSends(Common.Init(es)) + SentBy(Last(es))
  }

  /** The task closes the socket. */
  predicate Ends(e: Event<Chunk>) {
    match e
    case Call(action) => action.Close?
    case InstallHandler(_) => false
    case ReadDone(result, _) => result.ReadError?
    case WriteDone(ok) => !ok
  }

  predicate Ended(es: seq<Event<Chunk>>) {
    es != [] && (Ended(Common.Init(es)) || Ends(Last(es)))
  }

  /** `sent` is all that was sent so far. */
  predicate PlainOk(s: Plain, sent: seq<Chunk>) {
    && BufferOk(s)
    && |s.pendingWrites| == (if s.writing then 1 else 0)
    && (!s.closed ==>
      && sent == s.completed + s.queue && s.started == s.completed + s.pendingWrites && s.pendingWrites <= s.queue)
    && s.completed + s.pendingWrites <= s.started <= sent
  }

  predicate PlainQuiescent(s: Plain) {
    !PlainCanRead(s) && !PlainCanWrite(s)
  }

  lemma PlainScheduledOk(s: Plain, sent: seq<Chunk>)
    requires PlainOk(s, sent)
    ensures PlainOk(PlainScheduled(s), sent) && PlainQuiescent(PlainScheduled(s))
    ensures s.closed ==> PlainScheduled(s) == s
    ensures var t := PlainScheduled(s); t.closed == s.closed && t.handler == s.handler && t.callbacks == s.callbacks
  {
  }

  lemma PlainConsumedOk(s: Plain, sent: seq<Chunk>)
    requires PlainOk(s, sent) && s.pendingWrites != [] && s.queue != []
    ensures PlainOk(PlainConsumed(s), sent)
  {
    assert s.pendingWrites == [s.pendingWrites[0]];
    if !s.closed {
      assert s.queue == s.pendingWrites + s.queue[1..];
    }
  }

  lemma PlainFailedOk(s: Plain, sent: seq<Chunk>)
    requires PlainOk(s, sent) && s.pendingWrites != []
    ensures PlainOk(s.(writing := false, pendingWrites := s.pendingWrites[1..], closed := true), sent)
  {
    assert s.pendingWrites[1..] == [];
    assert s.completed + [] <= s.completed + s.pendingWrites;
  }

  function ReadingAfter(enabled: bool, e: Event<Chunk>): bool {
    if !e.Call? then enabled
    else if e.action.StartReading? then true
    else enabled && !e.action.StopReading? && !e.action.Close?
  }

  /** Whether reading is on after these tasks: switched by clients alone, errors leave it as it is. */
  function ReadingOf(es: seq<Event<Chunk>>): bool {
    es != [] && ReadingAfter(ReadingOf(Common.Init(es)), Last(es))
  }

  /** What one task may change. */
  predicate PlainFollows(s: Plain, t: Plain, e: Event<Chunk>) {
    && (t.closed <==> s.closed || Ends(e))
    && (s.closed ==> t.started == s.started && t.starts == s.starts)
    && t.handler == (if e.InstallHandler? then e.present else s.handler)
    && t.callbacks == s.callbacks + CallsBack(SerialProtocol(), s.handler, e)
    && t.enabled == ReadingAfter(s.enabled, e)
    && (e.ReadDone? || (e.WriteDone? && !e.ok) ==> t.queue == s.queue)
  }

  lemma PlainQueuedOk(s: Plain, sent: seq<Chunk>, message: Chunk)
    requires PlainOk(s, sent)
    ensures PlainOk(s.(queue := s.queue + [message]), sent + [message])
  {
    if !s.closed {
      assert s.completed + (s.queue + [message]) == sent + [message];
    }
  }

  lemma PlainCallOk(s: Plain, sent: seq<Chunk>, action: Action<Chunk>)
    requires PlainOk(s, sent) && PlainQuiescent(s)
    ensures PlainOk(PlainNext(s, Call(action)), sent + SentBy(Call(action)))
    ensures PlainQuiescent(PlainNext(s, Call(action)))
  {
    match action
    case Send(message) =>
      PlainQueuedOk(s, sent, message);
      PlainScheduledOk(s.(queue := s.queue + [message]), sent + [message]);
    case StartReading => PlainScheduledOk(s.(enabled := true), sent);
    case SetDuplexMode(mode) => PlainScheduledOk(s.(mode := mode), sent);
    case _ => assert sent + [] == sent;
  }

  lemma PlainCallFollows(s: Plain, action: Action<Chunk>)
    ensures PlainFollows(s, PlainNext(s, Call(action)), Call(action))
  {
    assert s.callbacks + [] == s.callbacks;
  }

  lemma PlainReadOk(s: Plain, sent: seq<Chunk>, result: ReadResult, reaction: seq<Action<Chunk>>)
    requires PlainOk(s, sent) && PlainQuiescent(s) && PlainEnabled(s, ReadDone(result, reaction))
    ensures var e := ReadDone(result, reaction);
            PlainOk(PlainNext(s, e), sent) && PlainQuiescent(PlainNext(s, e)) && PlainFollows(s, PlainNext(s, e), e)
  {
    match result
    case Bytes(data) => PlainScheduledOk(PlainReturned(s, Data(data)), sent);
    case ReadError(_) =>
  }

  lemma PlainWriteOk(s: Plain, sent: seq<Chunk>, ok: bool)
    requires PlainOk(s, sent) && PlainQuiescent(s) && PlainEnabled(s, WriteDone(ok))
    ensures var t := PlainNext(s, WriteDone(ok));
            PlainOk(t, sent) && PlainQuiescent(t) && PlainFollows(s, t, WriteDone(ok))
  {
    if ok {
      PlainConsumedOk(s, sent);
      PlainScheduledOk(PlainConsumed(s), sent);
    } else {
      PlainFailedOk(s, sent);
    }
  }

  lemma PlainNextOk(s: Plain, sent: seq<Chunk>, e: Event<Chunk>)
    requires PlainOk(s, sent) && PlainQuiescent(s) && PlainEnabled(s, e)
    ensures PlainOk(PlainNext(s, e), sent + SentBy(e)) && PlainQuiescent(PlainNext(s, e))
    ensures PlainFollows(s, PlainNext(s, e), e)
  {
    assert sent + [] == sent;
    match e
    case Call(action) =>
      PlainCallOk(s, sent, action);
      PlainCallFollows(s, action);
    case InstallHandler(_) =>
    case ReadDone(result, reaction) => PlainReadOk(s, sent, result, reaction);
    case WriteDone(ok) => PlainWriteOk(s, sent, ok);
  }

  /**
   In every run, with closes and errors: closed exactly if some task closed the socket; every completed read called the
   installed handler once; while open the messages sent are the completed ones and the queue; nothing is left to start.
   */
  lemma {:induction false} PlainRuns(mode: DuplexMode, size: nat, es: seq<Event<Chunk>>)
    requires PlainValid(View(Opened(mode, size)), es)
    ensures var t := PlainExec(View(Opened(mode, size)), es);
            && PlainOk(t, PlainSends(es)) && PlainQuiescent(t)
            && (t.closed <==> Ended(es))
            && t.handler == HandlerAfter(es) && t.callbacks == CallbacksOf(SerialProtocol(), es)
            && t.enabled == ReadingOf(es)
  {
    if es != [] {
      PlainRuns(mode, size, Common.Init(es));
      var s := PlainExec(View(Opened(mode, size)), Common.Init(es));
      PlainNextOk(s, PlainSends(Common.Init(es)), Last(es));
    }
  }

  lemma PlainScheduledClosed(s: Plain)
    requires s.closed
    ensures PlainScheduled(s) == s
  {
  }

  lemma PlainNextClosed(s: Plain, e: Event<Chunk>)
    requires s.closed && PlainEnabled(s, e)
    ensures var t := PlainNext(s, e); t.closed && t.started == s.started && t.starts == s.starts
  {
    match e
    case Call(Send(message)) => PlainScheduledClosed(s.(queue := s.queue + [message]));
    case Call(StartReading) => PlainScheduledClosed(s.(enabled := true));
    case Call(SetDuplexMode(mode)) => PlainScheduledClosed(s.(mode := mode));
    case Call(_) =>
    case InstallHandler(_) =>
    case ReadDone(Bytes(data), _) => PlainScheduledClosed(PlainReturned(s, Data(data)));
    case ReadDone(ReadError(_), _) =>
    case WriteDone(ok) =>
      if ok {
        PlainScheduledClosed(PlainConsumed(s));
      }
  }

  lemma {:induction false} PlainStaysClosed(s: Plain, es: seq<Event<Chunk>>)
    requires s.closed && PlainValid(s, es)
    ensures var t := PlainExec(s, es); t.closed && t.started == s.started && t.starts == s.starts
  {
    if es != [] {
      PlainStaysClosed(s, Common.Init(es));
      PlainNextClosed(PlainExec(s, Common.Init(es)), Last(es));
    }
  }

  /** A close leaves nothing queued and reading off, and nothing is started then or later. */
  lemma PlainNothingAfterClose(s: Plain, es: seq<Event<Chunk>>)
    requires PlainValid(PlainNext(s, Call(Action.Close)), es)
    ensures var c := PlainNext(s, Call(Action.Close));
            && c.queue == [] && !c.enabled
            && PlainExec(c, es).closed && PlainExec(c, es).started == s.started && PlainExec(c, es).starts == s.starts
  {
    PlainStaysClosed(PlainNext(s, Call(Action.Close)), es);
  }

  // ---- Lock-step ----

  lemma ScheduledInStep(s: State<Chunk, Chunk>)
    requires Inv(SerialProtocol(), s) && !s.closed
    ensures View(Scheduled(SerialProtocol(), s)) == PlainScheduled(View(s)) && !Scheduled(SerialProtocol(), s).closed
  {
  }

  lemma ReadInStep(s: State<Chunk, Chunk>, data: seq<byte>)
    requires Inv(SerialProtocol(), s) && !s.closed && s.pendingReads != []
    ensures var t := ReadFinished(SerialProtocol(), s, Bytes(data), []);
            !t.closed && View(t) == PlainScheduled(PlainReturned(View(s), Data(data)))
  {
    var s1 := ReadReturned(s, Bytes(data));
    var s2 := if s.handler then Recorded(s1, Data(data)) else s1;
    assert AppliedAll(SerialProtocol(), s2, []) == s2;
    ScheduledInStep(s2);
    assert s.h.callbacks + [] == s.h.callbacks;
  }

  lemma CallInStep(s: State<Chunk, Chunk>, action: Action<Chunk>)
    requires Inv(SerialProtocol(), s) && !s.closed && !action.Close?
    ensures View(Applied(SerialProtocol(), s, action)) == PlainNext(View(s), Call(action))
    ensures !Applied(SerialProtocol(), s, action).closed
  {
    match action
    case Send(message) =>
      ScheduledInStep(s.(queue := s.queue + [message], h := s.h.(accepted := s.h.accepted + [message])));
    case StartReading => ScheduledInStep(s.(enabled := true));
    case SetDuplexMode(mode) => ScheduledInStep(s.(mode := mode));
    case _ =>
  }

  lemma NextInStep(s: State<Chunk, Chunk>, e: Event<Chunk>)
    requires Inv(SerialProtocol(), s) && !s.closed && Undisturbed(e) && Enabled(s, e)
    ensures PlainEnabled(View(s), e)
    ensures View(Next(SerialProtocol(), s, e)) == PlainNext(View(s), e) && !Next(SerialProtocol(), s, e).closed
  {
    match e
    case Call(action) => CallInStep(s, action);
    case ReadDone(Bytes(data), _) => ReadInStep(s, data);
    case WriteDone(_) =>
      ConsumedInv(SerialProtocol(), s);
      ScheduledInStep(Consumed(s));
    case InstallHandler(_) =>
  }

  /** Same operations started in the same order, same callbacks, same flags and queue, after every task of the run. */
  lemma {:induction false} LockStep(mode: DuplexMode, size: nat, es: seq<Event<Chunk>>)
    requires 0 < size && ValidRun(SerialProtocol(), Opened(mode, size), es)
    requires forall e :: e in es ==> Undisturbed(e)
    ensures PlainValid(View(Opened(mode, size)), es)
    ensures View(Exec(SerialProtocol(), Opened(mode, size), es)) == PlainExec(View(Opened(mode, size)), es)
    ensures !Exec(SerialProtocol(), Opened(mode, size), es).closed
  {
    if es != [] {
      assert es == Common.Init(es) + [Last(es)];
      LockStep(mode, size, Common.Init(es));
      ExecInv(SerialProtocol(), Opened(mode, size), Common.Init(es));
      NextInStep(Exec(SerialProtocol(), Opened(mode, size), Common.Init(es)), Last(es));
    }
  }
}
