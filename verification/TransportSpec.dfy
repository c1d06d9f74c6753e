/**
 A value-level specification of the CRTP template `AsyncTransportSession` together with the hooks its
 transports supply. A `State` holds the fields of a session, the operations the operating system
 still owes a completion for, and the history of the session. The classes `SerialSession` and
 `CanSession` are proved to take exactly the steps defined here.
 */
module TransportSpec {
  import opened Common

  datatype DuplexMode = FullDuplex | HalfDuplex

  datatype ErrorCode = OperationAborted | ProtocolError | OtherError

  /** What the user's read handler is called with. */
  datatype Callback<+R> = Data(value: R) | Failed(error: ErrorCode)

  /** The calls a client can make; inside a read handler they take effect at once. */
  datatype Action<+M> =
    | Send(message: M)
    | Close
    | StartReading
    | StopReading
    | SetDuplexMode(mode: DuplexMode)
    | SetReadBufferSize(size: nat)

  /** How an outstanding read completes: bytes stored at the front of the read buffer, or an error. */
  datatype ReadResult = Bytes(data: seq<byte>) | ReadError(error: ErrorCode)

  /** One task of the session's strand. `reaction` lists the calls the read handler makes, if it runs. */
  datatype Event<+M> =
    | Call(action: Action<M>)
    | InstallHandler(present: bool)
    | ReadDone(result: ReadResult, reaction: seq<Action<M>>)
    | WriteDone(ok: bool)

  /** The hooks of a transport: which messages it can put on the wire, and how it decodes received bytes. */
  datatype Protocol<!M, !R> = Protocol(encodes: M -> bool, decode: seq<byte> -> Option<R>)

  /** The start of an operation: its kind, the duplex mode, and whether the opposite one was in flight. */
  datatype Start = Start(isWrite: bool, mode: DuplexMode, otherInFlight: bool)

  /**
   accepted: messages taken by `send`; started: messages handed to the operating system;
   completed: messages whose write succeeded; received: bytes of each successful read;
   callbacks: invocations of the read handler; cancels: calls of `socket_.cancel`.
   */
  datatype History<+M, +R> = History(
    accepted: seq<M>, started: seq<M>, completed: seq<M>,
    received: seq<seq<byte>>, callbacks: seq<Callback<R>>, starts: seq<Start>, cancels: nat)

  /** `pendingReads` holds the buffer size of each read outstanding, `pendingWrites` the message of each write. */
  datatype State<+M, +R> = State(
    handler: bool, queue: seq<M>, enabled: bool, reading: bool, writing: bool, closed: bool,
    mode: DuplexMode, pause: bool, bufferSize: nat,
    pendingReads: seq<nat>, pendingWrites: seq<M>, h: History<M, R>)

  /** A freshly opened session. */
  function Opened<M, R>(mode: DuplexMode, bufferSize: nat): State<M, R> {
    State(false, [], false, false, false, false, mode, false, bufferSize, [], [],
          History([], [], [], [], [], [], 0))
  }

  // ---- The scheduler ----

  predicate CanStartRead<M, R>(s: State<M, R>) {
    && s.enabled && !s.reading && !s.closed
    && (s.mode.HalfDuplex? ==> !s.writing && s.queue == [])
  }

  predicate CanStartWrite<M, R>(s: State<M, R>) {
    && !s.writing && s.queue != [] && !s.closed
    && (s.mode.HalfDuplex? ==> !s.reading && !s.pause)
  }

  function Closing<M, R>(s: State<M, R>): State<M, R> {
    if s.closed then s else s.(enabled := false, queue := [], closed := true)
  }

  function ReadStarted<M, R>(s: State<M, R>): State<M, R> {
    s.(reading := true, pause := false, pendingReads := s.pendingReads + [s.bufferSize],
       h := s.h.(starts := s.h.starts + [Start(false, s.mode, s.pendingWrites != [])]))
  }

  function WriteStarted<M(==), R(==)>(p: Protocol<M, R>, s: State<M, R>): State<M, R> {
    if s.queue == [] then s
    else if s.mode.HalfDuplex? && s.reading then s.(pause := true, h := s.h.(cancels := s.h.cancels + 1))
    else if !p.encodes(s.queue[0]) then Closing(s)
    else s.(writing := true, pendingWrites := s.pendingWrites + [s.queue[0]],
            h := s.h.(started := s.h.started + [s.queue[0]],
                      starts := s.h.starts + [Start(true, s.mode, s.pendingReads != [])]))
  }

  function Scheduled<M(==), R(==)>(p: Protocol<M, R>, s: State<M, R>): State<M, R> {
    var s1 := if CanStartWrite(s) then WriteStarted(p, s) else s;
    if CanStartRead(s1) then ReadStarted(s1) else s1
  }

  // ---- The client's calls ----

  function Sending<M(==), R(==)>(p: Protocol<M, R>, s: State<M, R>, message: M): State<M, R> {
    if s.closed then s
    else Scheduled(p, s.(queue := s.queue + [message], h := s.h.(accepted := s.h.accepted + [message])))
  }

  function ReadingOn<M(==), R(==)>(p: Protocol<M, R>, s: State<M, R>): State<M, R> {
    if s.closed then s else Scheduled(p, s.(enabled := true))
  }

  function Resized<M, R>(s: State<M, R>, size: nat): State<M, R> {
    if s.reading || size == 0 then s else s.(bufferSize := size)
  }

  function Applied<M(==), R(==)>(p: Protocol<M, R>, s: State<M, R>, action: Action<M>): State<M, R> {
    match action
    case Send(message) => Sending(p, s, message)
    case Close => Closing(s)
    case StartReading => ReadingOn(p, s)
    case StopReading => s.(enabled := false)
    case SetDuplexMode(mode) => Scheduled(p, s.(mode := mode))
    case SetReadBufferSize(size) => Resized(s, size)
  }

  /** The calls of a handler, made one after the other. */
  function AppliedAll<M(==), R(==)>(p: Protocol<M, R>, s: State<M, R>, actions: seq<Action<M>>): State<M, R> {
    if actions == [] then s
    else Applied(p, AppliedAll(p, s, actions[..|actions| - 1]), actions[|actions| - 1])
  }

  // ---- The completions ----

  /** The callback a read completion owes the handler; bytes that cannot be decoded count as an error. */
  function CallbackFor<M, R>(p: Protocol<M, R>, result: ReadResult): Callback<R> {
    match result
    case ReadError(error) => Failed(error)
    case Bytes(data) => match p.decode(data) case None => Failed(ProtocolError) case Some(value) => Data(value)
  }

  function Recorded<M, R>(s: State<M, R>, callback: Callback<R>): State<M, R> {
    s.(h := s.h.(callbacks := s.h.callbacks + [callback]))
  }

  function Notified<M(==), R(==)>(p: Protocol<M, R>, s: State<M, R>, callback: Callback<R>, reaction: seq<Action<M>>)
    : State<M, R>
  {
    if s.handler then AppliedAll(p, Recorded(s, callback), reaction) else s
  }

  function ReadReturned<M, R>(s: State<M, R>, result: ReadResult): State<M, R>
    requires s.pendingReads != []
  {
    s.(reading := false, pendingReads := s.pendingReads[1..],
       h := s.h.(received := s.h.received + if result.Bytes? then [result.data] else []))
  }

  function ReadFinished<M(==), R(==)>(p: Protocol<M, R>, s: State<M, R>, result: ReadResult, reaction: seq<Action<M>>)
    : State<M, R>
    requires s.pendingReads != []
  {
    var s1 := ReadReturned(s, result);
    if s1.pause && result == ReadError(OperationAborted) then Scheduled(p, s1)
    else
      var callback := CallbackFor(p, result);
      var s2 := Notified(p, s1, callback, reaction);
      if callback.Failed? then Closing(s2) else Scheduled(p, s2)
  }

  /** A successful write completion, just before it schedules; after a close there is no head to consume. */
  function Consumed<M, R>(s: State<M, R>): State<M, R>
    requires s.pendingWrites != []
  {
    s.(writing := false, pendingWrites := s.pendingWrites[1..],
       queue := if s.queue == [] then [] else s.queue[1..],
       h := s.h.(completed := s.h.completed + [s.pendingWrites[0]]))
  }

  function WriteFinished<M(==), R(==)>(p: Protocol<M, R>, s: State<M, R>, ok: bool): State<M, R>
    requires s.pendingWrites != []
  {
    if ok then Scheduled(p, Consumed(s))
    else Closing(s.(writing := false, pendingWrites := s.pendingWrites[1..]))
  }

  // ---- Runs ----

  /** A completion needs an outstanding operation, and a read delivers no more bytes than it was given room for. */
  predicate Enabled<M, R>(s: State<M, R>, e: Event<M>) {
    match e
    case Call(_) => true
    case InstallHandler(_) => true
    case ReadDone(result, _) => s.pendingReads != [] && (result.Bytes? ==> |result.data| <= s.pendingReads[0])
    case WriteDone(_) => s.pendingWrites != []
  }

  function Next<M(==), R(==)>(p: Protocol<M, R>, s: State<M, R>, e: Event<M>): State<M, R>
    requires Enabled(s, e)
  {
    match e
    case Call(action) => Applied(p, s, action)
    case InstallHandler(present) => s.(handler := present)
    case ReadDone(result, reaction) => ReadFinished(p, s, result, reaction)
    case WriteDone(ok) => WriteFinished(p, s, ok)
  }

  ghost predicate ValidRun<M, R>(p: Protocol<M, R>, s: State<M, R>, es: seq<Event<M>>)
    decreases |es|, 0
  {
    es == [] || (ValidRun(p, s, Init(es)) && Enabled(Exec(p, s, Init(es)), Last(es)))
  }

  /** The state after the tasks `es`, run one after the other from `s`. */
  ghost function Exec<M, R>(p: Protocol<M, R>, s: State<M, R>, es: seq<Event<M>>): State<M, R>
    requires ValidRun(p, s, es)
    decreases |es|, 1
  {
    if es == [] then s else Next(p, Exec(p, s, Init(es)), Last(es))
  }
}
