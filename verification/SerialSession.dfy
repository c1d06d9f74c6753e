/** The serial transport: byte chunks in both directions, full or half duplex. */
module SerialTransport {
  import opened Common
  import opened TransportSpec
  import opened TransportInvariants
  import opened TransportProperties

  type Chunk = seq<byte>

  const DEFAULT_READ_BUFFER_SIZE: nat := 1024

  /** Any chunk can be written, and a successful read delivers the bytes received. */
  function SerialProtocol(): Protocol<Chunk, Chunk> {
    Protocol((message: Chunk) => true, (data: seq<byte>) => Some(data))
  }

  /** `std::vector::resize`: cut off, or filled up with zeros. */
  function Resize(buffer: seq<byte>, size: nat): (r: seq<byte>)
    ensures |r| == size
    ensures forall i :: 0 <= i < size ==> r[i] == if i < |buffer| then buffer[i] else 0
  {
    if size <= |buffer| then buffer[..size] else buffer + seq(size - |buffer|, _ => 0 as byte)
  }

  /**
   A read handler is represented by the calls it makes; which ones is up to the caller of `OnRead`.
   The ghost fields are the operations the device still has to complete and the history of the session.
   */
  class SerialSession {
    var readHandler: bool
    var writeQueue: seq<Chunk>
    var readEnabled: bool
    var readInProgress: bool
    var writeInProgress: bool
    var closed: bool

    var duplexMode: DuplexMode
    var readBuffer: seq<byte>
    var readPauseForWrite: bool

    ghost var pendingReads: seq<nat>
    ghost var pendingWrites: seq<Chunk>
    ghost var history: History<Chunk, Chunk>

    ghost function Snapshot(): State<Chunk, Chunk>
      reads this
    {
      State(readHandler, writeQueue, readEnabled, readInProgress, writeInProgress, closed,
            duplexMode, readPauseForWrite, |readBuffer|, pendingReads, pendingWrites, history)
    }

    ghost predicate Valid()
      reads this
    {
      Inv(SerialProtocol(), Snapshot())
    }

    constructor ()
      ensures Snapshot() == Opened(FullDuplex, DEFAULT_READ_BUFFER_SIZE) && Valid()
    {
      readHandler, readEnabled, readInProgress, writeInProgress, closed := false, false, false, false, false;
      writeQueue, duplexMode, readPauseForWrite := [], FullDuplex, false;
      readBuffer := seq(DEFAULT_READ_BUFFER_SIZE, _ => 0 as byte);
      pendingReads, pendingWrites, history := [], [], History([], [], [], [], [], [], 0);
    }

    /**
     `apply_config`; `portAccepts` tells whether the port takes all of its options. Called while a read is in flight
     it replaces the buffer the read writes to.
     */
    method ApplyConfig(portAccepts: bool, mode: DuplexMode, readBufferSize: nat) returns (ok: bool)
      modifies this
      ensures ok <==> portAccepts && 0 < readBufferSize
      ensures Snapshot() == if ok then old(Snapshot()).(mode := mode, bufferSize := readBufferSize) else old(Snapshot())
      ensures readBuffer == if ok then Resize(old(readBuffer), readBufferSize) else old(readBuffer)
      ensures old(Valid()) && (ok ==> !old(readInProgress)) ==> Valid()
    {
      ok := portAccepts && readBufferSize != 0;
      if ok {
        duplexMode := mode;
        readBuffer := Resize(readBuffer, readBufferSize);
      }
    }

    method SetReadHandler(present: bool)
      modifies this
      ensures Snapshot() == old(Snapshot()).(handler := present)
    {
      readHandler := present;
    }

    predicate CanStartRead()
      reads this
      ensures CanStartRead() == TransportSpec.CanStartRead(Snapshot())
    {
      if !readEnabled || readInProgress || closed then false
      else if duplexMode == HalfDuplex then !writeInProgress && writeQueue == []
      else true
    }

    predicate CanStartWrite()
      reads this
      ensures CanStartWrite() == TransportSpec.CanStartWrite(Snapshot())
    {
      if writeInProgress || writeQueue == [] || closed then false
      else if duplexMode == HalfDuplex then !readInProgress && !readPauseForWrite
      else true
    }

    method DoRead()
      modifies this
      ensures Snapshot() == ReadStarted(old(Snapshot()))
      ensures readBuffer == old(readBuffer)
    {
      readInProgress := true;
      readPauseForWrite := false;
      history := history.(starts := history.starts + [Start(false, duplexMode, pendingWrites != [])]);
      pendingReads := pendingReads + [|readBuffer|];
    }

    method DoWrite()
      modifies this
      ensures Snapshot() == WriteStarted(SerialProtocol(), old(Snapshot()))
      ensures readBuffer == old(readBuffer)
    {
      if writeQueue == [] {
        return;
      }
      if duplexMode == HalfDuplex && readInProgress {
        readPauseForWrite := true;
        history := history.(cancels := history.cancels + 1);
        return;
      }
      writeInProgress := true;
      history := history.(started := history.started + [writeQueue[0]],
                          starts := history.starts + [Start(true, duplexMode, pendingReads != [])]);
      pendingWrites := pendingWrites + [writeQueue[0]];
    }

    method ScheduleOperations()
      modifies this
      ensures Snapshot() == Scheduled(SerialProtocol(), old(Snapshot()))
      ensures readBuffer == old(readBuffer)
    {
      if CanStartWrite() {
        DoWrite();
      }
      if CanStartRead() {
        DoRead();
      }
    }

    // ---- The client's calls ----

    method Send(message: Chunk)
      modifies this
      ensures Snapshot() == Sending(SerialProtocol(), old(Snapshot()), message)
      ensures readBuffer == old(readBuffer)
    {
      if closed {
        return;
      }
      writeQueue := writeQueue + [message];
      history := history.(accepted := history.accepted + [message]);
      ScheduleOperations();
    }

    method Close()
      modifies this
      ensures Snapshot() == Closing(old(Snapshot()))
      ensures readBuffer == old(readBuffer)
    {
      if closed {
        return;
      }
      readEnabled := false;
      writeQueue := [];
      closed := true;
    }

    method StartReading()
      modifies this
      ensures Snapshot() == ReadingOn(SerialProtocol(), old(Snapshot()))
      ensures readBuffer == old(readBuffer)
    {
      if closed {
        return;
      }
      readEnabled := true;
      ScheduleOperations();
    }

    method StopReading()
      modifies this
      ensures Snapshot() == old(Snapshot()).(enabled := false)
      ensures readBuffer == old(readBuffer)
    {
      readEnabled := false;
    }

    method SetDuplexMode(mode: DuplexMode)
      modifies this
      ensures Snapshot() == Scheduled(SerialProtocol(), old(Snapshot()).(mode := mode))
      ensures readBuffer == old(readBuffer)
    {
      duplexMode := mode;
      ScheduleOperations();
    }

    /** Ignored while a read is in flight: the device may still write to the current buffer. */
    method SetReadBufferSize(size: nat)
      modifies this
      ensures Snapshot() == Resized(old(Snapshot()), size)
      ensures readBuffer == if old(readInProgress) || size == 0 then old(readBuffer) else Resize(old(readBuffer), size)
    {
      if readInProgress || size == 0 {
        return;
      }
      readBuffer := Resize(readBuffer, size);
    }

    // ---- The completions ----

    method Perform(action: Action<Chunk>)
      modifies this
      ensures Snapshot() == Applied(SerialProtocol(), old(Snapshot()), action)
    {
      match action
      case Send(message) => Send(message);
      case Close => Close();
      case StartReading => StartReading();
      case StopReading => StopReading();
      case SetDuplexMode(mode) => SetDuplexMode(mode);
      case SetReadBufferSize(size) => SetReadBufferSize(size);
    }

    /** The calls the read handler makes before it returns. */
    method RunHandler(reaction: seq<Action<Chunk>>)
      modifies this
      ensures Snapshot() == AppliedAll(SerialProtocol(), old(Snapshot()), reaction)
    {
      for i := 0 to |reaction|
        invariant Snapshot() == AppliedAll(SerialProtocol(), old(Snapshot()), reaction[..i])
      {
        assert Common.Init(reaction[..i + 1]) == reaction[..i];
        Perform(reaction[i]);
      }
      assert reaction[..|reaction|] == reaction;
    }

    method NotifyRead(callback: Callback<Chunk>, reaction: seq<Action<Chunk>>)
      modifies this
      ensures Snapshot() == Notified(SerialProtocol(), old(Snapshot()), callback, reaction)
    {
      if readHandler {
        history := history.(callbacks := history.callbacks + [callback]);
        RunHandler(reaction);
      }
    }

    /** The completion of a read: the device has stored `result.data` at the front of the read buffer, or failed. */
    method OnRead(result: ReadResult, reaction: seq<Action<Chunk>>)
      requires pendingReads != [] && (result.Bytes? ==> |result.data| <= pendingReads[0] <= |readBuffer|)
      modifies this
      ensures Snapshot() == Next(SerialProtocol(), old(Snapshot()), ReadDone(result, reaction))
    {
      if result.Bytes? {
        readBuffer := result.data + readBuffer[|result.data|..];
        history := history.(received := history.received + [result.data]);
      }
      pendingReads := pendingReads[1..];

      readInProgress := false;
      assert Snapshot() == ReadReturned(old(Snapshot()), result);
      if readPauseForWrite && result == ReadError(OperationAborted) {
        ScheduleOperations();
        return;
      }
      if result.ReadError? {
        NotifyRead(Failed(result.error), reaction);
        Close();
        return;
      }
      var data := readBuffer[..|result.data|];
      NotifyRead(Data(data), reaction);
      ScheduleOperations();
    }

    method ConsumeWrite()
      modifies `writeQueue
      ensures writeQueue == if old(writeQueue) == [] then [] else old(writeQueue)[1..]
    {
      if writeQueue != [] {
        writeQueue := writeQueue[1..];
      }
    }

    method OnWrite(ok: bool)
      requires pendingWrites != []
      modifies this
      ensures Snapshot() == Next(SerialProtocol(), old(Snapshot()), WriteDone(ok))
    {
      ghost var message := pendingWrites[0];
      pendingWrites := pendingWrites[1..];

      writeInProgress := false;
      if !ok {
        Close();
        return;
      }
      history := history.(completed := history.completed + [message]);
      ConsumeWrite();
      ScheduleOperations();
    }

    // ---- The strand ----

    /** One task of the strand. */
    method RunTask(e: Event<Chunk>)
      requires Valid() && Enabled(Snapshot(), e)
      modifies this
      ensures Snapshot() == Next(SerialProtocol(), old(Snapshot()), e) && Valid()
    {
      NextInv(SerialProtocol(), Snapshot(), e);
      match e
      case Call(action) => Perform(action);
      case InstallHandler(present) => SetReadHandler(present);
      case ReadDone(result, reaction) => OnRead(result, reaction);
      case WriteDone(ok) => OnWrite(ok);
    }

    /** The strand runs its tasks one after the other: the session takes exactly the steps of `Exec`. */
    method Run(es: seq<Event<Chunk>>)
      requires Valid() && Quiescent(Snapshot()) && ValidRun(SerialProtocol(), Snapshot(), es)
      modifies this
      ensures Snapshot() == Exec(SerialProtocol(), old(Snapshot()), es) && Valid() && Quiescent(Snapshot())
    {
      ghost var s := Snapshot();
      for i := 0 to |es|
        invariant Valid() && ValidRun(SerialProtocol(), s, es[..i])
        invariant Snapshot() == Exec(SerialProtocol(), s, es[..i])
      {
        ExecPrefix(SerialProtocol(), s, es, i);
        RunTask(es[i]);
      }
      ExecInv(SerialProtocol(), s, es);
      assert es[..|es|] == es;
    }
  }

  // ---- Read-side conservation ----

  /** A read handler is installed whenever a read completes. */
  predicate AlwaysHandled<M>(es: seq<Event<M>>) {
    es == [] || (AlwaysHandled(Common.Init(es)) && (Last(es).ReadDone? ==> HandlerAfter(Common.Init(es))))
  }

  lemma {:induction false} DataCallbacksAreReads(es: seq<Event<Chunk>>)
    requires AlwaysHandled(es)
    ensures DataIn(CallbacksOf(SerialProtocol(), es)) == BytesOf(es)
  {
    if es != [] {
      DataCallbacksAreReads(Common.Init(es));
      var calls := CallsBack(SerialProtocol(), HandlerAfter(Common.Init(es)), Last(es));
      DataInConcat(CallbacksOf(SerialProtocol(), Common.Init(es)), calls);
      assert calls != [] ==> Common.Init(calls) == [];
    }
  }

  /** No byte is lost, duplicated or reordered between successful reads and the read handler. */
  lemma ReadConservation(mode: DuplexMode, size: nat, es: seq<Event<Chunk>>)
    requires 0 < size && ValidRun(SerialProtocol(), Opened(mode, size), es) && AlwaysHandled(es)
    ensures var t := Exec(SerialProtocol(), Opened(mode, size), es);
            DataIn(t.h.callbacks) == t.h.received == BytesOf(es)
  {
    CallbacksMirrorReads(SerialProtocol(), Opened(mode, size), es);
    DataCallbacksAreReads(es);
  }
}
