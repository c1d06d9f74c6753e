/** The SocketCAN transport: one frame per write and per read, full duplex. */
module CanTransport {
  import opened Common
  import opened TransportSpec
  import opened TransportInvariants
  import opened TransportProperties
  import opened DuplexProperties
  import opened ClosingProperties
  import opened CanCodec
  import opened CanFilters

  type CanState = State<CanFrame, CanFrame>
  type CanEvent = Event<CanFrame>

  /** Which frames can be put on the wire depends on whether CAN FD is enabled; received bytes are decoded as images. */
  function CanProtocol(fdEnabled: bool): Protocol<CanFrame, CanFrame> {
    Protocol((frame: CanFrame) => Encodable(fdEnabled, frame), (data: seq<byte>) => Decode(data))
  }

  /** The calls a CAN session offers. */
  predicate CanCall(action: Action<CanFrame>) {
    !action.SetDuplexMode? && !action.SetReadBufferSize?
  }

  predicate CanTask(e: CanEvent) {
    match e
    case Call(action) => CanCall(action)
    case ReadDone(_, reaction) => forall a :: a in reaction ==> CanCall(a)
    case _ => true
  }

  class CanSession {
    var readHandler: bool
    var writeQueue: seq<CanFrame>
    var readEnabled: bool
    var readInProgress: bool
    var writeInProgress: bool
    var closed: bool

    const fdEnabled: bool
    const readBuffer: array<byte>
    var lastReadFrame: CanFrame

    ghost var pendingReads: seq<nat>
    ghost var pendingWrites: seq<CanFrame>
    ghost var history: History<CanFrame, CanFrame>

    ghost function P(): Protocol<CanFrame, CanFrame> {
      CanProtocol(fdEnabled)
    }

    ghost function Snapshot(): CanState
      reads this
    {
      State(readHandler, writeQueue, readEnabled, readInProgress, writeInProgress, closed,
            FullDuplex, false, readBuffer.Length, pendingReads, pendingWrites, history)
    }

    ghost predicate Valid()
      reads this
    {
      Inv(P(), Snapshot()) && readBuffer.Length == FD_IMAGE_SIZE
    }

    constructor (fdEnabled: bool)
      ensures Snapshot() == Opened(FullDuplex, FD_IMAGE_SIZE) && Valid()
      ensures this.fdEnabled == fdEnabled && fresh(readBuffer)
    {
      this.fdEnabled := fdEnabled;
      readHandler, readEnabled, readInProgress, writeInProgress, closed := false, false, false, false, false;
      writeQueue := [];
      readBuffer := new byte[FD_IMAGE_SIZE](_ => 0);
      lastReadFrame := CanFrame(Word(0, 0, 0, 0), 0, seq(64, _ => 0 as byte), false, false, false, false, false, false);
      pendingReads, pendingWrites, history := [], [], History([], [], [], [], [], [], 0);
    }

    // ---- The codec ----

    /** `encode_frame`: a zeroed image, its header, and a loop over the data; nothing for a frame that is too long. */
    method EncodeFrame(frame: CanFrame) returns (buffer: Option<seq<byte>>)
      ensures buffer == Encode(fdEnabled, frame)
    {
      if frame.fdFrame {
        if !fdEnabled || frame.dataLength > FD_DATA_SIZE {
          return None;
        }
        var flags: byte := 0;
        if frame.bitrateSwitch {
          flags := flags | CANFD_BRS;
        }
        if frame.errorStateIndicator {
          flags := flags | CANFD_ESI;
        }
        var data := CopyData(frame, FD_DATA_SIZE);
        var word := EncodeId(frame);
        return Some(word.Bytes() + [frame.dataLength as byte, flags, 0, 0] + data);
      }
      if frame.dataLength > CLASSIC_DATA_SIZE {
        return None;
      }
      var data := CopyData(frame, CLASSIC_DATA_SIZE);
      var word := EncodeId(frame);
      return Some(word.Bytes() + [frame.dataLength as byte, 0, 0, 0] + data);
    }

    static method EncodeId(frame: CanFrame) returns (word: Word)
      ensures word == IdWordOf(frame)
    {
      word := frame.id;
      if frame.extendedId {
        word := word.(b3 := word.b3 | 0x80);
      }
      if frame.remoteFrame {
        word := word.(b3 := word.b3 | 0x40);
      }
    }

    static method CopyData(frame: CanFrame, size: nat) returns (data: seq<byte>)
      requires frame.dataLength <= size <= 64
      ensures data == ZeroPadded(frame.data, frame.dataLength, size)
    {
      var raw := new byte[size](_ => 0);
      var i := 0;
      while i < frame.dataLength
        invariant 0 <= i <= frame.dataLength
        invariant forall k :: 0 <= k < size ==> raw[k] == if k < i then frame.data[k] else 0
      {
        raw[i] := frame.data[i];
        i := i + 1;
      }
      data := raw[..];
    }

    /** The loop shared by `decode_classic_frame` and `decode_fd_frame`. */
    static method UnpackData(raw: seq<byte>, length: nat, limit: nat) returns (data: Payload)
      requires limit <= 64 && 8 + limit <= |raw|
      ensures data == Unpacked(raw, length, limit)
    {
      var area := new byte[64](_ => 0);
      var i := 0;
      while i < length && i < limit
        invariant 0 <= i <= limit
        invariant i <= length
        invariant forall k :: 0 <= k < 64 ==> area[k] == if k < i then raw[8 + k] else 0
      {
        area[i] := raw[8 + i];
        i := i + 1;
      }
      data := area[..];
    }

    /** `decode_frame`: the bytes the read left behind the `transferred` ones play no part. */
    method DecodeFrame(transferred: nat) returns (ok: bool)
      requires readBuffer.Length == FD_IMAGE_SIZE && transferred <= FD_IMAGE_SIZE
      modifies `lastReadFrame
      ensures ok <==> Decode(readBuffer[..transferred]).Some?
      ensures lastReadFrame == if ok then Decode(readBuffer[..transferred]).value else old(lastReadFrame)
    {
      if transferred == CLASSIC_IMAGE_SIZE {
        var raw := readBuffer[..CLASSIC_IMAGE_SIZE];
        var data := UnpackData(raw, raw[4] as nat, CLASSIC_DATA_SIZE);
        lastReadFrame := DecodeHeader(raw, false, 0, data);
        return true;
      }
      if transferred == FD_IMAGE_SIZE {
        var raw := readBuffer[..FD_IMAGE_SIZE];
        var data := UnpackData(raw, raw[4] as nat, FD_DATA_SIZE);
        lastReadFrame := DecodeHeader(raw, true, raw[5], data);
        return true;
      }
      return false;
    }

    /** The filters of `configure_socket`: a loop builds the kernel's list, unless there is nothing to build. */
    static method TranslateFilters(filters: seq<CanFilter>) returns (setting: Option<seq<RawFilter>>)
      ensures setting == KernelFilters(filters)
    {
      if filters == [] {
        return None;
      }
      var raw := [];
      for i := 0 to |filters|
        invariant raw == RawFilters(filters[..i])
      {
        var rawFilter := TranslateFilter(filters[i]);
        raw := raw + [rawFilter];
        assert Common.Init(filters[..i + 1]) == filters[..i];
      }
      assert filters[..|filters|] == filters;
      return Some(raw);
    }

    static method TranslateFilter(filter: CanFilter) returns (raw: RawFilter)
      ensures raw == RawFilterOf(filter)
    {
      var id, mask := filter.id, filter.mask;
      if filter.extendedId {
        id, mask := id.(b3 := id.b3 | 0x80), mask.(b3 := mask.b3 | 0x80);
      }
      if filter.remoteFrame {
        id, mask := id.(b3 := id.b3 | 0x40), mask.(b3 := mask.b3 | 0x40);
      }
      raw := RawFilter(id, mask);
    }

    // ---- The scheduler ----

    predicate CanStartRead()
      reads this
      ensures CanStartRead() == TransportSpec.CanStartRead(Snapshot())
    {
      readEnabled && !readInProgress && !closed
    }

    predicate CanStartWrite()
      reads this
      ensures CanStartWrite() == TransportSpec.CanStartWrite(Snapshot())
    {
      writeInProgress == false && writeQueue != [] && !closed
    }

    method DoRead()
      modifies this
      ensures Snapshot() == ReadStarted(old(Snapshot()))
    {
      readInProgress := true;
      history := history.(starts := history.starts + [Start(false, FullDuplex, pendingWrites != [])]);
      pendingReads := pendingReads + [readBuffer.Length];
    }

    /** A frame that cannot be encoded closes the session instead of starting a write. */
    method DoWrite()
      modifies this
      ensures Snapshot() == WriteStarted(P(), old(Snapshot()))
    {
      if writeQueue == [] {
        return;
      }
      var encoded := EncodeFrame(writeQueue[0]);
      if encoded.None? {
        Close();
        return;
      }
      writeInProgress := true;
      history := history.(started := history.started + [writeQueue[0]],
                          starts := history.starts + [Start(true, FullDuplex, pendingReads != [])]);
      pendingWrites := pendingWrites + [writeQueue[0]];
    }

    method ScheduleOperations()
      modifies this
      ensures Snapshot() == Scheduled(P(), old(Snapshot()))
    {
      if CanStartWrite() {
        DoWrite();
      }
      if CanStartRead() {
        DoRead();
      }
    }

    // ---- The client's calls ----

    method SetReadHandler(present: bool)
      modifies this
      ensures Snapshot() == old(Snapshot()).(handler := present)
    {
      readHandler := present;
    }

    method Send(message: CanFrame)
      modifies this
      ensures Snapshot() == Sending(P(), old(Snapshot()), message)
    {
      if closed {
        return;
      }
      writeQueue := writeQueue + [message];
      history := history.(accepted := history.accepted + [message]);
      ScheduleOperations();
    }

    method Close()
      modifies this
      ensures Snapshot() == Closing(old(Snapshot()))
    {
      if closed {
        return;
      }
      readEnabled := false;
      writeQueue := [];
      closed := true;
    }

    method StartReading()
      modifies this
      ensures Snapshot() == ReadingOn(P(), old(Snapshot()))
    {
      if closed {
        return;
      }
      readEnabled := true;
      ScheduleOperations();
    }

    method StopReading()
      modifies this
      ensures Snapshot() == old(Snapshot()).(enabled := false)
    {
      readEnabled := false;
    }

    method Perform(action: Action<CanFrame>)
      requires CanCall(action)
      modifies this
      ensures Snapshot() == Applied(P(), old(Snapshot()), action)
    {
      match action
      case Send(message) => Send(message);
      case Close => Close();
      case StartReading => StartReading();
      case StopReading => StopReading();
    }

    // ---- The completions ----

    method RunHandler(reaction: seq<Action<CanFrame>>)
      requires forall a :: a in reaction ==> CanCall(a)
      modifies this
      ensures Snapshot() == AppliedAll(P(), old(Snapshot()), reaction)
    {
      for i := 0 to |reaction|
        invariant Snapshot() == AppliedAll(P(), old(Snapshot()), reaction[..i])
      {
        assert Common.Init(reaction[..i + 1]) == reaction[..i];
        Perform(reaction[i]);
      }
      assert reaction[..|reaction|] == reaction;
    }

    method NotifyRead(callback: Callback<CanFrame>, reaction: seq<Action<CanFrame>>)
      requires forall a :: a in reaction ==> CanCall(a)
      modifies this
      ensures Snapshot() == Notified(P(), old(Snapshot()), callback, reaction)
    {
      if readHandler {
        history := history.(callbacks := history.callbacks + [callback]);
        RunHandler(reaction);
      }
    }

    /** What the kernel does during a read. */
    method StoreBytes(data: seq<byte>)
      requires |data| <= readBuffer.Length
      modifies readBuffer
      ensures readBuffer[..] == data + old(readBuffer[..])[|data|..]
      ensures readBuffer[..|data|] == data
    {
      forall i | 0 <= i < |data| {
        readBuffer[i] := data[i];
      }
    }

    /** The completion of a read: the kernel has overwritten the front of the read buffer and left the rest alone. */
    method OnRead(result: ReadResult, reaction: seq<Action<CanFrame>>)
      requires readBuffer.Length == FD_IMAGE_SIZE
      requires pendingReads != [] && (result.Bytes? ==> |result.data| <= pendingReads[0] <= readBuffer.Length)
      requires forall a :: a in reaction ==> CanCall(a)
      modifies this, readBuffer
      ensures Snapshot() == Next(P(), old(Snapshot()), ReadDone(result, reaction))
      ensures result.Bytes? ==> readBuffer[..] == result.data + old(readBuffer[..])[|result.data|..]
    {
      if result.Bytes? {
        StoreBytes(result.data);
        history := history.(received := history.received + [result.data]);
      }
      pendingReads := pendingReads[1..];

      readInProgress := false;
      assert Snapshot() == ReadReturned(old(Snapshot()), result);
      if result.ReadError? {
        NotifyRead(Failed(result.error), reaction);
        Close();
        return;
      }
      var ok := DecodeFrame(|result.data|);
      if !ok {
        NotifyRead(Failed(ProtocolError), reaction);
        Close();
        return;
      }
      NotifyRead(Data(lastReadFrame), reaction);
      ScheduleOperations();
    }

    method OnWrite(ok: bool)
      requires pendingWrites != []
      modifies this
      ensures Snapshot() == Next(P(), old(Snapshot()), WriteDone(ok))
    {
      ghost var message := pendingWrites[0];
      pendingWrites := pendingWrites[1..];

      writeInProgress := false;
      if !ok {
        Close();
        return;
      }
      history := history.(completed := history.completed + [message]);
      if writeQueue != [] {
        writeQueue := writeQueue[1..];
      }
      ScheduleOperations();
    }

    // ---- The strand ----

    method RunTask(e: CanEvent)
      requires Valid() && Enabled(Snapshot(), e) && CanTask(e)
      modifies this, readBuffer
      ensures Snapshot() == Next(P(), old(Snapshot()), e) && Valid()
    {
      NextInv(P(), Snapshot(), e);
      match e
      case Call(action) => Perform(action);
      case InstallHandler(present) => SetReadHandler(present);
      case ReadDone(result, reaction) => OnRead(result, reaction);
      case WriteDone(ok) => OnWrite(ok);
    }

    /** The strand runs its tasks one after the other: the session takes exactly the steps of `Exec`. */
    method Run(es: seq<CanEvent>)
      requires Valid() && Quiescent(Snapshot()) && ValidRun(P(), Snapshot(), es)
      requires forall e :: e in es ==> CanTask(e)
      modifies this, readBuffer
      ensures Snapshot() == Exec(P(), old(Snapshot()), es) && Valid() && Quiescent(Snapshot())
    {
      ghost var s := Snapshot();
      for i := 0 to |es|
        invariant Valid() && ValidRun(P(), s, es[..i])
        invariant Snapshot() == Exec(P(), s, es[..i])
      {
        ExecPrefix(P(), s, es, i);
        RunTask(es[i]);
      }
      ExecInv(P(), s, es);
      assert es[..|es|] == es;
    }
  }

  // ---- Frames that cannot be sent ----

  /** An FD frame while FD is off, or more data than the frame has room for. */
  predicate Unsendable(fdEnabled: bool, f: CanFrame) {
    (f.fdFrame && !fdEnabled) || (if f.fdFrame then 64 else 8) < f.dataLength
  }

  lemma UnsendableIsUnencodable(fdEnabled: bool, f: CanFrame)
    ensures CanProtocol(fdEnabled).encodes(f) <==> !Unsendable(fdEnabled, f)
  {
    EncodesExactly(fdEnabled, f);
  }

  /** In no run does such a frame reach the wire; in particular no FD frame while FD is off. */
  lemma OnlySendableFramesStart(fdEnabled: bool, es: seq<CanEvent>)
    requires ValidRun(CanProtocol(fdEnabled), Opened(FullDuplex, FD_IMAGE_SIZE), es)
    ensures forall f :: f in Exec(CanProtocol(fdEnabled), Opened(FullDuplex, FD_IMAGE_SIZE), es).h.started ==>
              !Unsendable(fdEnabled, f)
  {
    ExecInv(CanProtocol(fdEnabled), Opened(FullDuplex, FD_IMAGE_SIZE), es);
    forall f | f in Exec(CanProtocol(fdEnabled), Opened(FullDuplex, FD_IMAGE_SIZE), es).h.started
      ensures !Unsendable(fdEnabled, f)
    {
      UnsendableIsUnencodable(fdEnabled, f);
    }
  }

  /** Without a handler the calls it would make play no part. */
  lemma NoHandlerNoCalls(fdEnabled: bool, s: CanState, result: ReadResult, reaction: seq<Action<CanFrame>>)
    requires s.pendingReads != [] && !s.handler
    ensures ReadFinished(CanProtocol(fdEnabled), s, result, reaction) ==
            ReadFinished(CanProtocol(fdEnabled), s, result, [])
  {
  }

  lemma HarmlessKeepsPoison(fdEnabled: bool, s: CanState, e: CanEvent)
    requires PoisonInv(CanProtocol(fdEnabled), s) && Enabled(s, e) && CanTask(e)
    requires !Causes(CanProtocol(fdEnabled), e, s.handler)
    ensures PoisonInv(CanProtocol(fdEnabled), Next(CanProtocol(fdEnabled), s, e))
  {
    if e.ReadDone? && !s.handler {
      NoHandlerNoCalls(fdEnabled, s, e.result, e.reaction);
      NextPoison(CanProtocol(fdEnabled), s, ReadDone(e.result, []));
    } else {
      NextPoison(CanProtocol(fdEnabled), s, e);
    }
  }

  lemma {:induction false} ClosedOrPoison(fdEnabled: bool, es: seq<CanEvent>)
    requires ValidRun(CanProtocol(fdEnabled), Opened(FullDuplex, FD_IMAGE_SIZE), es)
    requires forall e :: e in es ==> CanTask(e)
    ensures ClosedBy(CanProtocol(fdEnabled), es) ||
            PoisonInv(CanProtocol(fdEnabled), Exec(CanProtocol(fdEnabled), Opened(FullDuplex, FD_IMAGE_SIZE), es))
  {
    if es != [] {
      var p, s := CanProtocol(fdEnabled), Opened(FullDuplex, FD_IMAGE_SIZE);
      assert es == Common.Init(es) + [Last(es)];
      ClosedOrPoison(fdEnabled, Common.Init(es));
      AcceptedAreSent(p, s, Common.Init(es));
      if !ClosedBy(p, es) {
        HarmlessKeepsPoison(fdEnabled, Exec(p, s, Common.Init(es)), Last(es));
      }
    }
  }

  lemma UnsendableHeadIsClosed(fdEnabled: bool, t: CanState)
    requires Inv(CanProtocol(fdEnabled), t) && Quiescent(t) && t.mode.FullDuplex?
    requires |t.h.completed| < |t.h.accepted| && Unsendable(fdEnabled, t.h.accepted[|t.h.completed|])
    ensures t.closed
  {
    UnsendableIsUnencodable(fdEnabled, t.h.accepted[|t.h.completed|]);
  }

  /**
   A CAN session is closed exactly if some task closed it, or a frame that cannot be sent has become the head of the
   queue, everything before it having completed.
   */
  lemma CanClosesExactly(fdEnabled: bool, es: seq<CanEvent>)
    requires ValidRun(CanProtocol(fdEnabled), Opened(FullDuplex, FD_IMAGE_SIZE), es)
    requires forall e :: e in es ==> CanTask(e)
    ensures var t := Exec(CanProtocol(fdEnabled), Opened(FullDuplex, FD_IMAGE_SIZE), es);
            t.closed <==>
              || ClosedBy(CanProtocol(fdEnabled), es)
              || (|t.h.completed| < |t.h.accepted| && Unsendable(fdEnabled, t.h.accepted[|t.h.completed|]))
  {
    var p, s := CanProtocol(fdEnabled), Opened(FullDuplex, FD_IMAGE_SIZE);
    var t := Exec(p, s, es);
    ExecInv(p, s, es);
    ClosedExactly(p, s, es);
    ClosedOrPoison(fdEnabled, es);
    if !ClosedBy(p, es) && |t.h.completed| < |t.h.accepted| {
      UnsendableIsUnencodable(fdEnabled, t.h.accepted[|t.h.completed|]);
      if Unsendable(fdEnabled, t.h.accepted[|t.h.completed|]) {
        UnsendableHeadIsClosed(fdEnabled, t);
      }
    }
  }
}
