/**
 Two CAN sessions joined by a bus that keeps order and loses nothing: what the receiver's handler gets is, at every
 moment, the normal form of a prefix of what the sender accepted.
 */
module CanPipeline {
  import opened Common
  import opened TransportSpec
  import opened TransportInvariants
  import opened TransportProperties
  import opened CanCodec
  import opened CanTransport

  /** `wire` holds the images put on the bus so far, `taken` how many of them the receiver has read. */
  datatype Link = Link(sender: CanState, receiver: CanState, wire: seq<seq<byte>>, taken: nat)

  datatype Settings = Settings(senderFd: bool, receiverFd: bool)

  datatype LinkEvent = SenderTask(e: CanEvent) | ReceiverTask(e: CanEvent) | Transmit

  /**
   The frame of the write in flight goes on the bus before that write succeeds, or not at all if it fails.
   A successful read gets the next image, and there is a read handler to take it; an FD image is delivered only to a
   receiver that enabled FD, so one that did not waits in front of it.
   */
  predicate LinkEnabled(c: Settings, l: Link, ev: LinkEvent) {
    match ev
    case SenderTask(e) =>
      && CanTask(e) && Enabled(l.sender, e)
      && (e == WriteDone(true) ==> |l.wire| == |l.sender.h.started|)
    case ReceiverTask(e) =>
      && CanTask(e) && Enabled(l.receiver, e)
      && (e.ReadDone? ==> l.receiver.handler)
      && (e.ReadDone? && e.result.Bytes? ==>
            && l.taken < |l.wire| && e.result.data == l.wire[l.taken]
            && (|l.wire[l.taken]| == FD_IMAGE_SIZE ==> c.receiverFd))
    case Transmit =>
      && l.sender.pendingWrites != [] && |l.wire| < |l.sender.h.started|
      && Encodable(true, l.sender.h.started[|l.wire|])
  }

  function LinkNext(c: Settings, l: Link, ev: LinkEvent): Link
    requires LinkEnabled(c, l, ev)
  {
    match ev
    case SenderTask(e) => l.(sender := Next(CanProtocol(c.senderFd), l.sender, e))
    case ReceiverTask(e) =>
      l.(receiver := Next(CanProtocol(c.receiverFd), l.receiver, e),
         taken := l.taken + if e.ReadDone? && e.result.Bytes? then 1 else 0)
    case Transmit => l.(wire := l.wire + [Image(l.sender.h.started[|l.wire|])])
  }

  ghost predicate LinkRun(c: Settings, l: Link, evs: seq<LinkEvent>)
    decreases |evs|, 0
  {
    evs == [] || (LinkRun(c, l, Init(evs)) && LinkEnabled(c, LinkExec(c, l, Init(evs)), Last(evs)))
  }

  ghost function LinkExec(c: Settings, l: Link, evs: seq<LinkEvent>): Link
    requires LinkRun(c, l, evs)
    decreases |evs|, 1
  {
    if evs == [] then l else LinkNext(c, LinkExec(c, l, Init(evs)), Last(evs))
  }

  function FreshLink(): Link {
    Link(Opened(FullDuplex, FD_IMAGE_SIZE), Opened(FullDuplex, FD_IMAGE_SIZE), [], 0)
  }

  function Normalised(frames: seq<CanFrame>): (r: seq<CanFrame>)
    ensures |r| == |frames|
  {
    if frames == [] then [] else Normalised(Init(frames)) + [Normalise(Last(frames))]
  }

  ghost predicate SessionsOk(c: Settings, l: Link) {
    && Inv(CanProtocol(c.senderFd), l.sender) && Quiescent(l.sender)
    && Inv(CanProtocol(c.receiverFd), l.receiver) && Quiescent(l.receiver)
  }

  /** The bus carries the images of the first started frames, and the handler got the normal forms of those taken. */
  ghost predicate BusOk(l: Link) {
    && |l.sender.h.completed| <= |l.wire| <= |l.sender.h.started|
    && (forall i :: 0 <= i < |l.wire| ==>
          Encodable(true, l.sender.h.started[i]) && l.wire[i] == Image(l.sender.h.started[i]))
    && l.taken <= |l.wire|
    && DataIn(l.receiver.h.callbacks) == Normalised(l.sender.h.started[..l.taken])
  }

  lemma StepSessions(c: Settings, l: Link, ev: LinkEvent)
    requires SessionsOk(c, l) && LinkEnabled(c, l, ev)
    ensures SessionsOk(c, LinkNext(c, l, ev))
  {
    match ev
    case SenderTask(e) => NextInv(CanProtocol(c.senderFd), l.sender, e);
    case ReceiverTask(e) => NextInv(CanProtocol(c.receiverFd), l.receiver, e);
    case Transmit =>
  }

  lemma SenderStep(c: Settings, l: Link, e: CanEvent)
    requires SessionsOk(c, l) && BusOk(l) && LinkEnabled(c, l, SenderTask(e))
    ensures BusOk(LinkNext(c, l, SenderTask(e)))
  {
    var p := CanProtocol(c.senderFd);
    NextReads(p, l.sender, e);
    NextInv(p, l.sender, e);
    assert Next(p, l.sender, e).h.started[..l.taken] == l.sender.h.started[..l.taken];
  }

  lemma ReceiverStep(c: Settings, l: Link, e: CanEvent)
    requires SessionsOk(c, l) && BusOk(l) && LinkEnabled(c, l, ReceiverTask(e))
    ensures BusOk(LinkNext(c, l, ReceiverTask(e)))
  {
    var p := CanProtocol(c.receiverFd);
    NextReads(p, l.receiver, e);
    TakeStep(c, l, e, Next(p, l.receiver, e));
  }

  lemma TakeStep(c: Settings, l: Link, e: CanEvent, t: CanState)
    requires BusOk(l) && LinkEnabled(c, l, ReceiverTask(e))
    requires t.h.callbacks == l.receiver.h.callbacks + CallsBack(CanProtocol(c.receiverFd), l.receiver.handler, e)
    ensures BusOk(l.(receiver := t, taken := l.taken + if e.ReadDone? && e.result.Bytes? then 1 else 0))
  {
    var calls := CallsBack(CanProtocol(c.receiverFd), l.receiver.handler, e);
    DataInConcat(l.receiver.h.callbacks, calls);
    assert calls != [] ==> Init(calls) == [];
    if e.ReadDone? && e.result.Bytes? {
      var started := l.sender.h.started;
      DecodeImage(started[l.taken]);
      assert Init(started[..l.taken + 1]) == started[..l.taken];
    }
  }

  lemma TransmitStep(c: Settings, l: Link)
    requires BusOk(l) && LinkEnabled(c, l, Transmit)
    ensures BusOk(LinkNext(c, l, Transmit))
  {
  }

  lemma {:induction false} LinkSafe(c: Settings, evs: seq<LinkEvent>)
    requires LinkRun(c, FreshLink(), evs)
    ensures SessionsOk(c, LinkExec(c, FreshLink(), evs)) && BusOk(LinkExec(c, FreshLink(), evs))
  {
    if evs == [] {
      FreshLinkOk(c);
    } else {
      LinkSafe(c, Init(evs));
      var l := LinkExec(c, FreshLink(), Init(evs));
      StepSessions(c, l, Last(evs));
      match Last(evs)
      case SenderTask(e) => SenderStep(c, l, e);
      case ReceiverTask(e) => ReceiverStep(c, l, e);
      case Transmit => TransmitStep(c, l);
    }
  }

  lemma FreshLinkOk(c: Settings)
    ensures SessionsOk(c, FreshLink()) && BusOk(FreshLink())
  {
    assert FreshLink().sender.h.started[..0] == [];
  }

  /**
   At every moment of every run the delivered frames are the normal forms of the first accepted frames, and once the
   sender is idle and the bus is drained they are all of them.
   */
  lemma DeliveredArePrefixOfAccepted(c: Settings, evs: seq<LinkEvent>)
    requires LinkRun(c, FreshLink(), evs)
    ensures var l := LinkExec(c, FreshLink(), evs);
            && l.taken <= |l.sender.h.accepted|
            && DataIn(l.receiver.h.callbacks) == Normalised(l.sender.h.accepted[..l.taken])
            && (!l.sender.closed && l.sender.queue == [] && l.taken == |l.wire| ==>
                  DataIn(l.receiver.h.callbacks) == Normalised(l.sender.h.accepted))
  {
    LinkSafe(c, evs);
    var l := LinkExec(c, FreshLink(), evs);
    assert l.sender.h.started[..l.taken] == l.sender.h.accepted[..l.taken];
    if !l.sender.closed && l.sender.queue == [] && l.taken == |l.wire| {
      assert l.sender.h.accepted == l.sender.h.completed;
      assert l.sender.h.accepted[..l.taken] == l.sender.h.accepted;
    }
  }
}
