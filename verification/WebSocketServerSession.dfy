/**
 The part of a WebSocket server session the server depends on: the handshake, closing, and the one-shot close
 notification. Reading and writing follow the session template of `TransportSpec`.
 */
module ServerSessions {
  import opened Common

  /** How an accept completes. */
  datatype AcceptOutcome = Connected | Aborted | AcceptFailed

  /** The tasks of the server's strand; sessions dispatch `StartResult` and `Erase` to it. */
  datatype ServerTask =
    | Start
    | Stop
    | AcceptDone(outcome: AcceptOutcome)
    | StartResult(id: nat, ok: bool)
    | Erase(id: nat)

  /** The tasks of a session's own strand. */
  datatype SessionTask = InstallCloseHandler | BeginHandshake | HandshakeDone(ok: bool) | CloseCall

  /**
   `tasks`: the queue of the session's strand; `handshaking`: an `async_accept` is outstanding;
   `outcome`: what the start handler was called with.
   */
  datatype Session = Session(
    tasks: seq<SessionTask>, closeHandler: bool, closeNotified: bool, closed: bool,
    handshaking: bool, outcome: Option<bool>)

  /** A session as `do_accept` leaves it: the close handler and then the handshake are on its strand. */
  function FreshSession(): Session {
    Session([InstallCloseHandler, BeginHandshake], false, false, false, false, None)
  }

  /** `close_transport`: notifies once, and only if there is a handler to notify. */
  function TransportClosed(id: nat, s: Session): (Session, seq<ServerTask>) {
    if s.closeNotified then (s, [])
    else (s.(closeNotified := true), if s.closeHandler then [Erase(id)] else [])
  }

  /** Closing twice notifies once at most, and only if there was a handler the first time. */
  lemma NotifiesOnce(id: nat, s: Session)
    ensures var (s1, first) := TransportClosed(id, s);
            var (s2, second) := TransportClosed(id, s1);
            first + second == (if s.closeHandler && !s.closeNotified then [Erase(id)] else []) && s2 == s1
  {
  }

  /** The start handler given by the server. */
  function Reported(id: nat, s: Session, posts: seq<ServerTask>, ok: bool): (Session, seq<ServerTask>) {
    (s.(outcome := Some(ok)), posts + [StartResult(id, ok)])
  }

  /** One task of the session's strand; `optionOk` tells whether setting TCP_NODELAY succeeds. */
  function SessionRan(id: nat, s: Session, task: SessionTask, optionOk: bool): (Session, seq<ServerTask>) {
    match task
    case InstallCloseHandler => (s.(closeHandler := true), [])
    case BeginHandshake =>
      if optionOk then (s.(handshaking := true), [])
      else var (s1, posts) := TransportClosed(id, s); Reported(id, s1, posts, false)
    case HandshakeDone(ok) =>
      var (s1, posts) := if ok then (s, []) else TransportClosed(id, s);
      Reported(id, s1, posts, ok)
    case CloseCall => if s.closed then (s, []) else TransportClosed(id, s.(closed := true))
  }

  /** A close call closes whatever state the session is in, and a second one changes nothing. */
  lemma ClosesOnce(id: nat, s: Session, optionOk: bool)
    requires s.closed ==> s.closeNotified
    ensures var (s1, first) := SessionRan(id, s, CloseCall, optionOk);
            var (s2, second) := SessionRan(id, s1, CloseCall, optionOk);
            && s1.closed && s1.closeNotified && s2 == s1
            && first + second == (if s.closeHandler && !s.closeNotified then [Erase(id)] else [])
  {
    NotifiesOnce(id, s);
  }

  /** The server knows a session by its number, in the order of acceptance. */
  class WebSocketServerSession {
    const id: nat
    var closeHandler: bool
    var closeNotified: bool
    var closed: bool

    ghost var handshaking: bool
    ghost var outcome: Option<bool>

    ghost function Snapshot(tasks: seq<SessionTask>): Session
      reads this
    {
      Session(tasks, closeHandler, closeNotified, closed, handshaking, outcome)
    }

    constructor (id: nat)
      ensures this.id == id && Snapshot(FreshSession().tasks) == FreshSession()
    {
      this.id := id;
      closeHandler, closeNotified, closed := false, false, false;
      handshaking, outcome := false, None;
    }

    method SetCloseHandler() returns (posts: seq<ServerTask>)
      modifies this
      ensures forall tasks ::
                (Snapshot(tasks), posts) == SessionRan(id, old(Snapshot(tasks)), InstallCloseHandler, true)
    {
      closeHandler := true;
      posts := [];
    }

    /** The task of `start`. */
    method StartHandshake(optionOk: bool) returns (posts: seq<ServerTask>)
      modifies this
      ensures forall tasks :: (Snapshot(tasks), posts) == SessionRan(id, old(Snapshot(tasks)), BeginHandshake, optionOk)
    {
      if !optionOk {
        posts := CloseTransport();
        outcome := Some(false);
        return posts + [StartResult(id, false)];
      }
      handshaking := true;
      posts := [];
    }

    /** The completion of the handshake. */
    method OnHandshake(ok: bool) returns (posts: seq<ServerTask>)
      modifies this
      ensures forall tasks :: (Snapshot(tasks), posts) == SessionRan(id, old(Snapshot(tasks)), HandshakeDone(ok), true)
    {
      posts := [];
      if !ok {
        posts := CloseTransport();
      }
      outcome := Some(ok);
      posts := posts + [StartResult(id, ok)];
    }

    method Close() returns (posts: seq<ServerTask>)
      modifies this
      ensures forall tasks :: (Snapshot(tasks), posts) == SessionRan(id, old(Snapshot(tasks)), CloseCall, true)
    {
      if closed {
        return [];
      }
      closed := true;
      posts := CloseTransport();
    }

    method CloseTransport() returns (posts: seq<ServerTask>)
      modifies this
      ensures forall tasks :: (Snapshot(tasks), posts) == TransportClosed(id, old(Snapshot(tasks)))
    {
      if closeNotified {
        return [];
      }
      closeNotified := true;
      posts := if closeHandler then [Erase(id)] else [];
    }
  }
}
