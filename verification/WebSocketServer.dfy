/** The WebSocket server: the accept loop, and the set of active sessions kept on the server's strand. */
module WebSocketServers {
  import opened Common
  import opened ServerSessions

  /** The fields of the server and the number of accepts the acceptor still owes a completion for. */
  datatype Server = Server(active: set<nat>, started: bool, accepts: nat)

  /** What a task of the server's strand asks for: a new session, or `close()` on some sessions. */
  datatype Effect = NoEffect | CreateSession | CloseSessions(ids: set<nat>)

  function ServerRan(v: Server, task: ServerTask): (Server, Effect) {
    match task
    case Start => (if v.started then v else v.(started := true, accepts := v.accepts + 1), NoEffect)
    case Stop => (v.(started := false), CloseSessions(v.active))
    case AcceptDone(outcome) =>
      if !v.started then (v, NoEffect)
      else if outcome.Connected? then (v.(accepts := v.accepts + 1), CreateSession)
      else if outcome.AcceptFailed? then (v.(accepts := v.accepts + 1), NoEffect)
      else (v, NoEffect)
    case StartResult(id, ok) => (if ok then v.(active := v.active + {id}) else v, NoEffect)
    case Erase(id) => (v.(active := v.active - {id}), NoEffect)
  }

  /** What the user's session handler is called with: a session, or an error and none. */
  datatype SessionNotice = HandedOut(id: nat) | NoSession

  /** The call a task makes of the session handler, if there is one. */
  function NoticeFor(v: Server, handler: bool, task: ServerTask): Option<SessionNotice> {
    match task
    case AcceptDone(outcome) => if handler && v.started && !outcome.Connected? then Some(NoSession) else None
    case StartResult(id, ok) => if !handler then None else if ok then Some(HandedOut(id)) else Some(NoSession)
    case _ => None
  }

  /** A session is handed out only as it becomes active. */
  lemma HandedOutIsActive(v: Server, handler: bool, task: ServerTask, id: nat)
    requires NoticeFor(v, handler, task) == Some(HandedOut(id))
    ensures task == StartResult(id, true) && id in ServerRan(v, task).0.active
  {
  }

  class WebSocketServer {
    var activeSessions: set<nat>
    var started: bool
    var sessionHandler: bool
    ghost var accepts: nat

    ghost function Snapshot(): Server
      reads this
    {
      Server(activeSessions, started, accepts)
    }

    constructor ()
      ensures Snapshot() == Server({}, false, 0) && !sessionHandler
    {
      activeSessions, started, sessionHandler, accepts := {}, false, false, 0;
    }

    method SetSessionHandler(present: bool)
      modifies `sessionHandler
      ensures sessionHandler == present
    {
      sessionHandler := present;
    }

    method DoAccept()
      modifies `accepts
      ensures accepts == old(accepts) + 1
    {
      accepts := accepts + 1;
    }

    method StartAccepting()
      modifies this
      ensures (Snapshot(), NoEffect) == ServerRan(old(Snapshot()), Start) && sessionHandler == old(sessionHandler)
    {
      if started {
        return;
      }
      started := true;
      DoAccept();
    }

    /** `stop`: the sessions active at entry, each closed once. */
    method StopAccepting() returns (closed: seq<nat>)
      modifies this
      ensures (Snapshot(), CloseSessions(old(activeSessions))) == ServerRan(old(Snapshot()), Stop)
      ensures sessionHandler == old(sessionHandler)
      ensures forall id :: id in closed <==> id in old(activeSessions)
      ensures forall i, j :: 0 <= i < j < |closed| ==> closed[i] != closed[j]
    {
      started := false;
      closed := [];
      var rest := activeSessions;
      while rest != {}
        invariant rest <= activeSessions == old(activeSessions) && accepts == old(accepts) && !started
        invariant sessionHandler == old(sessionHandler)
        invariant forall id :: id in closed <==> id in activeSessions && id !in rest
        invariant forall i, j :: 0 <= i < j < |closed| ==> closed[i] != closed[j]
        decreases rest
      {
        var id :| id in rest;
        rest := rest - {id};
        assert id !in closed;
        closed := closed + [id];
      }
    }

    method OnAccept(outcome: AcceptOutcome) returns (create: bool, notice: Option<SessionNotice>)
      modifies this
      ensures ServerRan(old(Snapshot()), AcceptDone(outcome))
              == (Snapshot(), if create then CreateSession else NoEffect)
      ensures notice == NoticeFor(old(Snapshot()), old(sessionHandler), AcceptDone(outcome))
      ensures sessionHandler == old(sessionHandler)
    {
      notice := None;
      if !started {
        return false, notice;
      }
      if outcome != Connected {
        if sessionHandler {
          notice := Some(NoSession);
        }
        if outcome != Aborted {
          DoAccept();
        }
        return false, notice;
      }
      DoAccept();
      return true, notice;
    }

    method OnStartResult(id: nat, ok: bool) returns (notice: Option<SessionNotice>)
      modifies this
      ensures (Snapshot(), NoEffect) == ServerRan(old(Snapshot()), StartResult(id, ok))
      ensures notice == NoticeFor(old(Snapshot()), old(sessionHandler), StartResult(id, ok))
      ensures sessionHandler == old(sessionHandler)
    {
      if ok {
        activeSessions := activeSessions + {id};
      }
      notice := None;
      if sessionHandler {
        notice := Some(if ok then HandedOut(id) else NoSession);
      }
    }

    method OnErase(id: nat)
      modifies this
      ensures (Snapshot(), NoEffect) == ServerRan(old(Snapshot()), Erase(id)) && sessionHandler == old(sessionHandler)
    {
      activeSessions := activeSessions - {id};
    }
  }
}
