/**
 The server and its sessions as a system of strands: one FIFO task queue for the server, one for each session. Users
 start and stop the server and close sessions they were given; accepts and handshakes complete in any way.
 */
module ServerSystem {
  import opened Common
  import opened ServerSessions
  import opened WebSocketServers

  /** `posted[..done]` are the tasks the server's strand has run, `posted[done..]` its queue. */
  datatype System = System(server: Server, posted: seq<ServerTask>, done: nat, sessions: seq<Session>)

  datatype Step =
    | UserStart
    | UserStop
    | UserClose(id: nat)
    | AcceptCompletes(outcome: AcceptOutcome)
    | HandshakeCompletes(id: nat, ok: bool)
    | RunServer
    | RunSession(id: nat, optionOk: bool)

  function Fresh(): System {
    System(Server({}, false, 0), [], 0, [])
  }

  predicate Processed(y: System, task: ServerTask)
    requires y.done <= |y.posted|
  {
    task in y.posted[..y.done]
  }

  /**
   No start is requested after a stop, and a session can be closed by the user, or by an error on a read or write the
   user started, only after the server has handed it out.
   */
  predicate StepEnabled(y: System, step: Step) {
    && y.done <= |y.posted|
    && match step
       case UserStart => Stop !in y.posted
       case UserStop => true
       case UserClose(id) => id < |y.sessions| && Processed(y, StartResult(id, true))
       case AcceptCompletes(_) => 0 < y.server.accepts
       case HandshakeCompletes(id, _) => id < |y.sessions| && y.sessions[id].handshaking
       case RunServer => y.done < |y.posted|
       case RunSession(id, _) => id < |y.sessions| && y.sessions[id].tasks != []
  }

  function Posting(y: System, tasks: seq<ServerTask>): System {
    y.(posted := y.posted + tasks)
  }

  function Queued(s: Session, task: SessionTask): Session {
    s.(tasks := s.tasks + [task])
  }

  function WithSession(y: System, id: nat, s: Session): System
    requires id < |y.sessions|
  {
    y.(sessions := y.sessions[id := s])
  }

  function Affected(sessions: seq<Session>, effect: Effect): seq<Session> {
    match effect
    case NoEffect => sessions
    case CreateSession => sessions + [FreshSession()]
    case CloseSessions(ids) =>
      seq(|sessions|, i requires 0 <= i < |sessions| =>
        if i in ids then Queued(sessions[i], CloseCall) else sessions[i])
  }

  function StepNext(y: System, step: Step): System
    requires StepEnabled(y, step)
  {
    match step
    case UserStart => Posting(y, [Start])
    case UserStop => Posting(y, [Stop])
    case UserClose(id) => WithSession(y, id, Queued(y.sessions[id], CloseCall))
    case AcceptCompletes(outcome) =>
      Posting(y.(server := y.server.(accepts := y.server.accepts - 1)), [AcceptDone(outcome)])
    case HandshakeCompletes(id, ok) =>
      WithSession(y, id, Queued(y.sessions[id].(handshaking := false), HandshakeDone(ok)))
    case RunServer =>
      var (v, effect) := ServerRan(y.server, y.posted[y.done]);
      System(v, y.posted, y.done + 1, Affected(y.sessions, effect))
    case RunSession(id, optionOk) =>
      var s := y.sessions[id];
      var (s1, posts) := SessionRan(id, s.(tasks := s.tasks[1..]), s.tasks[0], optionOk);
      Posting(WithSession(y, id, s1), posts)
  }

  ghost predicate SystemRun(steps: seq<Step>)
    decreases |steps|, 0
  {
    steps == [] || (SystemRun(Init(steps)) && StepEnabled(SystemAfter(Init(steps)), Last(steps)))
  }

  ghost function SystemAfter(steps: seq<Step>): System
    requires SystemRun(steps)
    decreases |steps|, 1
  {
    if steps == [] then Fresh() else StepNext(SystemAfter(Init(steps)), Last(steps))
  }

  // ---- The invariant ----

  /** The life of a session: set up, handshaking, reported; only a session handed out by the server is ever closed. */
  predicate LifeOk(s: Session, handedOut: bool) {
    match s.outcome
    case None =>
      && !s.closeNotified && !s.closed
      && (|| (s.tasks == [InstallCloseHandler, BeginHandshake] && !s.closeHandler && !s.handshaking)
          || (s.tasks == [BeginHandshake] && s.closeHandler && !s.handshaking)
          || (s.tasks == [] && s.closeHandler && s.handshaking)
          || (|s.tasks| == 1 && s.tasks[0].HandshakeDone? && s.closeHandler && !s.handshaking))
    case Some(false) => s.tasks == [] && s.closeHandler && s.closeNotified && !s.closed && !s.handshaking
    case Some(true) =>
      && s.closeHandler && !s.handshaking && s.closed == s.closeNotified
      && (forall t :: t in s.tasks ==> t == CloseCall)
      && (s.tasks != [] || s.closed ==> handedOut)
  }

  /** The tasks of a session in the history of the server's strand are exactly those its state accounts for. */
  predicate TasksOk(posted: seq<ServerTask>, id: nat, s: Session) {
    && (StartResult(id, true) in posted <==> s.outcome == Some(true))
    && (StartResult(id, false) in posted <==> s.outcome == Some(false))
    && (Erase(id) in posted <==> s.closeNotified)
  }

  predicate ReportThenErase(report: ServerTask, erase: ServerTask) {
    report.StartResult? && report.ok && erase == Erase(report.id)
  }

  predicate ReportsOnce(posted: seq<ServerTask>) {
    forall a, b :: 0 <= a < b < |posted| && posted[a].StartResult? && posted[b].StartResult? ==>
      posted[a].id != posted[b].id
  }

  predicate ErasesOnce(posted: seq<ServerTask>) {
    forall a, b :: 0 <= a < b < |posted| && posted[a].Erase? && posted[b].Erase? ==> posted[a].id != posted[b].id
  }

  predicate ReportsFirst(posted: seq<ServerTask>) {
    forall a, b :: 0 <= a < |posted| && 0 <= b < |posted| && ReportThenErase(posted[a], posted[b]) ==> a < b
  }

  predicate KnownIds(posted: seq<ServerTask>, count: nat) {
    forall a :: 0 <= a < |posted| && (posted[a].StartResult? || posted[a].Erase?) ==> posted[a].id < count
  }

  predicate EraseThenFailure(erase: ServerTask, report: ServerTask) {
    report.StartResult? && !report.ok && erase == Erase(report.id)
  }

  predicate FailuresLast(posted: seq<ServerTask>) {
    forall a, b :: 0 <= a < |posted| && 0 <= b < |posted| && EraseThenFailure(posted[a], posted[b]) ==> a < b
  }

  /**
   Every session reports once and notifies its close at most once, a successful report before the notification, a
   failure behind it.
   */
  predicate HistoryOk(posted: seq<ServerTask>, count: nat) {
    && KnownIds(posted, count) && ReportsOnce(posted) && ErasesOnce(posted)
    && ReportsFirst(posted) && FailuresLast(posted)
  }

  /** A session is active exactly from its successful report to its close notification. */
  ghost predicate ActiveOk(y: System)
    requires y.done <= |y.posted|
  {
    forall id :: id in y.server.active <==> Processed(y, StartResult(id, true)) && !Processed(y, Erase(id))
  }

  predicate SessionsOk(y: System)
    requires y.done <= |y.posted|
  {
    forall id :: 0 <= id < |y.sessions| ==>
      LifeOk(y.sessions[id], Processed(y, StartResult(id, true))) && TasksOk(y.posted, id, y.sessions[id])
  }

  ghost predicate AgreementOk(y: System) {
    y.done <= |y.posted| && SessionsOk(y) && HistoryOk(y.posted, |y.sessions|) && ActiveOk(y)
  }

  // ---- Keeping it: the server's strand ----

  lemma NowProcessed(y: System)
    requires y.done < |y.posted|
    ensures forall task :: task in y.posted[..y.done + 1] <==> Processed(y, task) || task == y.posted[y.done]
  {
    assert y.posted[..y.done + 1] == y.posted[..y.done] + [y.posted[y.done]];
  }

  lemma LifeMonotone(s: Session, before: bool, after: bool)
    requires LifeOk(s, before) && (before ==> after)
    ensures LifeOk(s, after)
  {
  }

  lemma CloseKeepsLife(s: Session)
    requires LifeOk(s, true) && s.outcome == Some(true)
    ensures LifeOk(Queued(s, CloseCall), true)
  {
  }

  lemma ActiveKept(y: System)
    requires AgreementOk(y) && StepEnabled(y, RunServer)
    ensures ActiveOk(StepNext(y, RunServer))
  {
    var z := StepNext(y, RunServer);
    var task := y.posted[y.done];
    NowProcessed(y);
    match task
    case StartResult(id, ok) => assert ok ==> forall b :: 0 <= b < y.done ==> !ReportThenErase(task, y.posted[b]);
    case _ =>
  }

  lemma AffectedSession(y: System, id: nat)
    requires AgreementOk(y) && StepEnabled(y, RunServer) && id < |StepNext(y, RunServer).sessions|
    ensures var z := StepNext(y, RunServer);
            LifeOk(z.sessions[id], Processed(z, StartResult(id, true))) && TasksOk(z.posted, id, z.sessions[id])
  {
    var z := StepNext(y, RunServer);
    NowProcessed(y);
    if id < |y.sessions| {
      LifeMonotone(y.sessions[id], Processed(y, StartResult(id, true)), Processed(z, StartResult(id, true)));
      if y.posted[y.done] == Stop && id in y.server.active {
        CloseKeepsLife(y.sessions[id]);
      }
    }
  }

  lemma HistoryKept(y: System)
    requires AgreementOk(y) && StepEnabled(y, RunServer)
    ensures HistoryOk(StepNext(y, RunServer).posted, |StepNext(y, RunServer).sessions|)
  {
    assert |y.sessions| <= |StepNext(y, RunServer).sessions|;
  }

  lemma ServerStepKeeps(y: System)
    requires AgreementOk(y) && StepEnabled(y, RunServer)
    ensures AgreementOk(StepNext(y, RunServer))
  {
    ActiveKept(y);
    HistoryKept(y);
    forall id: nat | id < |StepNext(y, RunServer).sessions|
      ensures LifeOk(StepNext(y, RunServer).sessions[id], Processed(StepNext(y, RunServer), StartResult(id, true)))
      ensures TasksOk(StepNext(y, RunServer).posted, id, StepNext(y, RunServer).sessions[id])
    {
      AffectedSession(y, id);
    }
  }

  // ---- Keeping it: the sessions' strands ----

  /** What a session may add to the server's queue. */
  predicate MayPost(posted: seq<ServerTask>, task: ServerTask, count: nat) {
    match task
    case StartResult(id, ok) =>
      id < count && StartResult(id, true) !in posted && StartResult(id, false) !in posted &&
      (ok ==> Erase(id) !in posted)
    case Erase(id) => id < count && Erase(id) !in posted && StartResult(id, false) !in posted
    case _ => true
  }

  lemma PostKeepsReports(posted: seq<ServerTask>, task: ServerTask, count: nat)
    requires HistoryOk(posted, count) && MayPost(posted, task, count)
    ensures KnownIds(posted + [task], count) && ReportsOnce(posted + [task])
  {
    var longer := posted + [task];
    forall a | 0 <= a < |posted| && posted[a].StartResult? && task.StartResult? ensures posted[a].id != task.id {
      assert posted[a] in posted;
    }
  }

  lemma PostKeepsErases(posted: seq<ServerTask>, task: ServerTask, count: nat)
    requires HistoryOk(posted, count) && MayPost(posted, task, count)
    ensures ErasesOnce(posted + [task]) && ReportsFirst(posted + [task])
  {
    var longer := posted + [task];
    forall a | 0 <= a < |posted| && posted[a].Erase?
      ensures posted[a] != task && !(ReportThenErase(task, posted[a]))
    {
      assert posted[a] in posted;
    }
  }

  lemma PostKeepsFailures(posted: seq<ServerTask>, task: ServerTask, count: nat)
    requires HistoryOk(posted, count) && MayPost(posted, task, count)
    ensures FailuresLast(posted + [task])
  {
    var longer := posted + [task];
    forall a | 0 <= a < |posted| ensures !EraseThenFailure(task, posted[a]) {
      assert posted[a] in posted;
    }
  }

  lemma PostKeepsHistory(posted: seq<ServerTask>, task: ServerTask, count: nat)
    requires HistoryOk(posted, count) && MayPost(posted, task, count)
    ensures HistoryOk(posted + [task], count)
  {
    PostKeepsReports(posted, task, count);
    PostKeepsErases(posted, task, count);
    PostKeepsFailures(posted, task, count);
  }

  /** One task of a session: its life goes on, and what it posts matches its new state. */
  lemma SessionTaskKeeps(posted: seq<ServerTask>, id: nat, s: Session, optionOk: bool, handedOut: bool)
    requires LifeOk(s, handedOut) && TasksOk(posted, id, s) && s.tasks != []
    ensures var (s1, posts) := SessionRan(id, s.(tasks := s.tasks[1..]), s.tasks[0], optionOk);
            LifeOk(s1, handedOut) && TasksOk(posted + posts, id, s1)
  {
    var (s1, posts) := SessionRan(id, s.(tasks := s.tasks[1..]), s.tasks[0], optionOk);
    assert s.tasks[0] in s.tasks;
    assert forall t :: t in s.tasks[1..] ==> t in s.tasks;
  }

  lemma SessionPostsKeepHistory(
      posted: seq<ServerTask>, id: nat, s: Session, optionOk: bool, handedOut: bool, count: nat)
    requires LifeOk(s, handedOut) && TasksOk(posted, id, s) && s.tasks != [] && HistoryOk(posted, count) && id < count
    ensures HistoryOk(posted + SessionRan(id, s.(tasks := s.tasks[1..]), s.tasks[0], optionOk).1, count)
  {
    var posts := SessionRan(id, s.(tasks := s.tasks[1..]), s.tasks[0], optionOk).1;
    assert s.tasks[0] in s.tasks;
    if |posts| == 0 {
      assert posted + posts == posted;
    } else {
      PostKeepsHistory(posted, posts[0], count);
      if |posts| == 2 {
        PostKeepsHistory(posted + [posts[0]], posts[1], count);
        assert posted + posts == posted + [posts[0]] + [posts[1]];
      } else {
        assert posts == [posts[0]];
      }
    }
  }

  lemma PostsAreOwn(id: nat, s: Session, task: SessionTask, optionOk: bool)
    ensures forall t :: t in SessionRan(id, s, task, optionOk).1 ==> t == Erase(id) || (t.StartResult? && t.id == id)
  {
  }

  lemma SessionStepKeeps(y: System, id: nat, optionOk: bool)
    requires AgreementOk(y) && StepEnabled(y, RunSession(id, optionOk))
    ensures AgreementOk(StepNext(y, RunSession(id, optionOk)))
  {
    var s, handedOut := y.sessions[id], Processed(y, StartResult(id, true));
    var (s1, posts) := SessionRan(id, s.(tasks := s.tasks[1..]), s.tasks[0], optionOk);
    SessionTaskKeeps(y.posted, id, s, optionOk, handedOut);
    SessionPostsKeepHistory(y.posted, id, s, optionOk, handedOut, |y.sessions|);
    PostsAreOwn(id, s.(tasks := s.tasks[1..]), s.tasks[0], optionOk);
    PostedBySession(y, id, s1, posts);
  }

  lemma PostedBySession(y: System, id: nat, s1: Session, posts: seq<ServerTask>)
    requires AgreementOk(y) && id < |y.sessions|
    requires LifeOk(s1, Processed(y, StartResult(id, true))) && TasksOk(y.posted + posts, id, s1)
    requires HistoryOk(y.posted + posts, |y.sessions|)
    requires forall t :: t in posts ==> t == Erase(id) || (t.StartResult? && t.id == id)
    ensures AgreementOk(Posting(WithSession(y, id, s1), posts))
  {
    var z := Posting(WithSession(y, id, s1), posts);
    assert z.posted[..z.done] == y.posted[..y.done];
    forall i | 0 <= i < |z.sessions|
      ensures LifeOk(z.sessions[i], Processed(z, StartResult(i, true))) && TasksOk(z.posted, i, z.sessions[i])
    {
      if i != id {
        assert TasksOk(y.posted, i, y.sessions[i]);
      }
    }
  }

  // ---- Keeping it: the environment ----

  lemma UserCloseKeeps(y: System, id: nat)
    requires AgreementOk(y) && StepEnabled(y, UserClose(id))
    ensures AgreementOk(StepNext(y, UserClose(id)))
  {
    assert LifeOk(y.sessions[id], true) && TasksOk(y.posted, id, y.sessions[id]);
    assert StartResult(id, true) in y.posted;
    CloseKeepsLife(y.sessions[id]);
    assert y.posted + [] == y.posted;
    PostedBySession(y, id, Queued(y.sessions[id], CloseCall), []);
  }

  lemma HandshakeKeeps(y: System, id: nat, ok: bool)
    requires AgreementOk(y) && StepEnabled(y, HandshakeCompletes(id, ok))
    ensures AgreementOk(StepNext(y, HandshakeCompletes(id, ok)))
  {
    var s1 := Queued(y.sessions[id].(handshaking := false), HandshakeDone(ok));
    assert LifeOk(y.sessions[id], Processed(y, StartResult(id, true))) && TasksOk(y.posted, id, y.sessions[id]);
    assert y.posted + [] == y.posted;
    PostedBySession(y, id, s1, []);
  }

  lemma PostKeepsAgreement(y: System, v: Server, task: ServerTask)
    requires AgreementOk(y) && v.active == y.server.active && !task.StartResult? && !task.Erase?
    ensures AgreementOk(Posting(y.(server := v), [task]))
  {
    var z := Posting(y.(server := v), [task]);
    assert z.posted[..z.done] == y.posted[..y.done];
    PostKeepsHistory(y.posted, task, |y.sessions|);
  }

  // ---- The accept loop and stopping ----

  function AcceptsIn(tasks: seq<ServerTask>): nat {
    if tasks == [] then 0 else AcceptsIn(Init(tasks)) + if Last(tasks).AcceptDone? then 1 else 0
  }

  lemma {:induction false} AcceptsInConcat(a: seq<ServerTask>, b: seq<ServerTask>)
    ensures AcceptsIn(a + b) == AcceptsIn(a) + AcceptsIn(b)
  {
    if b == [] {
      assert a + b == a;
    } else {
      AcceptsInConcat(a, Init(b));
      assert Init(a + b) == a + Init(b);
    }
  }

  /** Accepts issued whose completion the server has not handled yet. */
  function AcceptsUnderWay(y: System): nat
    requires y.done <= |y.posted|
  {
    y.server.accepts + AcceptsIn(y.posted[y.done..])
  }

  predicate NoRestart(posted: seq<ServerTask>) {
    forall a, b :: 0 <= a < b < |posted| && posted[a] == Stop ==> posted[b] != Start
  }

  /**
   At most one accept is under way; while started there is exactly one, unless one was aborted. The server is started
   exactly if it has run a start and no stop; before that no accept has completed.
   */
  predicate AcceptOk(y: System) {
    && y.done <= |y.posted| && NoRestart(y.posted)
    && AcceptsUnderWay(y) <= 1
    && (y.server.started <==> Processed(y, Start) && !Processed(y, Stop))
    && (y.server.started ==> AcceptsUnderWay(y) == if Processed(y, AcceptDone(Aborted)) then 0 else 1)
    && (!Processed(y, Start) ==> AcceptsUnderWay(y) == 0 && !Processed(y, AcceptDone(Aborted)))
  }

  lemma HeadOfQueue(y: System)
    requires y.done < |y.posted|
    ensures AcceptsIn(y.posted[y.done..]) ==
            AcceptsIn(y.posted[y.done + 1..]) + if y.posted[y.done].AcceptDone? then 1 else 0
  {
    var head := [y.posted[y.done]];
    assert y.posted[y.done..] == head + y.posted[y.done + 1..];
    AcceptsInConcat(head, y.posted[y.done + 1..]);
    assert Init(head) == [];
  }

  lemma AcceptServerStep(y: System)
    requires AcceptOk(y) && StepEnabled(y, RunServer)
    ensures AcceptOk(StepNext(y, RunServer))
  {
    HeadOfQueue(y);
    NowProcessed(y);
  }

  lemma PostKeepsOrder(posted: seq<ServerTask>, task: ServerTask)
    requires NoRestart(posted) && (task == Start ==> Stop !in posted)
    ensures NoRestart(posted + [task])
  {
    var longer := posted + [task];
    forall a, b | 0 <= a < b < |longer| && longer[a] == Stop ensures longer[b] != Start {
      if b == |posted| {
        assert posted[a] in posted;
      }
    }
  }

  lemma PostKeepsAccepts(y: System, v: Server, task: ServerTask, sessions: seq<Session>)
    requires AcceptOk(y) && v.started == y.server.started
    requires v.accepts + (if task.AcceptDone? then 1 else 0) == y.server.accepts
    requires task == Start ==> Stop !in y.posted
    ensures AcceptOk(System(v, y.posted + [task], y.done, sessions))
  {
    var z := System(v, y.posted + [task], y.done, sessions);
    PostKeepsOrder(y.posted, task);
    assert z.posted[..z.done] == y.posted[..y.done];
    assert z.posted[z.done..] == y.posted[y.done..] + [task];
    assert Init(z.posted[z.done..]) == y.posted[y.done..];
  }

  lemma PostsKeepAccepts(y: System, tasks: seq<ServerTask>, sessions: seq<Session>)
    requires AcceptOk(y) && |tasks| <= 2 && forall t :: t in tasks ==> t.StartResult? || t.Erase?
    ensures AcceptOk(System(y.server, y.posted + tasks, y.done, sessions))
  {
    if tasks == [] {
      assert y.posted + tasks == y.posted;
    } else {
      assert tasks[0] in tasks;
      PostKeepsAccepts(y, y.server, tasks[0], sessions);
      if |tasks| == 2 {
        assert tasks[1] in tasks;
        PostKeepsAccepts(System(y.server, y.posted + [tasks[0]], y.done, sessions), y.server, tasks[1], sessions);
        assert y.posted + tasks == y.posted + [tasks[0]] + [tasks[1]];
      } else {
        assert tasks == [tasks[0]];
      }
    }
  }

  lemma AcceptStep(y: System, step: Step)
    requires AcceptOk(y) && StepEnabled(y, step)
    ensures AcceptOk(StepNext(y, step))
  {
    var z := StepNext(y, step);
    match step
    case RunServer => AcceptServerStep(y);
    case UserStart => PostKeepsAccepts(y, y.server, Start, y.sessions);
    case UserStop => PostKeepsAccepts(y, y.server, Stop, y.sessions);
    case AcceptCompletes(outcome) => PostKeepsAccepts(y, z.server, AcceptDone(outcome), y.sessions);
    case RunSession(id, optionOk) =>
      var s := y.sessions[id];
      var posts := SessionRan(id, s.(tasks := s.tasks[1..]), s.tasks[0], optionOk).1;
      PostsAreOwn(id, s.(tasks := s.tasks[1..]), s.tasks[0], optionOk);
      PostsKeepAccepts(y, posts, z.sessions);
    case _ =>
  }

  /** A stop reaches every session whose successful report was processed before it. */
  ghost predicate StopOk(y: System)
    requires y.done <= |y.posted|
  {
    forall a, b :: 0 <= a < b < y.done && y.posted[b] == Stop && y.posted[a].StartResult? && y.posted[a].ok ==>
      Reached(y, y.posted[a].id)
  }

  predicate Reached(y: System, id: nat) {
    id < |y.sessions| && (y.sessions[id].closeNotified || CloseCall in y.sessions[id].tasks)
  }

  lemma ReachedStaysReached(y: System, step: Step, id: nat)
    requires AgreementOk(y) && StepEnabled(y, step) && Reached(y, id)
    ensures Reached(StepNext(y, step), id)
  {
    var s, t := y.sessions[id], StepNext(y, step).sessions[id];
    assert LifeOk(s, Processed(y, StartResult(id, true)));
    if step.RunSession? && step.id == id && CloseCall in s.tasks && s.tasks[0] != CloseCall {
      assert CloseCall in s.tasks[1..];
    }
  }

  lemma StopReachesActive(y: System, id: nat)
    requires AgreementOk(y) && StepEnabled(y, RunServer) && y.posted[y.done] == Stop
    requires Processed(y, StartResult(id, true))
    ensures Reached(StepNext(y, RunServer), id)
  {
    var a :| 0 <= a < y.done && y.posted[a] == StartResult(id, true);
    assert TasksOk(y.posted, id, y.sessions[id]);
    if id in y.server.active {
      assert CloseCall in StepNext(y, RunServer).sessions[id].tasks;
    } else {
      assert Erase(id) in y.posted;
    }
  }

  lemma StopStep(y: System, step: Step)
    requires AgreementOk(y) && StopOk(y) && StepEnabled(y, step)
    ensures StopOk(StepNext(y, step))
  {
    var z := StepNext(y, step);
    forall a, b | 0 <= a < b < z.done && z.posted[b] == Stop && z.posted[a].StartResult? && z.posted[a].ok
      ensures Reached(z, z.posted[a].id)
    {
      assert z.posted[a] == y.posted[a];
      if b < y.done {
        ReachedStaysReached(y, step, y.posted[a].id);
      } else {
        assert y.posted[a] in y.posted[..y.done];
        StopReachesActive(y, y.posted[a].id);
      }
    }
  }

  // ---- Whole runs ----

  ghost predicate SystemOk(y: System) {
    AgreementOk(y) && AcceptOk(y) && StopOk(y)
  }

  lemma StepKeeps(y: System, step: Step)
    requires SystemOk(y) && StepEnabled(y, step)
    ensures SystemOk(StepNext(y, step))
  {
    AcceptStep(y, step);
    StopStep(y, step);
    match step
    case RunServer => ServerStepKeeps(y);
    case RunSession(id, optionOk) => SessionStepKeeps(y, id, optionOk);
    case UserClose(id) => UserCloseKeeps(y, id);
    case HandshakeCompletes(id, ok) => HandshakeKeeps(y, id, ok);
    case UserStart => PostKeepsAgreement(y, y.server, Start);
    case UserStop => PostKeepsAgreement(y, y.server, Stop);
    case AcceptCompletes(outcome) => PostKeepsAgreement(y, StepNext(y, step).server, AcceptDone(outcome));
  }

  lemma {:induction false} RunKeeps(steps: seq<Step>)
    requires SystemRun(steps)
    ensures SystemOk(SystemAfter(steps))
  {
    if steps != [] {
      RunKeeps(Init(steps));
      StepKeeps(SystemAfter(Init(steps)), Last(steps));
    }
  }

  /**
   In every reachable state a session is active exactly if its successful report has been processed and its close
   notification has not; a failed handshake is never active, and the notification never overtakes the report.
   */
  lemma ActiveSetAgrees(steps: seq<Step>)
    requires SystemRun(steps)
    ensures var y := SystemAfter(steps);
            && y.done <= |y.posted|
            && (forall id :: id in y.server.active <==> Processed(y, StartResult(id, true)) && !Processed(y, Erase(id)))
            && (forall id :: 0 <= id < |y.sessions| && y.sessions[id].outcome == Some(false) ==> id !in y.server.active)
            && ReportsFirst(y.posted) && ReportsOnce(y.posted) && ErasesOnce(y.posted) && FailuresLast(y.posted)
  {
    RunKeeps(steps);
    var y := SystemAfter(steps);
    forall id | 0 <= id < |y.sessions| && y.sessions[id].outcome == Some(false) ensures id !in y.server.active {
      assert TasksOk(y.posted, id, y.sessions[id]);
    }
  }

  /** All queues are empty and no handshake is outstanding. */
  predicate Drained(y: System) {
    && y.done == |y.posted|
    && forall id :: 0 <= id < |y.sessions| ==> y.sessions[id].tasks == [] && !y.sessions[id].handshaking
  }

  predicate ReportsActive(y: System, task: ServerTask) {
    task.StartResult? && task.ok && task.id in y.server.active
  }

  lemma DrainedSession(y: System, id: nat)
    requires SystemOk(y) && Drained(y) && id < |y.sessions|
    ensures y.sessions[id].outcome.Some? && StartResult(id, y.sessions[id].outcome.value) in y.posted
    ensures id in y.server.active <==> y.sessions[id].outcome == Some(true) && !y.sessions[id].closeNotified
  {
    assert y.posted[..y.done] == y.posted;
    assert LifeOk(y.sessions[id], Processed(y, StartResult(id, true))) && TasksOk(y.posted, id, y.sessions[id]);
  }

  lemma ActiveIsKnown(y: System, id: nat)
    requires AgreementOk(y) && id in y.server.active
    ensures id < |y.sessions|
  {
    var a :| 0 <= a < y.done && y.posted[a] == StartResult(id, true);
  }

  lemma ActiveReportedAfterStop(y: System, a: nat, b: nat)
    requires SystemOk(y) && Drained(y) && a < |y.posted| && b < |y.posted|
    requires y.posted[b] == Stop && ReportsActive(y, y.posted[a])
    ensures b < a
  {
    var id := y.posted[a].id;
    ActiveIsKnown(y, id);
    DrainedSession(y, id);
    assert !Reached(y, id);
  }

  /**
   Once everything has drained, every connection was reported; exactly those sessions are active whose handshake
   succeeded and that were not closed; and each of these was reported after every stop.
   */
  lemma DrainedAgreement(steps: seq<Step>)
    requires SystemRun(steps) && Drained(SystemAfter(steps))
    ensures var y := SystemAfter(steps);
            && (forall id :: 0 <= id < |y.sessions| ==>
                  y.sessions[id].outcome.Some? && StartResult(id, y.sessions[id].outcome.value) in y.posted)
            && (forall id: nat :: id in y.server.active <==>
                  (id < |y.sessions| && y.sessions[id].outcome == Some(true) && !y.sessions[id].closeNotified))
            && (forall a, b | 0 <= a < |y.posted| && 0 <= b < |y.posted| && y.posted[b] == Stop ::
                  ReportsActive(y, y.posted[a]) ==> b < a)
  {
    RunKeeps(steps);
    var y := SystemAfter(steps);
    forall id: nat | id < |y.sessions|
      ensures y.sessions[id].outcome.Some? && StartResult(id, y.sessions[id].outcome.value) in y.posted
      ensures id in y.server.active <==> y.sessions[id].outcome == Some(true) && !y.sessions[id].closeNotified
    {
      DrainedSession(y, id);
    }
    forall id: nat | id in y.server.active ensures id < |y.sessions| {
      ActiveIsKnown(y, id);
    }
    forall a, b | 0 <= a < |y.posted| && 0 <= b < |y.posted| && y.posted[b] == Stop && ReportsActive(y, y.posted[a])
      ensures b < a
    {
      ActiveReportedAfterStop(y, a, b);
    }
  }

  /** While started, exactly one accept is under way, unless one was aborted; never is there more than one. */
  lemma OneAcceptUnderWay(steps: seq<Step>)
    requires SystemRun(steps)
    ensures var y := SystemAfter(steps);
            && y.done <= |y.posted| && AcceptsUnderWay(y) <= 1
            && (y.server.started <==> Processed(y, Start) && !Processed(y, Stop))
            && (y.server.started ==> AcceptsUnderWay(y) == if Processed(y, AcceptDone(Aborted)) then 0 else 1)
  {
    RunKeeps(steps);
  }

  // ---- Connections and their reports ----

  /** The tasks were run while the server was started. */
  predicate Running(before: seq<ServerTask>) {
    Start in before && Stop !in before
  }

  /** The connections the server accepted while started, in the history of its strand. */
  function ConnectionsIn(tasks: seq<ServerTask>): nat {
    if tasks == [] then 0
    else ConnectionsIn(Init(tasks)) + if Last(tasks) == AcceptDone(Connected) && Running(Init(tasks)) then 1 else 0
  }

  lemma ConnectionsNext(y: System)
    requires y.done < |y.posted|
    ensures ConnectionsIn(y.posted[..y.done + 1]) == ConnectionsIn(y.posted[..y.done]) +
            if y.posted[y.done] == AcceptDone(Connected) && Processed(y, Start) && !Processed(y, Stop) then 1 else 0
  {
    assert Init(y.posted[..y.done + 1]) == y.posted[..y.done];
  }

  lemma ConnectionStep(y: System, step: Step)
    requires AcceptOk(y) && StepEnabled(y, step) && |y.sessions| == ConnectionsIn(y.posted[..y.done])
    ensures var z := StepNext(y, step);
            z.done <= |z.posted| && |z.sessions| == ConnectionsIn(z.posted[..z.done])
  {
    var z := StepNext(y, step);
    if step.RunServer? {
      ConnectionsNext(y);
    } else {
      assert z.posted[..z.done] == y.posted[..y.done];
    }
  }

  /** There are exactly as many sessions as connections accepted while started. */
  lemma {:induction false} EveryConnectionHasASession(steps: seq<Step>)
    requires SystemRun(steps)
    ensures var y := SystemAfter(steps);
            y.done <= |y.posted| && |y.sessions| == ConnectionsIn(y.posted[..y.done])
  {
    if steps != [] {
      EveryConnectionHasASession(Init(steps));
      RunKeeps(Init(steps));
      ConnectionStep(SystemAfter(Init(steps)), Last(steps));
    }
  }

  /** Once everything has drained, the reports are one for each connection, numbered in the order of acceptance. */
  lemma EveryConnectionIsReported(steps: seq<Step>)
    requires SystemRun(steps) && Drained(SystemAfter(steps))
    ensures var posted := SystemAfter(steps).posted;
            && (forall k: nat :: k < ConnectionsIn(posted) <==>
                  StartResult(k, true) in posted || StartResult(k, false) in posted)
            && ReportsOnce(posted)
  {
    EveryConnectionHasASession(steps);
    RunKeeps(steps);
    var y := SystemAfter(steps);
    assert y.posted[..y.done] == y.posted;
    forall k: nat ensures k < |y.sessions| <==> StartResult(k, true) in y.posted || StartResult(k, false) in y.posted {
      if k < |y.sessions| {
        DrainedSession(y, k);
      }
    }
  }

  /** What the session handler has to be told after these tasks of the server's strand. */
  function NoticesDue(tasks: seq<ServerTask>): seq<SessionNotice> {
    if tasks == [] then []
    else
      NoticesDue(Init(tasks)) +
      match Last(tasks)
      case StartResult(id, ok) => [if ok then HandedOut(id) else NoSession]
      case AcceptDone(outcome) => if outcome != Connected && Running(Init(tasks)) then [NoSession] else []
      case _ => []
  }

  /** The calls of the session handler in a run, if it is installed. */
  ghost function Notices(steps: seq<Step>, handler: bool): seq<SessionNotice>
    requires SystemRun(steps)
  {
    if steps == [] then []
    else
      var y := SystemAfter(Init(steps));
      Notices(Init(steps), handler) +
      if !Last(steps).RunServer? then []
      else match NoticeFor(y.server, handler, y.posted[y.done]) case Some(notice) => [notice] case None => []
  }

  /**
   The session handler is handed exactly the sessions of the successful reports, in their order, and told of each failed
   report and each failed or aborted accept while started; without a handler there are no calls.
   */
  lemma {:induction false} UsersAreTold(steps: seq<Step>)
    requires SystemRun(steps)
    ensures var y := SystemAfter(steps);
            && y.done <= |y.posted|
            && Notices(steps, true) == NoticesDue(y.posted[..y.done]) && Notices(steps, false) == []
  {
    if steps != [] {
      var y := SystemAfter(Init(steps));
      UsersAreTold(Init(steps));
      RunKeeps(Init(steps));
      NoticeStep(y, Last(steps));
    }
  }

  lemma NoticeStep(y: System, step: Step)
    requires AcceptOk(y) && StepEnabled(y, step)
    ensures var z := StepNext(y, step);
            && z.done <= |z.posted|
            && (!step.RunServer? ==> z.posted[..z.done] == y.posted[..y.done])
            && (step.RunServer? ==>
                  && NoticesDue(z.posted[..z.done]) == NoticesDue(y.posted[..y.done]) +
                     (match NoticeFor(y.server, true, y.posted[y.done]) case Some(notice) => [notice] case None => [])
                  && NoticeFor(y.server, false, y.posted[y.done]) == None)
  {
    if step.RunServer? {
      assert Init(y.posted[..y.done + 1]) == y.posted[..y.done];
    }
  }

  lemma StoppedStep(y: System, step: Step)
    requires AcceptOk(y) && StepEnabled(y, step) && Processed(y, Stop)
    ensures var z := StepNext(y, step);
            z.done <= |z.posted| && Processed(z, Stop) && |z.sessions| == |y.sessions| &&
            z.server.accepts <= y.server.accepts
  {
    AcceptStep(y, step);
    var z := StepNext(y, step);
    var a :| 0 <= a < y.done && y.posted[a] == Stop;
    assert z.posted[a] == Stop && z.posted[a] in z.posted[..z.done];
  }

  /** Once a stop has been processed no further session is created and no further accept issued. */
  lemma {:induction false} NoSessionAfterStop(steps: seq<Step>, n: nat)
    requires SystemRun(steps) && n <= |steps|
    ensures SystemRun(steps[..n])
    ensures var y := SystemAfter(steps[..n]); var z := SystemAfter(steps);
            && y.done <= |y.posted| && z.done <= |z.posted|
            && (Processed(y, Stop) ==>
                  Processed(z, Stop) && |z.sessions| == |y.sessions| && z.server.accepts <= y.server.accepts)
  {
    RunKeeps(steps);
    if n == |steps| {
      assert steps[..n] == steps;
    } else {
      NoSessionAfterStop(Init(steps), n);
      assert Init(steps)[..n] == steps[..n];
      RunKeeps(steps[..n]);
      RunKeeps(Init(steps));
      if Processed(SystemAfter(steps[..n]), Stop) {
        StoppedStep(SystemAfter(Init(steps)), Last(steps));
      }
    }
  }

  // ---- Who is active in the end, read off the run ----

  /** The server's strand runs a stop after the successful report of the session. */
  ghost predicate StoppedAfterReport(posted: seq<ServerTask>, done: nat, id: nat)
    requires done <= |posted|
  {
    exists a, b :: 0 <= a < b < done && posted[a] == StartResult(id, true) && posted[b] == Stop
  }

  predicate HandshakeSucceeded(s: Session) {
    HandshakeDone(true) in s.tasks || s.outcome == Some(true)
  }

  /** The state of the sessions is accounted for by the steps taken. */
  ghost predicate Traced(steps: seq<Step>, y: System)
    requires y.done <= |y.posted|
  {
    && (forall id: nat :: HandshakeCompletes(id, true) in steps <==>
          id < |y.sessions| && HandshakeSucceeded(y.sessions[id]))
    && (forall id: nat :: UserClose(id) in steps ==> Reached(y, id))
    && (forall id: nat :: Reached(y, id) && y.sessions[id].outcome == Some(true) ==>
          UserClose(id) in steps || StoppedAfterReport(y.posted, y.done, id))
  }

  lemma StoppedStaysStopped(y: System, step: Step, id: nat)
    requires y.done <= |y.posted| && StepEnabled(y, step) && StoppedAfterReport(y.posted, y.done, id)
    ensures var z := StepNext(y, step); z.done <= |z.posted| && StoppedAfterReport(z.posted, z.done, id)
  {
    var z := StepNext(y, step);
    var a, b :| 0 <= a < b < y.done && y.posted[a] == StartResult(id, true) && y.posted[b] == Stop;
    assert z.posted[a] == StartResult(id, true) && z.posted[b] == Stop;
  }

  lemma HandshakeTraced(steps: seq<Step>, y: System, step: Step, id: nat)
    requires AgreementOk(y) && Traced(steps, y) && StepEnabled(y, step)
    ensures var z := StepNext(y, step);
            HandshakeCompletes(id, true) in steps + [step] <==>
              id < |z.sessions| && HandshakeSucceeded(z.sessions[id])
  {
    if id < |y.sessions| {
      var s := y.sessions[id];
      assert LifeOk(s, Processed(y, StartResult(id, true)));
      if step.RunSession? && step.id == id {
        assert s.tasks[0] in s.tasks && s.tasks == [s.tasks[0]] + s.tasks[1..];
      }
    }
  }

  /** A session newly reached was reached by this very step: a user's close, or a stop behind its report. */
  lemma NewlyReached(y: System, step: Step, id: nat)
    requires AgreementOk(y) && StepEnabled(y, step)
    ensures var z := StepNext(y, step);
            && z.done <= |z.posted|
            && (Reached(z, id) && z.sessions[id].outcome == Some(true) ==>
                  Reached(y, id) || step == UserClose(id) || StoppedAfterReport(z.posted, z.done, id))
  {
    var z := StepNext(y, step);
    if id < |y.sessions| {
      var s := y.sessions[id];
      assert LifeOk(s, Processed(y, StartResult(id, true)));
      if step.RunServer? && y.posted[y.done] == Stop && id in y.server.active {
        var a :| 0 <= a < y.done && y.posted[a] == StartResult(id, true);
        assert z.posted[a] == StartResult(id, true) && z.posted[y.done] == Stop;
      } else if step.RunSession? && step.id == id {
        assert s.tasks[0] in s.tasks && forall t :: t in s.tasks[1..] ==> t in s.tasks;
      }
    }
  }

  lemma ReachedTraced(steps: seq<Step>, y: System, step: Step, id: nat)
    requires AgreementOk(y) && Traced(steps, y) && StepEnabled(y, step)
    requires Reached(StepNext(y, step), id) && StepNext(y, step).sessions[id].outcome == Some(true)
    ensures var z := StepNext(y, step);
            && z.done <= |z.posted|
            && (UserClose(id) in steps + [step] || StoppedAfterReport(z.posted, z.done, id))
  {
    if Reached(y, id) {
      ReachedWasSuccessful(y, step, id);
      if UserClose(id) !in steps {
        StoppedStaysStopped(y, step, id);
      }
    }
    NewlyReached(y, step, id);
  }

  lemma ReachedWasSuccessful(y: System, step: Step, id: nat)
    requires AgreementOk(y) && StepEnabled(y, step) && Reached(y, id)
    requires StepNext(y, step).sessions[id].outcome == Some(true)
    ensures y.sessions[id].outcome == Some(true)
  {
    var s := y.sessions[id];
    assert LifeOk(s, Processed(y, StartResult(id, true)));
    if step.RunSession? && step.id == id {
      assert s.tasks[0] in s.tasks;
    }
  }

  lemma StepTraced(steps: seq<Step>, y: System)
    requires steps != [] && AgreementOk(y) && Traced(Init(steps), y) && StepEnabled(y, Last(steps))
    ensures StepNext(y, Last(steps)).done <= |StepNext(y, Last(steps)).posted|
    ensures Traced(steps, StepNext(y, Last(steps)))
  {
    var before, step := Init(steps), Last(steps);
    var z := StepNext(y, step);
    assert steps == before + [step];
    forall id: nat
      ensures HandshakeCompletes(id, true) in steps <==> id < |z.sessions| && HandshakeSucceeded(z.sessions[id])
    {
      HandshakeTraced(before, y, step, id);
    }
    forall id: nat | UserClose(id) in steps ensures Reached(z, id) {
      if UserClose(id) in before {
        ReachedStaysReached(y, step, id);
      }
    }
    forall id: nat | Reached(z, id) && z.sessions[id].outcome == Some(true)
      ensures UserClose(id) in steps || StoppedAfterReport(z.posted, z.done, id)
    {
      ReachedTraced(before, y, step, id);
    }
  }

  lemma {:induction false} RunTraced(steps: seq<Step>)
    requires SystemRun(steps)
    ensures SystemAfter(steps).done <= |SystemAfter(steps).posted| && Traced(steps, SystemAfter(steps))
  {
    if steps != [] {
      RunTraced(Init(steps));
      RunKeeps(Init(steps));
      StepTraced(steps, SystemAfter(Init(steps)));
    }
  }

  lemma DrainedTrace(steps: seq<Step>, y: System, id: nat)
    requires SystemOk(y) && Traced(steps, y) && Drained(y)
    ensures id in y.server.active <==>
            && HandshakeCompletes(id, true) in steps && UserClose(id) !in steps
            && !StoppedAfterReport(y.posted, y.done, id)
  {
    if id < |y.sessions| {
      DrainedSession(y, id);
      assert Reached(y, id) <==> y.sessions[id].closeNotified;
      if StoppedAfterReport(y.posted, y.done, id) {
        var a, b :| 0 <= a < b < y.done && y.posted[a] == StartResult(id, true) && y.posted[b] == Stop;
        assert Reached(y, y.posted[a].id);
      }
    } else if id in y.server.active {
      ActiveIsKnown(y, id);
    }
  }

  /**
   Once everything has drained, exactly those sessions are active whose handshake succeeded, which no user closed, and
   behind whose report no stop was run. So everything is closed exactly if every handshake that succeeded was followed
   by one of the two.
   */
  lemma ActiveExactly(steps: seq<Step>)
    requires SystemRun(steps) && Drained(SystemAfter(steps))
    ensures var y := SystemAfter(steps);
            && (forall id: nat :: id in y.server.active <==>
                  && HandshakeCompletes(id, true) in steps && UserClose(id) !in steps
                  && !StoppedAfterReport(y.posted, y.done, id))
            && (y.server.active == {} <==>
                  forall id: nat :: HandshakeCompletes(id, true) in steps ==>
                    UserClose(id) in steps || StoppedAfterReport(y.posted, y.done, id))
  {
    RunTraced(steps);
    RunKeeps(steps);
    var y := SystemAfter(steps);
    forall id: nat
      ensures id in y.server.active <==>
              && HandshakeCompletes(id, true) in steps && UserClose(id) !in steps
              && !StoppedAfterReport(y.posted, y.done, id)
    {
      DrainedTrace(steps, y, id);
    }
  }

  lemma RunSnoc(steps: seq<Step>, step: Step) returns (longer: seq<Step>)
    requires SystemRun(steps) && StepEnabled(SystemAfter(steps), step)
    ensures longer == steps + [step] && SystemRun(longer)
    ensures SystemAfter(longer) == StepNext(SystemAfter(steps), step)
  {
    longer := steps + [step];
    assert Init(longer) == steps;
  }

  /** A connection is accepted and its handshake begun. */
  lemma HandshakeUnderWay() returns (steps: seq<Step>)
    ensures SystemRun(steps)
    ensures SystemAfter(steps) == System(Server({}, true, 1), [Start, AcceptDone(Connected)], 2,
                                         [Session([], true, false, false, true, None)])
  {
    steps := [];
    steps := RunSnoc(steps, UserStart);
    steps := RunSnoc(steps, RunServer);
    steps := RunSnoc(steps, AcceptCompletes(Connected));
    steps := RunSnoc(steps, RunServer);
    assert SystemAfter(steps).sessions == [FreshSession()];
    assert FreshSession().tasks[1..] == [BeginHandshake];
    steps := RunSnoc(steps, RunSession(0, true));
    var begin: seq<SessionTask> := [BeginHandshake];
    assert begin[1..] == [];
    assert SystemAfter(steps).sessions == [Session(begin, true, false, false, false, None)];
    steps := RunSnoc(steps, RunSession(0, true));
  }

  /** A stop is requested and run while the handshake goes on. */
  lemma StoppedMeanwhile() returns (steps: seq<Step>)
    ensures SystemRun(steps)
    ensures SystemAfter(steps) == System(Server({}, false, 1), [Start, AcceptDone(Connected), Stop], 3,
                                         [Session([], true, false, false, true, None)])
  {
    steps := HandshakeUnderWay();
    steps := RunSnoc(steps, UserStop);
    steps := RunSnoc(steps, RunServer);
    assert SystemAfter(steps).sessions == [Session([], true, false, false, true, None)];
  }

  /** The handshake succeeds. */
  lemma SucceededAfterwards() returns (steps: seq<Step>)
    ensures SystemRun(steps)
    ensures SystemAfter(steps) == System(Server({}, false, 1), [Start, AcceptDone(Connected), Stop], 3,
                                         [Session([HandshakeDone(true)], true, false, false, false, None)])
  {
    steps := StoppedMeanwhile();
    steps := RunSnoc(steps, HandshakeCompletes(0, true));
    var report: seq<SessionTask> := [HandshakeDone(true)];
    assert [] + report == report;
    assert SystemAfter(steps).sessions == [Session(report, true, false, false, false, None)];
  }

  /** It is reported. */
  lemma ReportedAfterwards() returns (steps: seq<Step>)
    ensures SystemRun(steps)
    ensures SystemAfter(steps) == System(Server({0}, false, 1),
                                         [Start, AcceptDone(Connected), Stop, StartResult(0, true)], 4,
                                         [Session([], true, false, false, false, Some(true))])
  {
    steps := SucceededAfterwards();
    var report: seq<SessionTask> := [HandshakeDone(true)];
    assert report[1..] == [];
    steps := RunSnoc(steps, RunSession(0, true));
    assert SystemAfter(steps).sessions == [Session([], true, false, false, false, Some(true))];
    steps := RunSnoc(steps, RunServer);
  }

  /** So "after a stop everything closes" is false: a session still in its handshake at that time becomes active. */
  lemma HandshakeOutlivesStop() returns (steps: seq<Step>)
    ensures SystemRun(steps) && Drained(SystemAfter(steps))
    ensures Processed(SystemAfter(steps), Stop) && SystemAfter(steps).server.active == {0}
  {
    steps := ReportedAfterwards();
    assert SystemAfter(steps).posted[2] == Stop;
  }
}
