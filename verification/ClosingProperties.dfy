/** What closes a session, and what the branch that preempts a read would do if it were ever taken. */
module ClosingProperties {
  import opened Common
  import opened TransportSpec
  import opened TransportInvariants
  import opened TransportProperties

  /** The task closes the session by itself: a close, a failed write, a failed read, or bytes that cannot be decoded. */
  predicate Causes<M, R>(p: Protocol<M, R>, e: Event<M>, handler: bool) {
    match e
    case Call(action) => action.Close?
    case InstallHandler(_) => false
    case ReadDone(result, reaction) =>
      || result.ReadError? || p.decode(result.data).None?
      || (handler && exists i :: 0 <= i < |reaction| && reaction[i].Close?)
    case WriteDone(ok) => !ok
  }

  /** Some task of the run closes the session by itself. */
  predicate ClosedBy<M, R>(p: Protocol<M, R>, es: seq<Event<M>>) {
    es != [] && (ClosedBy(p, Init(es)) || Causes(p, Last(es), HandlerAfter(Init(es))))
  }

  /** Any message can be put on the wire. */
  ghost predicate EncodesAll<M(!new), R>(p: Protocol<M, R>) {
    forall m :: p.encodes(m)
  }

  lemma ScheduledStays<M(!new), R>(p: Protocol<M, R>, s: State<M, R>)
    requires EncodesAll(p)
    ensures Scheduled(p, s).closed == s.closed
  {
  }

  lemma AppliedCloses<M(!new), R>(p: Protocol<M, R>, s: State<M, R>, action: Action<M>)
    ensures s.closed || action.Close? ==> Applied(p, s, action).closed
    ensures EncodesAll(p) ==> (Applied(p, s, action).closed <==> s.closed || action.Close?)
  {
    AppliedCalls(p, s, action);
    if EncodesAll(p) {
      match action
      case Send(message) =>
        ScheduledStays(p, s.(queue := s.queue + [message], h := s.h.(accepted := s.h.accepted + [message])));
      case StartReading => ScheduledStays(p, s.(enabled := true));
      case SetDuplexMode(mode) => ScheduledStays(p, s.(mode := mode));
      case _ =>
    }
  }

  lemma {:induction false} AppliedAllCloses<M(!new), R>(p: Protocol<M, R>, s: State<M, R>, actions: seq<Action<M>>)
    ensures var closes := s.closed || exists i :: 0 <= i < |actions| && actions[i].Close?;
            && (closes ==> AppliedAll(p, s, actions).closed)
            && (EncodesAll(p) ==> (AppliedAll(p, s, actions).closed <==> closes))
  {
    if actions != [] {
      AppliedAllCloses(p, s, Init(actions));
      AppliedCloses(p, AppliedAll(p, s, Init(actions)), Last(actions));
      assert forall i :: 0 <= i < |actions| - 1 ==> Init(actions)[i] == actions[i];
      assert actions[|actions| - 1] == Last(actions);
    }
  }

  lemma ReadFinishedCloses<M(!new), R>(
      p: Protocol<M, R>, s: State<M, R>, result: ReadResult, reaction: seq<Action<M>>)
    requires Inv(p, s) && s.pendingReads != []
    ensures var closes := s.closed || Causes(p, ReadDone(result, reaction), s.handler);
            && (closes ==> ReadFinished(p, s, result, reaction).closed)
            && (EncodesAll(p) ==> (ReadFinished(p, s, result, reaction).closed <==> closes))
  {
    var s1, callback := ReadReturned(s, result), CallbackFor(p, result);
    var s2 := Notified(p, s1, callback, reaction);
    AppliedAllCloses(p, Recorded(s1, callback), reaction);
    ScheduledCalls(p, s2);
    if EncodesAll(p) {
      ScheduledStays(p, s2);
    }
  }

  lemma NextCloses<M(!new), R>(p: Protocol<M, R>, s: State<M, R>, e: Event<M>)
    requires Inv(p, s) && Enabled(s, e)
    ensures s.closed || Causes(p, e, s.handler) ==> Next(p, s, e).closed
    ensures EncodesAll(p) ==> (Next(p, s, e).closed <==> s.closed || Causes(p, e, s.handler))
  {
    match e
    case Call(action) => AppliedCloses(p, s, action);
    case ReadDone(result, reaction) => ReadFinishedCloses(p, s, result, reaction);
    case WriteDone(ok) =>
      ScheduledCalls(p, Consumed(s));
      if EncodesAll(p) {
        ScheduledStays(p, Consumed(s));
      }
    case InstallHandler(_) =>
  }

  /**
   A session is closed after each run with a task that closes it, and, if every message can be put on the wire, after no
   other run.
   */
  lemma {:induction false} ClosedExactly<M(!new), R>(p: Protocol<M, R>, s: State<M, R>, es: seq<Event<M>>)
    requires Initial(s) && ValidRun(p, s, es)
    ensures ClosedBy(p, es) ==> Exec(p, s, es).closed
    ensures EncodesAll(p) ==> (Exec(p, s, es).closed <==> ClosedBy(p, es))
  {
    if es != [] {
      ClosedExactly(p, s, Init(es));
      AcceptedAreSent(p, s, Init(es));
      OpenedInv(p, s);
      ExecInv(p, s, Init(es));
      NextCloses(p, Exec(p, s, Init(es)), Last(es));
    }
  }

  /**
   No run enters `do_write` in half duplex with a read in flight. If one did, the read would be cancelled; its abort
   would be kept from the handler, and then the flag would keep the write and the queue the read from starting.
   */
  lemma PreemptionWouldStall<M(!new), R>(p: Protocol<M, R>, s: State<M, R>, reaction: seq<Action<M>>)
    requires !s.closed && s.mode.HalfDuplex? && s.reading && |s.pendingReads| == 1 && !s.writing && s.queue != []
    ensures var t := WriteStarted(p, s);
            && t.h.cancels == s.h.cancels + 1 && t.pendingReads == s.pendingReads
            && t.pendingWrites == s.pendingWrites && t.queue == s.queue
    ensures var u := ReadFinished(p, WriteStarted(p, s), ReadError(OperationAborted), reaction);
            && !u.closed && u.h.callbacks == s.h.callbacks && u.queue == s.queue && u.pendingReads == []
            && u.pendingWrites == s.pendingWrites && Quiescent(u)
  {
  }

  /**
   The way out of that state: if by then the mode was switched to full duplex, the abort starts the write; if the queue
   was emptied and reading is on, it starts a read, which lowers the flag.
   */
  lemma PreemptionResumes<M(!new), R>(p: Protocol<M, R>, s: State<M, R>, reaction: seq<Action<M>>)
    requires !s.closed && s.pause && s.reading && |s.pendingReads| == 1 && !s.writing
    ensures var t := ReadFinished(p, s, ReadError(OperationAborted), reaction);
            && t.h.callbacks == s.h.callbacks
            && (s.mode.FullDuplex? && s.queue != [] && p.encodes(s.queue[0]) ==>
                  t.pendingWrites == s.pendingWrites + [s.queue[0]])
            && (s.queue == [] && s.enabled ==> t.pendingReads == [s.bufferSize] && !t.pause)
  {
  }
}
