/** What every task of every run keeps, for any transport and any re-entrant read handler. */
module TransportInvariants {
  import opened Common
  import opened TransportSpec

  /** Holds at every point of a run, also in the middle of a read handler. */
  ghost predicate Inv<M(!new), R>(p: Protocol<M, R>, s: State<M, R>) {
    // One flag, one outstanding operation; a read in flight has the whole current buffer.
    && s.pendingReads == (if s.reading then [s.bufferSize] else [])
    && |s.pendingWrites| == (if s.writing then 1 else 0)
    && 0 < s.bufferSize
    // The preemption flag is never raised.
    && !s.pause && s.h.cancels == 0
    // While open, what was accepted is what completed followed by the queue, whose head is in flight.
    && (!s.closed ==>
      && s.h.accepted == s.h.completed + s.queue
      && s.h.started == s.h.completed + s.pendingWrites
      && s.pendingWrites <= s.queue)
    && (s.closed ==> s.queue == [] && !s.enabled)
    && s.h.completed + s.pendingWrites <= s.h.started <= s.h.accepted
    && (forall m :: m in s.h.started ==> p.encodes(m))
    // In half duplex no operation was ever started with the opposite one in flight.
    && (forall i :: 0 <= i < |s.h.starts| && s.h.starts[i].mode.HalfDuplex? ==> !s.h.starts[i].otherInFlight)
  }

  /** No wake-up is lost: nothing that could be started is left waiting. */
  predicate Quiescent<M, R>(s: State<M, R>) {
    !CanStartWrite(s) && !CanStartRead(s)
  }

  ghost predicate Initial<M, R>(s: State<M, R>) {
    exists mode, size: nat :: 0 < size && s == Opened(mode, size)
  }

  lemma OpenedInv<M(!new), R>(p: Protocol<M, R>, s: State<M, R>)
    requires Initial(s)
    ensures Inv(p, s) && Quiescent(s)
  {
  }

  lemma ClosingInv<M(!new), R>(p: Protocol<M, R>, s: State<M, R>)
    requires Inv(p, s)
    ensures Inv(p, Closing(s)) && Quiescent(Closing(s))
  {
  }

  lemma WriteStartedInv<M(!new), R>(p: Protocol<M, R>, s: State<M, R>)
    requires Inv(p, s) && CanStartWrite(s)
    ensures Inv(p, WriteStarted(p, s)) && !CanStartWrite(WriteStarted(p, s))
  {
  }

  lemma ScheduledInv<M(!new), R>(p: Protocol<M, R>, s: State<M, R>)
    requires Inv(p, s)
    ensures Inv(p, Scheduled(p, s)) && Quiescent(Scheduled(p, s))
  {
    if CanStartWrite(s) {
      WriteStartedInv(p, s);
    }
  }

  lemma AppliedInv<M(!new), R>(p: Protocol<M, R>, s: State<M, R>, action: Action<M>)
    requires Inv(p, s)
    ensures Inv(p, Applied(p, s, action))
    ensures Quiescent(s) ==> Quiescent(Applied(p, s, action))
  {
    match action
    case Send(message) =>
      if !s.closed {
        ScheduledInv(p, s.(queue := s.queue + [message], h := s.h.(accepted := s.h.accepted + [message])));
      }
    case StartReading =>
      if !s.closed {
        ScheduledInv(p, s.(enabled := true));
      }
    case SetDuplexMode(mode) => ScheduledInv(p, s.(mode := mode));
    case _ =>
  }

  lemma {:induction false} AppliedAllInv<M(!new), R>(p: Protocol<M, R>, s: State<M, R>, actions: seq<Action<M>>)
    requires Inv(p, s)
    ensures Inv(p, AppliedAll(p, s, actions))
  {
    if actions != [] {
      AppliedAllInv(p, s, Init(actions));
      AppliedInv(p, AppliedAll(p, s, Init(actions)), Last(actions));
    }
  }

  lemma ReadFinishedInv<M(!new), R>(p: Protocol<M, R>, s: State<M, R>, result: ReadResult, reaction: seq<Action<M>>)
    requires Inv(p, s) && s.pendingReads != []
    ensures Inv(p, ReadFinished(p, s, result, reaction)) && Quiescent(ReadFinished(p, s, result, reaction))
  {
    var s1, callback := ReadReturned(s, result), CallbackFor(p, result);
    AppliedAllInv(p, Recorded(s1, callback), reaction);
    var s2 := Notified(p, s1, callback, reaction);
    ClosingInv(p, s2);
    ScheduledInv(p, s2);
  }

  lemma ConsumedInv<M(!new), R>(p: Protocol<M, R>, s: State<M, R>)
    requires Inv(p, s) && s.pendingWrites != []
    ensures Inv(p, Consumed(s))
  {
    var t := Consumed(s);
    assert s.pendingWrites == [s.pendingWrites[0]] && t.pendingWrites == [];
    assert t.h.completed + t.pendingWrites == s.h.completed + s.pendingWrites;
    if !s.closed {
      assert s.queue == s.pendingWrites + t.queue;
      assert s.h.completed + s.queue == t.h.completed + t.queue;
    }
  }

  lemma WriteFinishedInv<M(!new), R>(p: Protocol<M, R>, s: State<M, R>, ok: bool)
    requires Inv(p, s) && s.pendingWrites != []
    ensures Inv(p, WriteFinished(p, s, ok)) && Quiescent(WriteFinished(p, s, ok))
  {
    if ok {
      ConsumedInv(p, s);
      ScheduledInv(p, Consumed(s));
    } else {
      FailedWriteInv(p, s);
    }
  }

  lemma FailedWriteInv<M(!new), R>(p: Protocol<M, R>, s: State<M, R>)
    requires Inv(p, s) && s.pendingWrites != []
    ensures Inv(p, WriteFinished(p, s, false)) && Quiescent(WriteFinished(p, s, false))
  {
    var t := WriteFinished(p, s, false);
    assert t.pendingWrites == [];
    assert t.h.completed + t.pendingWrites <= s.h.completed + s.pendingWrites;
  }

  lemma NextInv<M(!new), R>(p: Protocol<M, R>, s: State<M, R>, e: Event<M>)
    requires Inv(p, s) && Enabled(s, e)
    ensures Inv(p, Next(p, s, e))
    ensures Quiescent(s) ==> Quiescent(Next(p, s, e))
  {
    match e
    case Call(action) => AppliedInv(p, s, action);
    case InstallHandler(_) =>
    case ReadDone(result, reaction) => ReadFinishedInv(p, s, result, reaction);
    case WriteDone(ok) => WriteFinishedInv(p, s, ok);
  }

  lemma {:induction false} ValidPrefix<M(!new), R>(p: Protocol<M, R>, s: State<M, R>, es: seq<Event<M>>, n: nat)
    requires ValidRun(p, s, es) && n <= |es|
    ensures ValidRun(p, s, es[..n])
  {
    if n < |es| {
      ValidPrefix(p, s, Init(es), n);
      assert Init(es)[..n] == es[..n];
    } else {
      assert es[..n] == es;
    }
  }

  lemma {:induction false} ExecInv<M(!new), R>(p: Protocol<M, R>, s: State<M, R>, es: seq<Event<M>>)
    requires Inv(p, s) && Quiescent(s) && ValidRun(p, s, es)
    ensures Inv(p, Exec(p, s, es)) && Quiescent(Exec(p, s, es))
  {
    if es != [] {
      ExecInv(p, s, Init(es));
      NextInv(p, Exec(p, s, Init(es)), Last(es));
    }
  }

  /** One step of a run: the first `n` tasks, then task number `n`. */
  lemma ExecPrefix<M(!new), R>(p: Protocol<M, R>, s: State<M, R>, es: seq<Event<M>>, n: nat)
    requires Inv(p, s) && Quiescent(s) && ValidRun(p, s, es) && n < |es|
    ensures ValidRun(p, s, es[..n]) && Inv(p, Exec(p, s, es[..n])) && Enabled(Exec(p, s, es[..n]), es[n])
    ensures ValidRun(p, s, es[..n + 1]) && Exec(p, s, es[..n + 1]) == Next(p, Exec(p, s, es[..n]), es[n])
  {
    ValidPrefix(p, s, es, n);
    ValidPrefix(p, s, es, n + 1);
    ExecInv(p, s, es[..n]);
    assert Init(es[..n + 1]) == es[..n];
  }
}
