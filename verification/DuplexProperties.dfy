/** Half-duplex exclusion under mode switching, the drain bound, and frames that cannot be encoded. */
module DuplexProperties {
  import opened Common
  import opened TransportSpec
  import opened TransportInvariants
  import opened TransportProperties

  /** The call does not leave duplex mode `mode`. */
  predicate ActionKeeps<M>(mode: DuplexMode, action: Action<M>) {
    action.SetDuplexMode? ==> action.mode == mode
  }

  predicate Keeps<M(==)>(mode: DuplexMode, e: Event<M>) {
    match e
    case Call(action) => ActionKeeps(mode, action)
    case ReadDone(_, reaction) => forall a :: a in reaction ==> ActionKeeps(mode, a)
    case _ => true
  }

  predicate IsCompletion<M>(e: Event<M>) {
    e.ReadDone? || e.WriteDone?
  }

  // ---- Half-duplex exclusion ----

  predicate Exclusive<M, R>(s: State<M, R>) {
    s.pendingReads == [] || s.pendingWrites == []
  }

  /** In half duplex, and never both operations outstanding. */
  ghost predicate HalfExclusive<M(!new), R>(p: Protocol<M, R>, s: State<M, R>) {
    Inv(p, s) && s.mode.HalfDuplex? && Exclusive(s)
  }

  lemma ScheduledExclusive<M(!new), R>(p: Protocol<M, R>, s: State<M, R>)
    requires HalfExclusive(p, s)
    ensures HalfExclusive(p, Scheduled(p, s))
  {
    ScheduledInv(p, s);
  }

  lemma AppliedExclusive<M(!new), R>(p: Protocol<M, R>, s: State<M, R>, action: Action<M>)
    requires HalfExclusive(p, s) && ActionKeeps(HalfDuplex, action)
    ensures HalfExclusive(p, Applied(p, s, action))
  {
    AppliedInv(p, s, action);
    match action
    case Send(message) =>
      var s1 := s.(queue := s.queue + [message], h := s.h.(accepted := s.h.accepted + [message]));
      if !s.closed {
        ScheduledExclusive(p, s1);
      }
    case StartReading =>
      if !s.closed {
        ScheduledExclusive(p, s.(enabled := true));
      }
    case SetDuplexMode(mode) => ScheduledExclusive(p, s.(mode := mode));
    case _ =>
  }

  lemma {:induction false} AppliedAllExclusive<M(!new), R>(p: Protocol<M, R>, s: State<M, R>, actions: seq<Action<M>>)
    requires HalfExclusive(p, s) && forall a :: a in actions ==> ActionKeeps(HalfDuplex, a)
    ensures HalfExclusive(p, AppliedAll(p, s, actions))
  {
    if actions != [] {
      AppliedAllExclusive(p, s, Init(actions));
      AppliedExclusive(p, AppliedAll(p, s, Init(actions)), Last(actions));
    }
  }

  lemma ReadFinishedExclusive<M(!new), R>(
      p: Protocol<M, R>, s: State<M, R>, result: ReadResult, reaction: seq<Action<M>>)
    requires Inv(p, s) && s.mode.HalfDuplex? && s.pendingReads != []
    requires forall a :: a in reaction ==> ActionKeeps(HalfDuplex, a)
    ensures HalfExclusive(p, ReadFinished(p, s, result, reaction))
  {
    var s1, callback := ReadReturned(s, result), CallbackFor(p, result);
    AppliedAllExclusive(p, Recorded(s1, callback), reaction);
    var s2 := Notified(p, s1, callback, reaction);
    ClosingInv(p, s2);
    ScheduledExclusive(p, s2);
  }

  /** Half duplex is kept, and exclusion holds after the step exactly if it held before or the step is a completion. */
  lemma NextExclusive<M(!new), R>(p: Protocol<M, R>, s: State<M, R>, e: Event<M>)
    requires Inv(p, s) && s.mode.HalfDuplex? && Keeps(HalfDuplex, e) && Enabled(s, e)
    ensures Next(p, s, e).mode.HalfDuplex?
    ensures Exclusive(Next(p, s, e)) <==> Exclusive(s) || IsCompletion(e)
  {
    match e
    case Call(action) =>
      if Exclusive(s) {
        AppliedExclusive(p, s, action);
      } else {
        AppliedCalls(p, s, action);
      }
    case ReadDone(result, reaction) => ReadFinishedExclusive(p, s, result, reaction);
    case WriteDone(ok) =>
      ConsumedInv(p, s);
      ScheduledExclusive(p, Consumed(s));
    case InstallHandler(_) =>
  }

  /** Half duplex throughout `es`, and exclusion at the end exactly if it held at the start or something completed. */
  ghost predicate ExcludedAfter<M(!new), R>(s: State<M, R>, t: State<M, R>, es: seq<Event<M>>) {
    t.mode.HalfDuplex? && (Exclusive(t) <==> Exclusive(s) || (exists e :: e in es && IsCompletion(e)))
  }

  lemma ExcludedByTask<M(!new), R>(p: Protocol<M, R>, s: State<M, R>, u: State<M, R>, es: seq<Event<M>>)
    requires es != [] && ExcludedAfter(s, u, Init(es))
    requires Inv(p, u) && Enabled(u, Last(es)) && Keeps(HalfDuplex, Last(es))
    ensures ExcludedAfter(s, Next(p, u, Last(es)), es)
  {
    NextExclusive(p, u, Last(es));
    assert es == Init(es) + [Last(es)];
  }

  /**
   From any state in half duplex, as long as no client switches to full duplex: both operations are never outstanding
   together if they were not at the start; if they were, they are until the first completion, and not from then on.
   */
  lemma {:induction false} HalfDuplexExclusion<M(!new), R>(p: Protocol<M, R>, s: State<M, R>, es: seq<Event<M>>)
    requires Inv(p, s) && Quiescent(s) && s.mode.HalfDuplex? && ValidRun(p, s, es)
    requires forall e :: e in es ==> Keeps(HalfDuplex, e)
    ensures ExcludedAfter(s, Exec(p, s, es), es)
  {
    if es != [] {
      assert es == Init(es) + [Last(es)];
      ExecInv(p, s, Init(es));
      HalfDuplexExclusion(p, s, Init(es));
      ExcludedByTask(p, s, Exec(p, s, Init(es)), es);
    }
  }

  /** No run whatsoever starts an operation in half duplex while the opposite one is in flight. */
  lemma NoOverlappingStart<M(!new), R>(p: Protocol<M, R>, s: State<M, R>, es: seq<Event<M>>, i: nat)
    requires Initial(s) && ValidRun(p, s, es)
    requires i < |Exec(p, s, es).h.starts| && Exec(p, s, es).h.starts[i].mode.HalfDuplex?
    ensures !Exec(p, s, es).h.starts[i].otherInFlight
  {
    OpenedInv(p, s);
    ExecInv(p, s, es);
  }

  /** Switching to half duplex with both operations in flight stops neither. */
  lemma SwitchLeavesBothInFlight<M(!new), R>(p: Protocol<M, R>, s: State<M, R>)
    requires Inv(p, s) && s.pendingReads != [] && s.pendingWrites != []
    ensures var t := Next(p, s, Call(SetDuplexMode(HalfDuplex)));
            && t.mode.HalfDuplex? && t.pendingReads == s.pendingReads && t.pendingWrites == s.pendingWrites
  {
  }

  /** Such a state is reached: a read and a write are started in full duplex, then the mode is switched. */
  lemma BothInFlightInHalfDuplex<M(!new), R>(p: Protocol<M, R>, message: M) returns (es: seq<Event<M>>)
    requires p.encodes(message)
    ensures ValidRun(p, Opened(FullDuplex, 1), es)
    ensures var t := Exec(p, Opened(FullDuplex, 1), es);
            t.mode.HalfDuplex? && t.pendingReads == [1] && t.pendingWrites == [message]
  {
    var s0: State<M, R> := Opened(FullDuplex, 1);
    es := ReadingRun(p, s0, 1);
    es := ExecSnoc(p, s0, es, Call(Send(message)));
    es := ExecSnoc(p, s0, es, Call(SetDuplexMode(HalfDuplex)));
  }

  // ---- Drain bound ----

  function WritesIn<M>(es: seq<Event<M>>): nat {
    if es == [] then 0 else WritesIn(Init(es)) + if Last(es).WriteDone? then 1 else 0
  }

  function ReadsIn<M>(es: seq<Event<M>>): nat {
    if es == [] then 0 else ReadsIn(Init(es)) + if Last(es).ReadDone? then 1 else 0
  }

  /** How many completions the accepted message number `j` still has to wait for, its own included. */
  function Wait<M, R>(j: nat, s: State<M, R>): int {
    j + 1 - |s.h.completed| + if s.mode.HalfDuplex? then |s.pendingReads| else 0
  }

  /** In half duplex a non-empty queue keeps every call of a handler from starting a read. */
  lemma {:induction false} NoReadWhileQueued<M(!new), R>(p: Protocol<M, R>, s: State<M, R>, actions: seq<Action<M>>)
    requires Inv(p, s) && s.queue != []
    requires forall a :: a in actions ==> ActionKeeps(s.mode, a)
    requires !AppliedAll(p, s, actions).closed
    ensures var t := AppliedAll(p, s, actions);
            && t.mode == s.mode && t.queue != []
            && (s.mode.HalfDuplex? ==> t.pendingReads == s.pendingReads)
  {
    if actions != [] {
      var t := AppliedAll(p, s, Init(actions));
      AppliedCalls(p, t, Last(actions));
      NoReadWhileQueued(p, s, Init(actions));
      AppliedAllInv(p, s, Init(actions));
      AppliedWhileQueued(p, t, Last(actions));
    }
  }

  lemma AppliedWhileQueued<M(!new), R>(p: Protocol<M, R>, s: State<M, R>, action: Action<M>)
    requires Inv(p, s) && s.queue != [] && ActionKeeps(s.mode, action) && !Applied(p, s, action).closed
    ensures var t := Applied(p, s, action);
            && t.mode == s.mode && t.queue != []
            && (s.mode.HalfDuplex? ==> t.pendingReads == s.pendingReads)
  {
    match action
    case Send(message) =>
      ScheduledWhileQueued(p, s.(queue := s.queue + [message], h := s.h.(accepted := s.h.accepted + [message])));
    case StartReading => ScheduledWhileQueued(p, s.(enabled := true));
    case SetDuplexMode(mode) => ScheduledWhileQueued(p, s.(mode := mode));
    case _ =>
  }

  lemma ScheduledWhileQueued<M(!new), R>(p: Protocol<M, R>, s: State<M, R>)
    requires Inv(p, s) && s.queue != [] && !Scheduled(p, s).closed
    ensures var t := Scheduled(p, s);
            && t.mode == s.mode && t.queue == s.queue
            && (s.mode.HalfDuplex? ==> t.pendingReads == s.pendingReads)
  {
  }

  lemma NextWait<M(!new), R>(p: Protocol<M, R>, s: State<M, R>, e: Event<M>, j: nat)
    requires Inv(p, s) && Keeps(s.mode, e) && Enabled(s, e) && j < |s.h.accepted|
    requires !Next(p, s, e).closed && |Next(p, s, e).h.completed| <= j
    ensures var t := Next(p, s, e);
            && t.mode == s.mode
            && |t.h.completed| == |s.h.completed| + (if e.WriteDone? then 1 else 0)
            && Wait(j, t) == Wait(j, s) - (if e.WriteDone? || (e.ReadDone? && s.mode.HalfDuplex?) then 1 else 0)
  {
    NextReads(p, s, e);
    NextSends(p, s, e);
    match e
    case Call(action) => AppliedWhileQueued(p, s, action);
    case ReadDone(result, reaction) =>
      var s1 := ReadReturned(s, result);
      var s2 := Notified(p, s1, CallbackFor(p, result), reaction);
      if s.handler {
        NoReadWhileQueued(p, Recorded(s1, CallbackFor(p, result)), reaction);
      }
      AppliedAllInv(p, Recorded(s1, CallbackFor(p, result)), reaction);
      ScheduledWhileQueued(p, s2);
    case WriteDone(ok) =>
      ConsumedInv(p, s);
      ScheduledWhileQueued(p, Consumed(s));
    case InstallHandler(_) =>
  }

  /** A session with something queued waits for a completion. */
  lemma CompletionOwed<M(!new), R>(p: Protocol<M, R>, s: State<M, R>)
    requires Inv(p, s) && Quiescent(s) && !s.closed && |s.h.completed| < |s.h.accepted|
    ensures s.pendingWrites != [] || (s.mode.HalfDuplex? && s.pendingReads != [])
  {
  }

  /** A session that is open and has not completed message number `j` was like that before the task, too. */
  lemma WaitedBefore<M(!new), R>(p: Protocol<M, R>, s: State<M, R>, e: Event<M>, j: nat)
    requires Inv(p, s) && Enabled(s, e) && !Next(p, s, e).closed && |Next(p, s, e).h.completed| <= j
    ensures !s.closed && |s.h.completed| <= j && s.h.accepted <= Next(p, s, e).h.accepted
  {
    NextReads(p, s, e);
  }

  /**
   `t` follows `s` after the tasks `es`: unless the session closed or message number `j` is completed, each write
   completion, and in half duplex each read completion, is counted.
   */
  predicate Advanced<M, R>(s: State<M, R>, t: State<M, R>, es: seq<Event<M>>, j: nat) {
    !t.closed && |t.h.completed| <= j ==>
      && t.mode == s.mode && j < |t.h.accepted|
      && |t.h.completed| == |s.h.completed| + WritesIn(es)
      && Wait(j, t) == Wait(j, s) - WritesIn(es) - (if s.mode.HalfDuplex? then ReadsIn(es) else 0)
  }

  lemma AdvancedByTask<M(!new), R>(p: Protocol<M, R>, s: State<M, R>, u: State<M, R>, es: seq<Event<M>>, j: nat)
    requires es != [] && Advanced(s, u, Init(es), j)
    requires Inv(p, u) && Enabled(u, Last(es)) && Keeps(s.mode, Last(es))
    ensures Advanced(s, Next(p, u, Last(es)), es, j)
  {
    if !Next(p, u, Last(es)).closed && |Next(p, u, Last(es)).h.completed| <= j {
      WaitedBefore(p, u, Last(es), j);
      NextWait(p, u, Last(es), j);
    }
  }

  lemma {:induction false} DrainCount<M(!new), R>(p: Protocol<M, R>, s: State<M, R>, es: seq<Event<M>>, j: nat)
    requires Inv(p, s) && Quiescent(s) && ValidRun(p, s, es)
    requires j < |s.h.accepted| && forall e :: e in es ==> Keeps(s.mode, e)
    ensures Advanced(s, Exec(p, s, es), es, j)
  {
    if es != [] {
      assert es == Init(es) + [Last(es)];
      ExecInv(p, s, Init(es));
      DrainCount(p, s, Init(es), j);
      AdvancedByTask(p, s, Exec(p, s, Init(es)), es, j);
    }
  }

  /**
   In a fixed duplex mode, as long as the session stays open and accepted message number `j` is not completed: every
   write completion, and in half duplex every read completion, brings it one step nearer, and one is still owed.
   So at queue position p it waits for at most p + 1 write completions and, in half duplex, one read completion.
   */
  lemma DrainBound<M(!new), R>(p: Protocol<M, R>, s: State<M, R>, es: seq<Event<M>>, j: nat)
    requires Inv(p, s) && Quiescent(s) && ValidRun(p, s, es)
    requires j < |s.h.accepted| && forall e :: e in es ==> Keeps(s.mode, e)
    requires !Exec(p, s, es).closed && |Exec(p, s, es).h.completed| <= j
    ensures var t := Exec(p, s, es);
            && |t.h.completed| == |s.h.completed| + WritesIn(es)
            && Wait(j, t) == Wait(j, s) - WritesIn(es) - (if s.mode.HalfDuplex? then ReadsIn(es) else 0)
            && WritesIn(es) <= j - |s.h.completed|
            && (s.mode.HalfDuplex? ==> ReadsIn(es) <= |s.pendingReads| <= 1)
            && (t.pendingWrites != [] || (t.mode.HalfDuplex? && t.pendingReads != []))
  {
    DrainCount(p, s, es, j);
    ExecInv(p, s, es);
    CompletionOwed(p, Exec(p, s, es));
  }

  /** The bound itself: after that many completions the message is completed, unless the session closed. */
  lemma CompletedInTime<M(!new), R>(p: Protocol<M, R>, s: State<M, R>, es: seq<Event<M>>, j: nat)
    requires Inv(p, s) && Quiescent(s) && ValidRun(p, s, es)
    requires j < |s.h.accepted| && forall e :: e in es ==> Keeps(s.mode, e)
    requires WritesIn(es) >= j + 1 - |s.h.completed| || (s.mode.HalfDuplex? && ReadsIn(es) >= 2)
    ensures Exec(p, s, es).closed || j < |Exec(p, s, es).h.completed|
  {
    if !Exec(p, s, es).closed && |Exec(p, s, es).h.completed| <= j {
      DrainBound(p, s, es, j);
    }
  }

  // ---- Stopping to read ----

  /** The task makes no call that turns reading on. */
  predicate LeavesReadingOff<M(==)>(e: Event<M>) {
    match e
    case Call(action) => !action.StartReading?
    case ReadDone(_, reaction) => forall a :: a in reaction ==> !a.StartReading?
    case _ => true
  }

  predicate ReadingOff<M, R>(s: State<M, R>, pendingReads: seq<nat>) {
    !s.enabled && s.pendingReads == pendingReads
  }

  lemma AppliedReadingOff<M(!new), R>(p: Protocol<M, R>, s: State<M, R>, action: Action<M>)
    requires !s.enabled && !action.StartReading?
    ensures ReadingOff(Applied(p, s, action), s.pendingReads)
  {
  }

  lemma {:induction false} AppliedAllReadingOff<M(!new), R>(p: Protocol<M, R>, s: State<M, R>, actions: seq<Action<M>>)
    requires !s.enabled && forall a :: a in actions ==> !a.StartReading?
    ensures ReadingOff(AppliedAll(p, s, actions), s.pendingReads)
  {
    if actions != [] {
      AppliedAllReadingOff(p, s, Init(actions));
      AppliedReadingOff(p, AppliedAll(p, s, Init(actions)), Last(actions));
    }
  }

  lemma ScheduledReadingOff<M(!new), R>(p: Protocol<M, R>, s: State<M, R>)
    requires !s.enabled
    ensures ReadingOff(Scheduled(p, s), s.pendingReads)
  {
  }

  lemma ReadFinishedReadingOff<M(!new), R>(
      p: Protocol<M, R>, s: State<M, R>, result: ReadResult, reaction: seq<Action<M>>)
    requires !s.enabled && s.pendingReads != [] && forall a :: a in reaction ==> !a.StartReading?
    ensures ReadingOff(ReadFinished(p, s, result, reaction), s.pendingReads[1..])
  {
    var s1, callback := ReadReturned(s, result), CallbackFor(p, result);
    AppliedAllReadingOff(p, Recorded(s1, callback), reaction);
    ScheduledReadingOff(p, s1);
    ScheduledReadingOff(p, Notified(p, s1, callback, reaction));
  }

  lemma NextReadingOff<M(!new), R>(p: Protocol<M, R>, s: State<M, R>, e: Event<M>)
    requires !s.enabled && LeavesReadingOff(e) && Enabled(s, e)
    ensures ReadingOff(Next(p, s, e), if e.ReadDone? then s.pendingReads[1..] else s.pendingReads)
  {
    match e
    case Call(action) => AppliedReadingOff(p, s, action);
    case ReadDone(result, reaction) => ReadFinishedReadingOff(p, s, result, reaction);
    case WriteDone(ok) => ScheduledReadingOff(p, Consumed(s));
    case InstallHandler(_) =>
  }

  /** While reading is off no read is started: only the one in flight completes. */
  lemma {:induction false} NoReadWhileOff<M(!new), R>(p: Protocol<M, R>, s: State<M, R>, es: seq<Event<M>>)
    requires !s.enabled && ValidRun(p, s, es) && forall e :: e in es ==> LeavesReadingOff(e)
    ensures var t := Exec(p, s, es);
            !t.enabled && ReadsIn(es) + |t.pendingReads| == |s.pendingReads|
  {
    if es != [] {
      assert es == Init(es) + [Last(es)];
      NoReadWhileOff(p, s, Init(es));
      NextReadingOff(p, Exec(p, s, Init(es)), Last(es));
    }
  }

  /** After `stop_reading`, and until reading is started again, no read is started: only the one in flight completes. */
  lemma NoReadAfterStop<M(!new), R>(p: Protocol<M, R>, s: State<M, R>, es: seq<Event<M>>)
    requires ValidRun(p, Next(p, s, Call(StopReading)), es) && forall e :: e in es ==> LeavesReadingOff(e)
    ensures var t := Exec(p, Next(p, s, Call(StopReading)), es);
            !t.enabled && ReadsIn(es) + |t.pendingReads| == |s.pendingReads|
  {
    NoReadWhileOff(p, Next(p, s, Call(StopReading)), es);
  }

  // ---- Messages that cannot be encoded ----

  /** No failure other than a message that cannot be encoded, no explicit close, and no duplex mode but full. */
  ghost predicate Benign<M(!new), R>(p: Protocol<M, R>, e: Event<M>) {
    match e
    case Call(action) => !action.Close? && !action.SetDuplexMode?
    case ReadDone(result, reaction) =>
      CallbackFor(p, result).Data? && forall a :: a in reaction ==> !a.Close? && !a.SetDuplexMode?
    case WriteDone(ok) => ok
    case InstallHandler(_) => true
  }

  /** The position of the first message that cannot be encoded, or the length if there is none. */
  function FirstPoison<M, R>(p: Protocol<M, R>, messages: seq<M>): (q: nat)
    ensures q <= |messages|
    ensures forall i :: 0 <= i < q ==> p.encodes(messages[i])
    ensures q < |messages| ==> !p.encodes(messages[q])
  {
    if messages == [] then 0
    else
      var q := FirstPoison(p, Init(messages));
      if q < |messages| - 1 || !p.encodes(Last(messages)) then q else |messages|
  }

  ghost predicate PoisonInv<M(!new), R>(p: Protocol<M, R>, s: State<M, R>) {
    && Inv(p, s) && s.mode.FullDuplex?
    && (s.closed ==>
      s.pendingWrites == [] && |s.h.completed| < |s.h.accepted| && !p.encodes(s.h.accepted[|s.h.completed|]))
  }

  lemma ScheduledPoison<M(!new), R>(p: Protocol<M, R>, s: State<M, R>)
    requires PoisonInv(p, s)
    ensures PoisonInv(p, Scheduled(p, s))
  {
    ScheduledInv(p, s);
  }

  lemma AppliedPoison<M(!new), R>(p: Protocol<M, R>, s: State<M, R>, action: Action<M>)
    requires PoisonInv(p, s) && !action.Close? && !action.SetDuplexMode?
    ensures PoisonInv(p, Applied(p, s, action))
  {
    if s.closed {
      AppliedInv(p, s, action);
    } else {
      match action
      case Send(message) =>
        ScheduledPoison(p, s.(queue := s.queue + [message], h := s.h.(accepted := s.h.accepted + [message])));
      case StartReading => ScheduledPoison(p, s.(enabled := true));
      case _ => AppliedInv(p, s, action);
    }
  }

  lemma {:induction false} AppliedAllPoison<M(!new), R>(p: Protocol<M, R>, s: State<M, R>, actions: seq<Action<M>>)
    requires PoisonInv(p, s) && forall a :: a in actions ==> !a.Close? && !a.SetDuplexMode?
    ensures PoisonInv(p, AppliedAll(p, s, actions))
  {
    if actions != [] {
      AppliedAllPoison(p, s, Init(actions));
      AppliedPoison(p, AppliedAll(p, s, Init(actions)), Last(actions));
    }
  }

  lemma NextPoison<M(!new), R>(p: Protocol<M, R>, s: State<M, R>, e: Event<M>)
    requires PoisonInv(p, s) && Benign(p, e) && Enabled(s, e)
    ensures PoisonInv(p, Next(p, s, e))
  {
    match e
    case Call(action) => AppliedPoison(p, s, action);
    case ReadDone(result, reaction) =>
      AppliedAllPoison(p, Recorded(ReadReturned(s, result), CallbackFor(p, result)), reaction);
      ScheduledPoison(p, Notified(p, ReadReturned(s, result), CallbackFor(p, result), reaction));
    case WriteDone(ok) =>
      ConsumedInv(p, s);
      ScheduledPoison(p, Consumed(s));
    case InstallHandler(_) =>
  }

  lemma {:induction false} ExecPoison<M(!new), R>(p: Protocol<M, R>, s: State<M, R>, es: seq<Event<M>>)
    requires PoisonInv(p, s) && Quiescent(s) && ValidRun(p, s, es)
    requires forall e :: e in es ==> Benign(p, e)
    ensures PoisonInv(p, Exec(p, s, es))
  {
    if es != [] {
      assert es == Init(es) + [Last(es)];
      ExecPoison(p, s, Init(es));
      NextPoison(p, Exec(p, s, Init(es)), Last(es));
    }
  }

  lemma PoisonAtHead<M(!new), R>(p: Protocol<M, R>, t: State<M, R>)
    requires PoisonInv(p, t) && Quiescent(t)
    ensures var q := FirstPoison(p, t.h.accepted);
            && (t.closed <==> q < |t.h.accepted| && |t.h.completed| == q)
            && (t.closed ==> t.h.started == t.h.completed == t.h.accepted[..q])
            && t.h.started <= t.h.accepted[..q]
  {
  }

  /**
   Absent any other failure and explicit close, the session is closed exactly when the first message that cannot be
   encoded has become the head of the queue: all before it completed. It and the later ones never reach the wire.
   */
  lemma ClosesExactlyAtPoison<M(!new), R>(p: Protocol<M, R>, s: State<M, R>, es: seq<Event<M>>)
    requires Initial(s) && s.mode.FullDuplex? && ValidRun(p, s, es)
    requires forall e :: e in es ==> Benign(p, e)
    ensures var t := Exec(p, s, es);
            var q := FirstPoison(p, t.h.accepted);
            && (t.closed <==> q < |t.h.accepted| && |t.h.completed| == q)
            && (t.closed ==> t.h.started == t.h.completed == t.h.accepted[..q])
            && t.h.started <= t.h.accepted[..q]
  {
    OpenedInv(p, s);
    ExecInv(p, s, es);
    ExecPoison(p, s, es);
    PoisonAtHead(p, Exec(p, s, es));
  }
}
