/**
 The serial benchmark as a whole: the stop-and-wait client on top of a serial session, a device that echoes every byte
 in order, and reads that cut the echo up in any way. No transport error and no timeout.
 */
module EchoSystem {
  import opened Common
  import opened TransportSpec
  import opened TransportInvariants
  import opened TransportProperties
  import opened ClosingProperties
  import opened SerialTransport
  import opened SerialBenchmark

  type SerialState = State<Chunk, Chunk>

  /**
   `wire`: the bytes the device received so far, which are also the bytes it echoes; `sending`: how many bytes of the
   write in flight are among them; `taken`: how many bytes of the echo the session has read.
   */
  datatype System = System(session: SerialState, client: Client, wire: seq<byte>, sending: nat, taken: nat)

  datatype Step = Transmit(n: nat) | Written | Receive(n: nat)

  /** Nothing runs after completion: the client stops the `io_context`. */
  predicate StepEnabled(y: System, step: Step) {
    && !y.client.completed
    && match step
       case Transmit(n) => y.session.pendingWrites != [] && 0 < n && y.sending + n <= |y.session.pendingWrites[0]|
       case Written => y.session.pendingWrites != [] && y.sending == |y.session.pendingWrites[0]|
       case Receive(n) => y.session.pendingReads != [] && 0 < n <= y.session.pendingReads[0] && y.taken + n <= |y.wire|
  }

  function Echo(y: System, n: nat): seq<byte>
    requires y.taken + n <= |y.wire|
  {
    y.wire[y.taken..y.taken + n]
  }

  /** The read completion with these bytes; the handler makes the calls the client makes on them. */
  function ReadTask(o: Options, c: Client, data: seq<byte>): Event<Chunk>
    requires o.Valid() && c.outbox <= Fed(o, c, data).outbox
  {
    ReadDone(Bytes(data), Reaction(c, Fed(o, c, data)))
  }

  function StepNext(o: Options, y: System, step: Step): System
    requires o.Valid() && StepEnabled(y, step)
  {
    match step
    case Transmit(n) =>
      y.(wire := y.wire + y.session.pendingWrites[0][y.sending..y.sending + n], sending := y.sending + n)
    case Written => y.(session := Next(SerialProtocol(), y.session, WriteDone(true)), sending := 0)
    case Receive(n) =>
      OutboxGrows(o, y.client, Echo(y, n));
      y.(session := Next(SerialProtocol(), y.session, ReadTask(o, y.client, Echo(y, n))),
         client := Fed(o, y.client, Echo(y, n)), taken := y.taken + n)
  }

  lemma {:induction false} DrainedOutboxGrows(o: Options, c: Client)
    requires o.Valid()
    ensures c.outbox <= Drained(o, c).outbox
    decreases |c.pending|
  {
    if !c.completed && o.payloadSize <= |c.pending| {
      DrainedOutboxGrows(o, Extracted(o, c));
    }
  }

  lemma OutboxGrows(o: Options, c: Client, data: seq<byte>)
    requires o.Valid()
    ensures c.outbox <= Fed(o, c, data).outbox
  {
    DrainedOutboxGrows(o, c.(pending := c.pending + data));
  }

  /** `main` up to `io_context.run()`: install the handler, start reading, send the first payload. */
  function Launched(o: Options): System
    requires o.Valid()
  {
    var p := SerialProtocol();
    var c := SentNext(o, Started());
    var s0 := Opened(FullDuplex, o.payloadSize).(handler := true);
    System(Sending(p, ReadingOn(p, s0), c.outbox[0]), c, [], 0, 0)
  }

  ghost predicate SystemRun(o: Options, steps: seq<Step>)
    requires o.Valid()
    decreases |steps|, 0
  {
    steps == [] || (SystemRun(o, Init(steps)) && StepEnabled(SystemAfter(o, Init(steps)), Last(steps)))
  }

  ghost function SystemAfter(o: Options, steps: seq<Step>): System
    requires o.Valid() && SystemRun(o, steps)
    decreases |steps|, 1
  {
    if steps == [] then Launched(o) else StepNext(o, SystemAfter(o, Init(steps)), Last(steps))
  }

  // ---- The invariant ----

  function OnWire(s: SerialState, sending: nat): seq<byte>
    requires s.pendingWrites != [] ==> sending <= |s.pendingWrites[0]|
  {
    Flatten(s.h.completed) + if s.pendingWrites == [] then [] else s.pendingWrites[0][..sending]
  }

  /** The session is open, idle only if there is nothing to do, and has accepted what the client sent. */
  ghost predicate SessionOk(o: Options, s: SerialState, outbox: seq<Chunk>)
  {
    && Inv(SerialProtocol(), s) && Quiescent(s)
    && s.handler && s.enabled && !s.closed && s.mode.FullDuplex?
    && s.h.accepted == outbox
  }

  /** Stop-and-wait: exactly one payload is under way, and what is pending is a proper prefix of it. */
  ghost predicate ClientOk(o: Options, c: Client)
    requires o.Valid()
  {
    && !c.failed && !c.completed && c.received < o.samples
    && c.sent == c.received + 1 && c.measurements == c.received && c.expected == o.number(c.received)
    && c.outbox == Payloads(o, c.sent)
    && |c.pending| < o.payloadSize
  }

  ghost predicate WireOk(o: Options, y: System)
    requires o.Valid()
  {
    && (y.session.pendingWrites != [] ==> y.sending <= |y.session.pendingWrites[0]|)
    && (y.session.pendingWrites == [] ==> y.sending == 0)
    && y.wire == OnWire(y.session, y.sending)
    && y.taken <= |y.wire|
    && y.wire[..y.taken] == Flatten(Payloads(o, y.client.received)) + y.client.pending
  }

  ghost predicate RunningOk(o: Options, y: System)
    requires o.Valid()
  {
    SessionOk(o, y.session, y.client.outbox) && ClientOk(o, y.client) && WireOk(o, y)
  }

  predicate Succeeded(o: Options, c: Client) {
    c.completed && !c.failed && c.received == o.samples && c.measurements == o.samples && c.sent == o.samples
  }

  /** The bytes and payloads still to be moved. */
  ghost predicate WithinBounds(o: Options, y: System) {
    y.taken <= |y.wire| <= o.samples * o.payloadSize && |y.session.h.completed| <= o.samples
  }

  ghost predicate SystemOk(o: Options, y: System)
    requires o.Valid()
  {
    && WithinBounds(o, y)
    && (if y.client.completed then Succeeded(o, y.client) && y.session.closed else RunningOk(o, y))
  }

  // ---- Payload arithmetic ----

  lemma LengthsAddUp(n: nat, size: nat)
    requires 0 < n
    ensures (n - 1) * size + size == n * size
  {
  }

  lemma {:induction false} PayloadsLength(o: Options, n: nat)
    requires o.Valid()
    ensures |Flatten(Payloads(o, n))| == n * o.payloadSize
  {
    if n > 0 {
      PayloadsLength(o, n - 1);
      PayloadsNext(o, n - 1);
      LengthsAddUp(n, o.payloadSize);
    }
  }

  lemma PayloadsNext(o: Options, n: nat)
    requires o.Valid()
    ensures Flatten(Payloads(o, n + 1)) == Flatten(Payloads(o, n)) + Payload(o, n)
  {
    FlattenSnoc(Payloads(o, n), Payload(o, n));
  }

  lemma {:induction false} FlattenPrefix<T>(a: seq<seq<T>>, b: seq<seq<T>>)
    requires a <= b
    ensures Flatten(a) <= Flatten(b)
  {
    FlattenConcat(a, b[|a|..]);
    assert b == a + b[|a|..];
  }

  lemma OnWireIsPrefix(s: SerialState, sending: nat)
    requires |s.pendingWrites| <= 1 && s.h.completed + s.pendingWrites <= s.h.accepted
    requires s.pendingWrites != [] ==> sending <= |s.pendingWrites[0]|
    ensures OnWire(s, sending) <= Flatten(s.h.accepted)
  {
    FlattenPrefix(s.h.completed + s.pendingWrites, s.h.accepted);
    if s.pendingWrites != [] {
      assert s.pendingWrites == [s.pendingWrites[0]];
      FlattenSnoc(s.h.completed, s.pendingWrites[0]);
    } else {
      assert s.h.completed + s.pendingWrites == s.h.completed;
    }
  }

  /** What has reached the device is a prefix of everything sent. */
  lemma WirePrefix(o: Options, y: System)
    requires o.Valid() && RunningOk(o, y)
    ensures y.wire <= Flatten(y.client.outbox)
  {
    OnWireIsPrefix(y.session, y.sending);
  }

  lemma WireLength(o: Options, y: System)
    requires o.Valid() && RunningOk(o, y)
    ensures |y.wire| <= o.samples * o.payloadSize
  {
    WirePrefix(o, y);
    PayloadsLength(o, y.client.sent);
    MulMonotone(y.client.sent, o.samples, o.payloadSize);
  }

  lemma MulMonotone(a: nat, b: nat, n: nat)
    requires a <= b
    ensures a * n <= b * n
  {
  }

  // ---- The steps ----

  lemma TransmitKeeps(o: Options, y: System, n: nat)
    requires o.Valid() && RunningOk(o, y) && StepEnabled(y, Transmit(n))
    ensures RunningOk(o, StepNext(o, y, Transmit(n)))
  {
    var z := StepNext(o, y, Transmit(n));
    var m := y.session.pendingWrites[0];
    assert m[..y.sending + n] == m[..y.sending] + m[y.sending..y.sending + n];
    assert z.wire == OnWire(z.session, z.sending);
    assert z.wire[..z.taken] == y.wire[..y.taken];
  }

  /** On a serial session scheduling never closes. */
  lemma ScheduledStaysOpen(s: SerialState)
    requires !s.closed
    ensures var t := Scheduled(SerialProtocol(), s);
            && !t.closed && t.enabled == s.enabled && t.handler == s.handler && t.mode == s.mode
            && t.h.accepted == s.h.accepted && t.h.completed == s.h.completed && s.pendingWrites <= t.pendingWrites
  {
  }

  lemma SessionWrites(o: Options, s: SerialState, outbox: seq<Chunk>)
    requires SessionOk(o, s, outbox) && s.pendingWrites != []
    ensures var t := Next(SerialProtocol(), s, WriteDone(true));
            SessionOk(o, t, outbox) && t.h.completed == s.h.completed + s.pendingWrites
  {
    NextInv(SerialProtocol(), s, WriteDone(true));
    ScheduledStaysOpen(Consumed(s));
    assert s.pendingWrites == [s.pendingWrites[0]];
  }

  lemma WrittenWire(s: SerialState, t: SerialState)
    requires |s.pendingWrites| == 1 && t.h.completed == s.h.completed + s.pendingWrites
    ensures OnWire(t, 0) == OnWire(s, |s.pendingWrites[0]|)
  {
    var m := s.pendingWrites[0];
    assert s.pendingWrites == [m] && m[..|m|] == m;
    FlattenSnoc(s.h.completed, m);
    assert t.pendingWrites != [] ==> t.pendingWrites[0][..0] == [];
    assert Flatten(t.h.completed) + [] == Flatten(t.h.completed);
  }

  lemma WrittenKeeps(o: Options, y: System)
    requires o.Valid() && RunningOk(o, y) && StepEnabled(y, Written)
    ensures RunningOk(o, StepNext(o, y, Written))
    ensures |StepNext(o, y, Written).session.h.completed| == |y.session.h.completed| + 1
  {
    SessionWrites(o, y.session, y.client.outbox);
    WrittenWire(y.session, Next(SerialProtocol(), y.session, WriteDone(true)));
  }

  /** What the next bytes of the right echo do to the client. */
  function Expecting(o: Options, c: Client, data: seq<byte>): Client
    requires o.Valid()
  {
    if |c.pending + data| < o.payloadSize then c.(pending := c.pending + data)
    else
      var d := c.(pending := [], extracted := c.extracted + [Payload(o, c.received)],
                  measurements := c.measurements + 1, received := c.received + 1);
      if d.received == o.samples then d.(completed := true)
      else d.(expected := o.number(c.sent), outbox := c.outbox + [Payload(o, c.sent)], sent := c.sent + 1)
  }

  lemma ClientReceives(o: Options, c: Client, data: seq<byte>)
    requires o.Valid() && ClientOk(o, c) && c.pending + data <= Payload(o, c.received)
    ensures Fed(o, c, data) == Expecting(o, c, data)
  {
    var c1 := c.(pending := c.pending + data);
    if o.payloadSize <= |c1.pending| {
      assert c1.pending == Payload(o, c.received) == c1.pending[..o.payloadSize];
      assert c1.pending[o.payloadSize..] == [];
      assert Drained(o, Extracted(o, c1)) == Extracted(o, c1);
    }
  }

  lemma ExpectingOk(o: Options, c: Client, data: seq<byte>)
    requires o.Valid() && ClientOk(o, c) && |c.pending + data| <= o.payloadSize
    ensures var d := Expecting(o, c, data); if d.completed then Succeeded(o, d) else ClientOk(o, d)
  {
  }

  lemma ExpectingPosition(o: Options, c: Client, data: seq<byte>)
    requires o.Valid()
    ensures var d := Expecting(o, c, data);
            if |c.pending + data| < o.payloadSize then d.received == c.received && d.pending == c.pending + data
            else d.received == c.received + 1 && d.pending == []
  {
  }

  lemma NextPayload(o: Options, n: nat, payload: seq<byte>)
    requires o.Valid() && payload == Payload(o, n)
    ensures Flatten(Payloads(o, n + 1)) + [] == Flatten(Payloads(o, n)) + payload
  {
    PayloadsNext(o, n);
  }

  lemma ExpectingStream(o: Options, c: Client, data: seq<byte>)
    requires o.Valid() && c.pending + data <= Payload(o, c.received)
    ensures var d := Expecting(o, c, data);
            Flatten(Payloads(o, d.received)) + d.pending == Flatten(Payloads(o, c.received)) + (c.pending + data)
  {
    ExpectingPosition(o, c, data);
    if o.payloadSize <= |c.pending + data| {
      NextPayload(o, c.received, c.pending + data);
    }
  }

  /** `t` is `s` after some scheduling, still open, having accepted `sent`. */
  ghost predicate StillOpen(s: SerialState, t: SerialState, sent: seq<Chunk>) {
    && !t.closed && t.enabled == s.enabled && t.handler == s.handler && t.mode == s.mode
    && t.h.accepted == s.h.accepted + sent && t.h.completed == s.h.completed && s.pendingWrites <= t.pendingWrites
  }

  lemma SendStaysOpen(s: SerialState, m: Chunk)
    requires !s.closed
    ensures StillOpen(s, Applied(SerialProtocol(), s, Action.Send(m)), [m])
  {
    ScheduledStaysOpen(s.(queue := s.queue + [m], h := s.h.(accepted := s.h.accepted + [m])));
  }

  lemma {:induction false} SendAllStaysOpen(s: SerialState, sent: seq<Chunk>)
    requires !s.closed
    ensures StillOpen(s, AppliedAll(SerialProtocol(), s, SendAll(sent)), sent)
  {
    if sent != [] {
      SendAllStaysOpen(s, Init(sent));
      var t := AppliedAll(SerialProtocol(), s, SendAll(Init(sent)));
      SendStaysOpen(t, Last(sent));
      assert Init(SendAll(sent)) == SendAll(Init(sent));
    }
  }

  /** The session's side of a read: it stays open and accepts what the client sends. */
  lemma SessionReads(s: SerialState, data: seq<byte>, sent: seq<Chunk>)
    requires s.handler && !s.closed && !s.pause && s.pendingReads != []
    ensures StillOpen(s, ReadFinished(SerialProtocol(), s, Bytes(data), SendAll(sent)), sent)
  {
    var s1 := Recorded(ReadReturned(s, Bytes(data)), Data(data));
    SendAllStaysOpen(s1, sent);
    ScheduledStaysOpen(AppliedAll(SerialProtocol(), s1, SendAll(sent)));
  }

  /** The bytes read next continue the payload under way. */
  lemma EchoContinues(o: Options, c: Client, wire: seq<byte>, taken: nat, n: nat, data: seq<byte>)
    requires o.Valid() && ClientOk(o, c) && taken + n <= |wire| && data == wire[taken..taken + n]
    requires wire <= Flatten(c.outbox) && wire[..taken] == Flatten(Payloads(o, c.received)) + c.pending
    ensures c.pending + data <= Payload(o, c.received)
  {
    PayloadsNext(o, c.received);
    ReceivedStream(wire, taken, n, data, Flatten(Payloads(o, c.received)), c.pending);
    CutPrefix(Flatten(Payloads(o, c.received)), c.pending + data, Payload(o, c.received), wire[..taken + n]);
  }

  lemma ReceivedPrefix(o: Options, y: System, n: nat)
    requires o.Valid() && ClientOk(o, y.client) && WireOk(o, y) && y.taken + n <= |y.wire|
    requires y.wire <= Flatten(y.client.outbox)
    ensures y.client.pending + Echo(y, n) <= Payload(o, y.client.received)
  {
    EchoContinues(o, y.client, y.wire, y.taken, n, Echo(y, n));
  }

  lemma ReceivedStream<T>(wire: seq<T>, taken: nat, n: nat, data: seq<T>, before: seq<T>, pending: seq<T>)
    requires taken + n <= |wire| && data == wire[taken..taken + n] && wire[..taken] == before + pending
    ensures wire[..taken + n] == before + (pending + data)
  {
    assert wire[..taken + n] == wire[..taken] + data;
  }

  lemma CutPrefix<T>(a: seq<T>, b: seq<T>, c: seq<T>, w: seq<T>)
    requires w == a + b && w <= a + c
    ensures b <= c
  {
    assert b == w[|a|..];
  }

  /** While the client runs on, all it does is to send. */
  lemma RunningReaction(c: Client, d: Client)
    requires c.outbox <= d.outbox && !d.completed
    ensures Reaction(c, d) == SendAll(d.outbox[|c.outbox|..])
  {
  }

  lemma ReceiveExpecting(o: Options, y: System, n: nat)
    requires o.Valid() && WireOk(o, y) && y.taken + n <= |y.wire|
    requires y.client.pending + Echo(y, n) <= Payload(o, y.client.received)
    ensures var d := Expecting(o, y.client, Echo(y, n));
            y.wire[..y.taken + n] == Flatten(Payloads(o, d.received)) + d.pending
  {
    ReceivedStream(y.wire, y.taken, n, Echo(y, n), Flatten(Payloads(o, y.client.received)), y.client.pending);
    ExpectingStream(o, y.client, Echo(y, n));
  }

  lemma ReceiveClient(o: Options, y: System, n: nat)
    requires o.Valid() && RunningOk(o, y) && StepEnabled(y, Receive(n))
    ensures var d := Fed(o, y.client, Echo(y, n));
            && (if d.completed then Succeeded(o, d) else ClientOk(o, d))
            && y.client.outbox <= d.outbox
            && y.wire[..y.taken + n] == Flatten(Payloads(o, d.received)) + d.pending
  {
    WirePrefix(o, y);
    ReceivedPrefix(o, y, n);
    ClientReceives(o, y.client, Echo(y, n));
    ExpectingOk(o, y.client, Echo(y, n));
    ReceiveExpecting(o, y, n);
    OutboxGrows(o, y.client, Echo(y, n));
  }

  lemma SessionStaysOk(o: Options, s: SerialState, t: SerialState, before: seq<Chunk>, after: seq<Chunk>)
    requires SessionOk(o, s, before) && before <= after && StillOpen(s, t, after[|before|..])
    requires Inv(SerialProtocol(), t) && Quiescent(t)
    ensures SessionOk(o, t, after)
  {
    assert after == before + after[|before|..];
  }

  lemma WireStaysOk(o: Options, y: System, n: nat, d: Client, t: SerialState)
    requires o.Valid() && WireOk(o, y) && y.taken + n <= |y.wire|
    requires t.h.completed == y.session.h.completed && y.session.pendingWrites <= t.pendingWrites
    requires y.wire[..y.taken + n] == Flatten(Payloads(o, d.received)) + d.pending
    ensures WireOk(o, y.(session := t, client := d, taken := y.taken + n))
  {
    OnWireUnchanged(y.session, t, y.sending);
  }

  lemma OnWireUnchanged(s: SerialState, t: SerialState, sending: nat)
    requires s.h.completed == t.h.completed && s.pendingWrites <= t.pendingWrites
    requires if s.pendingWrites == [] then sending == 0 else sending <= |s.pendingWrites[0]|
    ensures OnWire(t, sending) == OnWire(s, sending)
  {
    if s.pendingWrites == [] && t.pendingWrites != [] {
      assert t.pendingWrites[0][..0] == [];
    }
  }

  lemma {:induction false} SendsOfAll(sent: seq<Chunk>)
    ensures SendsIn(SendAll(sent)) == sent
  {
    if sent != [] {
      SendsOfAll(Init(sent));
      assert Init(SendAll(sent)) == SendAll(Init(sent));
    }
  }

  lemma SendsOfReaction(c: Client, d: Client)
    requires c.outbox <= d.outbox
    ensures SendsIn(Reaction(c, d)) == d.outbox[|c.outbox|..]
  {
    var sent := d.outbox[|c.outbox|..];
    SendsOfAll(sent);
    if d.completed {
      assert Init(Reaction(c, d)) == SendAll(sent);
    } else {
      assert Reaction(c, d) == SendAll(sent);
    }
  }

  lemma {:induction false} NoCloseInSends(sent: seq<Chunk>)
    ensures forall i :: 0 <= i < |SendAll(sent)| ==> SendAll(sent)[i].Send?
  {
    if sent != [] {
      NoCloseInSends(Init(sent));
    }
  }

  lemma HandledOutboxGrows(o: Options, c: Client, callback: Callback<Chunk>)
    requires o.Valid()
    ensures c.outbox <= Handled(o, c, callback).outbox
  {
    if callback.Data? {
      OutboxGrows(o, c, callback.value);
    }
  }

  /**
   What any callback makes of the client and of its open session: the session is closed exactly if the client is done,
   for whatever reason, and while it stays open it accepts exactly the payloads the client sent.
   */
  lemma ClientDrivesSession(o: Options, c: Client, s: SerialState, result: ReadResult)
    requires o.Valid() && !c.completed && Inv(SerialProtocol(), s) && s.handler && !s.closed
    requires Enabled(s, ReadDone(result, []))
    ensures var d := Handled(o, c, CallbackFor(SerialProtocol(), result));
            c.outbox <= d.outbox &&
            var t := Next(SerialProtocol(), s, ReadDone(result, Reaction(c, d)));
            && (t.closed <==> d.completed)
            && (!t.closed ==> t.h.accepted == s.h.accepted + d.outbox[|c.outbox|..])
  {
    var d := Handled(o, c, CallbackFor(SerialProtocol(), result));
    HandledOutboxGrows(o, c, CallbackFor(SerialProtocol(), result));
    var calls := Reaction(c, d);
    NoCloseInSends(d.outbox[|c.outbox|..]);
    SendsOfReaction(c, d);
    if d.completed {
      assert calls[|calls| - 1].Close?;
    } else {
      assert calls == SendAll(d.outbox[|c.outbox|..]);
    }
    NextCloses(SerialProtocol(), s, ReadDone(result, calls));
    NextSends(SerialProtocol(), s, ReadDone(result, calls));
  }

  /** A client that is done has closed its session. */
  lemma DoneCloses(o: Options, y: System, n: nat)
    requires o.Valid() && RunningOk(o, y) && StepEnabled(y, Receive(n))
    requires StepNext(o, y, Receive(n)).client.completed
    ensures StepNext(o, y, Receive(n)).session.closed
  {
    OutboxGrows(o, y.client, Echo(y, n));
    var calls := Reaction(y.client, Fed(o, y.client, Echo(y, n)));
    assert calls[|calls| - 1] == Action.Close;
    NextCloses(SerialProtocol(), y.session, ReadTask(o, y.client, Echo(y, n)));
  }

  lemma ReceiveKeeps(o: Options, y: System, n: nat)
    requires o.Valid() && RunningOk(o, y) && StepEnabled(y, Receive(n))
    ensures var z := StepNext(o, y, Receive(n));
            if z.client.completed then Succeeded(o, z.client) && z.session.closed else RunningOk(o, z)
  {
    ReceiveClient(o, y, n);
    var data := Echo(y, n);
    var d := Fed(o, y.client, data);
    if d.completed {
      DoneCloses(o, y, n);
    } else {
      var sent := d.outbox[|y.client.outbox|..];
      RunningReaction(y.client, d);
      NextInv(SerialProtocol(), y.session, ReadTask(o, y.client, data));
      SessionReads(y.session, data, sent);
      var t := Next(SerialProtocol(), y.session, ReadTask(o, y.client, data));
      SessionStaysOk(o, y.session, t, y.client.outbox, d.outbox);
      WireStaysOk(o, y, n, d, t);
    }
  }

  lemma LaunchedOk(o: Options)
    requires o.Valid()
    ensures SystemOk(o, Launched(o))
  {
  }

  // ---- Whole runs ----

  /** The work left: bytes to transmit, bytes to read back, writes to finish. */
  ghost function Work(o: Options, y: System): int {
    2 * (o.samples * o.payloadSize) - |y.wire| - y.taken + o.samples - |y.session.h.completed|
  }

  lemma BoundsOfRunning(o: Options, y: System)
    requires o.Valid() && RunningOk(o, y)
    ensures WithinBounds(o, y)
  {
    WireLength(o, y);
    PayloadCount(o, y.client.sent);
  }

  lemma PayloadCount(o: Options, n: nat)
    requires o.Valid()
    ensures |Payloads(o, n)| == n
  {
  }

  lemma CompletedUnchanged(o: Options, y: System, n: nat)
    requires o.Valid() && RunningOk(o, y) && StepEnabled(y, Receive(n))
    ensures StepNext(o, y, Receive(n)).session.h.completed == y.session.h.completed
  {
    OutboxGrows(o, y.client, Echo(y, n));
    NextReads(SerialProtocol(), y.session, ReadTask(o, y.client, Echo(y, n)));
  }

  /** Every step keeps the invariant and does some of the work. */
  lemma StepKeeps(o: Options, y: System, step: Step)
    requires o.Valid() && SystemOk(o, y) && StepEnabled(y, step)
    ensures SystemOk(o, StepNext(o, y, step)) && 0 <= Work(o, StepNext(o, y, step)) < Work(o, y)
  {
    var z := StepNext(o, y, step);
    match step
    case Transmit(n) =>
      TransmitKeeps(o, y, n);
      BoundsOfRunning(o, z);
    case Written =>
      WrittenKeeps(o, y);
      BoundsOfRunning(o, z);
    case Receive(n) =>
      ReceiveKeeps(o, y, n);
      CompletedUnchanged(o, y, n);
  }

  lemma {:induction false} RunKeeps(o: Options, steps: seq<Step>)
    requires o.Valid() && SystemRun(o, steps)
    ensures SystemOk(o, SystemAfter(o, steps))
    ensures 0 <= Work(o, SystemAfter(o, steps)) && |steps| + Work(o, SystemAfter(o, steps)) <= Work(o, Launched(o))
  {
    if steps == [] {
      LaunchedOk(o);
    } else {
      RunKeeps(o, Init(steps));
      StepKeeps(o, SystemAfter(o, Init(steps)), Last(steps));
    }
  }

  /** As long as the client is not done, some byte or completion is still to come. */
  lemma Progress(o: Options, y: System) returns (step: Step)
    requires o.Valid() && RunningOk(o, y)
    ensures StepEnabled(y, step)
  {
    var s := y.session;
    if y.taken == |y.wire| {
      NothingMissing(o, y);
    }
    if y.taken < |y.wire| {
      step := Receive(1);
    } else if y.sending < |s.pendingWrites[0]| {
      step := Transmit(1);
    } else {
      step := Written;
    }
  }

  /** A session with no write outstanding has completed everything. */
  lemma IdleSession(o: Options, s: SerialState, outbox: seq<Chunk>)
    requires SessionOk(o, s, outbox) && s.pendingWrites == []
    ensures s.h.completed == outbox
  {
    assert s.queue == [];
  }

  lemma AllWritten(o: Options, y: System)
    requires SessionOk(o, y.session, y.client.outbox) && y.session.pendingWrites == []
    ensures OnWire(y.session, y.sending) == Flatten(y.client.outbox)
  {
    IdleSession(o, y.session, y.client.outbox);
  }

  /** While nothing is left to read back, the payload under way has not been written in full. */
  lemma NothingMissing(o: Options, y: System)
    requires o.Valid() && RunningOk(o, y) && y.taken == |y.wire|
    ensures y.session.pendingWrites != []
  {
    PayloadsNext(o, y.client.received);
    assert y.wire[..y.taken] == y.wire;
    assert |y.wire| < |Flatten(y.client.outbox)|;
    if y.session.pendingWrites == [] {
      AllWritten(o, y);
    }
  }

  /**
   Safety at every moment: no mismatch is ever reported, and until done there is exactly one payload more sent than
   received, its number the one expected; and the session is closed exactly when the client is done.
   */
  lemma NeverFails(o: Options, steps: seq<Step>)
    requires o.Valid() && SystemRun(o, steps)
    ensures var c := SystemAfter(o, steps).client;
            && !c.failed && (c.completed <==> SystemAfter(o, steps).session.closed)
            && (!c.completed ==> c.sent == c.received + 1 && c.expected == o.number(c.sent - 1))
            && (c.completed ==> c.measurements == c.received == c.sent == o.samples)
  {
    RunKeeps(o, steps);
  }

  /** No run is longer than two steps a byte and one a payload, and a run that cannot go on has measured all samples. */
  lemma RunsEndWithAllSamples(o: Options, steps: seq<Step>)
    requires o.Valid() && SystemRun(o, steps)
    ensures |steps| <= 2 * (o.samples * o.payloadSize) + o.samples
    ensures (forall step :: !StepEnabled(SystemAfter(o, steps), step)) ==> Succeeded(o, SystemAfter(o, steps).client)
  {
    RunKeeps(o, steps);
    var y := SystemAfter(o, steps);
    if !y.client.completed {
      var step := Progress(o, y);
    }
  }
}
