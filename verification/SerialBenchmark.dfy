/** The stop-and-wait client of the serial benchmark: it sends numbered payloads and reassembles their echoes. */
module SerialBenchmark {
  import opened Common
  import opened TransportSpec
  import opened TransportProperties
  import opened SerialTransport

  /**
   `number` converts a count to the `std::uint32_t` that is sent, and `pattern` gives the byte at each position behind
   it; the program's are `ToWord` and `LowByte`. Nothing below depends on them: stop-and-wait never has two numbers
   under way, so it survives the wrap-around.
   */
  datatype Options = Options(payloadSize: nat, samples: nat, number: nat -> Word, pattern: nat -> byte) {
    /** What `parse_options` accepts: room for the sequence number, and something to do. */
    predicate Valid() {
      4 <= payloadSize && 0 < samples
    }
  }

  /** `static_cast<std::uint32_t>`. */
  function ToWord(n: nat): Word {
    var m := n % 0x1_0000_0000;
    Word((m % 256) as byte, (m / 256 % 256) as byte, (m / 256 / 256 % 256) as byte, (m / 256 / 256 / 256) as byte)
  }

  /** The number a word stands for. */
  function NumberOf(word: Word): int {
    word.b0 as int + 256 * word.b1 as int + 65536 * word.b2 as int + 16777216 * word.b3 as int
  }

  lemma WordDigits(n: nat)
    ensures var m, word := n % 0x1_0000_0000, ToWord(n);
            && word.b0 as int == m % 256 && word.b1 as int == m / 256 % 256
            && word.b2 as int == m / 256 / 256 % 256 && word.b3 as int == m / 256 / 256 / 256
  {
    var m := n % 0x1_0000_0000;
    ByteOf(m % 256);
    ByteOf(m / 256 % 256);
    ByteOf(m / 256 / 256 % 256);
    ByteOf(m / 256 / 256 / 256);
  }

  lemma DigitsAddUp(m: nat)
    ensures m == m % 256 + 256 * (m / 256 % 256) + 65536 * (m / 256 / 256 % 256) + 16777216 * (m / 256 / 256 / 256)
  {
  }

  /** The conversion wraps around at 2^32. */
  lemma ToWordWraps(n: nat)
    ensures NumberOf(ToWord(n)) == n % 0x1_0000_0000
  {
    WordDigits(n);
    DigitsAddUp(n % 0x1_0000_0000);
  }

  /** `static_cast<char>(i & 0xffU)`. */
  function LowByte(i: nat): byte {
    (i % 256) as byte
  }

  function ProgramOptions(payloadSize: nat, samples: nat): Options {
    Options(payloadSize, samples, ToWord, LowByte)
  }

  /** The program numbers its payloads modulo 2^32, and fills them with the low bytes of the positions. */
  lemma ProgramPayloads(o: Options, n: nat)
    requires o == ProgramOptions(o.payloadSize, o.samples)
    ensures NumberOf(o.number(n)) == n % 0x1_0000_0000
    ensures o.pattern(n) as int == n % 256
  {
    ToWordWraps(n);
    ByteOf(n % 256);
  }

  /** The sequence number followed by a fixed pattern. */
  function MakePayload(o: Options, sequence: Word): (payload: Chunk)
    requires o.Valid()
    ensures |payload| == o.payloadSize && WordAt(payload) == sequence
    ensures forall i :: 4 <= i < o.payloadSize ==> payload[i] == o.pattern(i)
  {
    sequence.Bytes() + seq(o.payloadSize - 4, i requires 0 <= i < o.payloadSize - 4 => o.pattern(i + 4))
  }

  /** The payload sent as number `n`. */
  function Payload(o: Options, n: nat): Chunk
    requires o.Valid()
  {
    MakePayload(o, o.number(n))
  }

  /** The variables of `main`. `outbox` and `extracted` record the payloads sent and cut out of the echo. */
  datatype Client = Client(
    pending: seq<byte>, failed: bool, completed: bool, sent: nat, received: nat, expected: Word, measurements: nat,
    outbox: seq<Chunk>, extracted: seq<Chunk>)

  function Started(): Client {
    Client([], false, false, 0, 0, Word(0, 0, 0, 0), 0, [], [])
  }

  function SentNext(o: Options, c: Client): Client
    requires o.Valid()
  {
    if o.samples <= c.sent then c
    else
      c.(expected := o.number(c.sent), outbox := c.outbox + [Payload(o, c.sent)], sent := c.sent + 1)
  }

  /** Nothing is sent beyond the samples asked for. */
  lemma NeverOversends(o: Options, c: Client)
    requires o.Valid()
    ensures SentNext(o, c).sent <= if c.sent < o.samples then o.samples else c.sent
    ensures o.samples <= c.sent ==> SentNext(o, c).outbox == c.outbox
  {
  }

  /** One turn of the reassembly loop. */
  function Extracted(o: Options, c: Client): Client
    requires o.Valid() && o.payloadSize <= |c.pending|
  {
    var c1 := c.(pending := c.pending[o.payloadSize..], extracted := c.extracted + [c.pending[..o.payloadSize]]);
    if WordAt(c.pending) != c.expected then c1.(failed := true, completed := true)
    else
      var c2 := c1.(measurements := c.measurements + 1, received := c.received + 1);
      if o.samples <= c2.received then c2.(completed := true) else SentNext(o, c2)
  }

  function Drained(o: Options, c: Client): Client
    requires o.Valid()
    decreases |c.pending|
  {
    if c.completed || |c.pending| < o.payloadSize then c else Drained(o, Extracted(o, c))
  }

  lemma DrainedTurn(o: Options, c: Client)
    requires o.Valid() && !c.completed && o.payloadSize <= |c.pending|
    ensures Drained(o, c) == Drained(o, Extracted(o, c))
  {
  }

  function Fed(o: Options, c: Client, data: seq<byte>): Client
    requires o.Valid()
  {
    Drained(o, c.(pending := c.pending + data))
  }

  /** Chunks read one after the other; once completed the `io_context` is stopped and no more are read. */
  function FedAll(o: Options, c: Client, chunks: seq<Chunk>): Client
    requires o.Valid()
  {
    if chunks == [] then c
    else
      var d := FedAll(o, c, Init(chunks));
      if d.completed then d else Fed(o, d, Last(chunks))
  }

  function Handled(o: Options, c: Client, callback: Callback<Chunk>): Client
    requires o.Valid()
  {
    match callback
    case Failed(_) => c.(failed := true, completed := true)
    case Data(data) => Fed(o, c, data)
  }

  /** Callbacks one after the other, up to completion. */
  function HandledAll(o: Options, c: Client, callbacks: seq<Callback<Chunk>>): Client
    requires o.Valid()
  {
    if callbacks == [] then c
    else
      var d := HandledAll(o, c, Init(callbacks));
      if d.completed then d else Handled(o, d, Last(callbacks))
  }

  function SendAll(messages: seq<Chunk>): seq<Action<Chunk>> {
    if messages == [] then [] else SendAll(Init(messages)) + [Send(Last(messages))]
  }

  function CloseIf(completed: bool): seq<Action<Chunk>> {
    if completed then [Close] else []
  }

  /** The calls on the session by which the client got from `c` to `d`: the new payloads, then the close. */
  function Reaction(c: Client, d: Client): seq<Action<Chunk>>
    requires c.outbox <= d.outbox
  {
    SendAll(d.outbox[|c.outbox|..]) + CloseIf(d.completed)
  }

  class Benchmark {
    const options: Options
    var pendingResponse: seq<byte>
    var failed: bool
    var completed: bool
    var sentCount: nat
    var receivedCount: nat
    var expectedSequence: Word
    var measurements: nat

    ghost var outbox: seq<Chunk>
    ghost var extracted: seq<Chunk>

    ghost function Snapshot(): Client
      reads this
    {
      Client(pendingResponse, failed, completed, sentCount, receivedCount, expectedSequence, measurements,
             outbox, extracted)
    }

    constructor (options: Options)
      ensures this.options == options && Snapshot() == Started()
    {
      this.options := options;
      pendingResponse, failed, completed, sentCount, receivedCount := [], false, false, 0, 0;
      expectedSequence, measurements, outbox, extracted := Word(0, 0, 0, 0), 0, [], [];
    }

    /** `make_payload`: a zeroed buffer, the sequence number at its front, and a loop over the rest. */
    method FillPayload(sequence: Word) returns (payload: Chunk)
      requires options.Valid()
      ensures payload == MakePayload(options, sequence)
    {
      var buffer := new byte[options.payloadSize](_ => 0);
      buffer[0], buffer[1], buffer[2], buffer[3] := sequence.b0, sequence.b1, sequence.b2, sequence.b3;
      var i := 4;
      while i < buffer.Length
        invariant 4 <= i <= buffer.Length
        invariant WordAt(buffer[..4]) == sequence
        invariant forall k :: 4 <= k < i ==> buffer[k] == options.pattern(k)
      {
        buffer[i] := options.pattern(i);
        i := i + 1;
      }
      payload := buffer[..];
      assert payload[..4] == buffer[..4];
    }

    method SendNext() returns (calls: seq<Action<Chunk>>, ghost sent: seq<Chunk>)
      requires options.Valid()
      modifies this
      ensures Snapshot() == SentNext(options, old(Snapshot()))
      ensures outbox == old(outbox) + sent && calls == SendAll(sent)
    {
      if options.samples <= sentCount {
        return [], [];
      }
      expectedSequence := options.number(sentCount);
      var payload := FillPayload(expectedSequence);
      calls, sent := [Send(payload)], [payload];
      assert Common.Init(sent) == [];
      outbox := outbox + sent;
      sentCount := sentCount + 1;
    }

    /** One turn of the loop over complete payloads. */
    method ExtractPayload() returns (calls: seq<Action<Chunk>>, ghost sent: seq<Chunk>)
      requires options.Valid() && !completed && options.payloadSize <= |pendingResponse|
      modifies this
      ensures Snapshot() == Extracted(options, old(Snapshot())) && |pendingResponse| < |old(pendingResponse)|
      ensures outbox == old(outbox) + sent && calls == SendAll(sent) + CloseIf(completed)
    {
      var actualSequence := WordAt(pendingResponse);
      extracted := extracted + [pendingResponse[..options.payloadSize]];
      pendingResponse := pendingResponse[options.payloadSize..];
      if actualSequence != expectedSequence {
        failed := true;
        completed := true;
        return [Close], [];
      }
      measurements := measurements + 1;
      receivedCount := receivedCount + 1;
      if options.samples <= receivedCount {
        completed := true;
        return [Close], [];
      }
      calls, sent := SendNext();
    }

    /** The read handler; it runs only while the `io_context` does. */
    method OnRead(callback: Callback<Chunk>) returns (calls: seq<Action<Chunk>>)
      requires options.Valid() && !completed
      modifies this
      ensures Snapshot() == Handled(options, old(Snapshot()), callback)
      ensures old(outbox) <= outbox && calls == Reaction(old(Snapshot()), Snapshot())
    {
      if callback.Failed? {
        failed := true;
        completed := true;
        calls := [Close];
      } else {
        calls := OnData(callback.value);
      }
    }

    method OnData(data: seq<byte>) returns (calls: seq<Action<Chunk>>)
      requires options.Valid() && !completed
      modifies this
      ensures Snapshot() == Fed(options, old(Snapshot()), data)
      ensures old(outbox) <= outbox && calls == Reaction(old(Snapshot()), Snapshot())
    {
      ghost var sent;
      pendingResponse := pendingResponse + data;
      calls, sent := ExtractPayloads();
      ReactionIs(old(Snapshot()), Snapshot(), sent);
    }

    /** The loop over complete payloads. */
    method ExtractPayloads() returns (calls: seq<Action<Chunk>>, ghost sent: seq<Chunk>)
      requires options.Valid() && !completed
      modifies this
      ensures Snapshot() == Drained(options, old(Snapshot()))
      ensures outbox == old(outbox) + sent && calls == SendAll(sent) + CloseIf(completed)
    {
      calls, sent := [], [];
      ghost var result, sentBefore := Drained(options, Snapshot()), outbox;
      while !completed && options.payloadSize <= |pendingResponse|
        invariant Drained(options, Snapshot()) == result
        invariant outbox == sentBefore + sent
        invariant calls == SendAll(sent) + CloseIf(completed)
        decreases |pendingResponse|
      {
        DrainedTurn(options, Snapshot());
        var more, sentNow := ExtractPayload();
        CallsConcat(sent, sentNow, CloseIf(completed));
        ConcatAssociative(sentBefore, sent, sentNow);
        calls, sent := calls + more, sent + sentNow;
      }
    }
  }

  lemma ConcatAssociative<T>(a: seq<T>, b: seq<T>, c: seq<T>)
    ensures (a + b) + c == a + (b + c)
  {
  }

  lemma {:induction false} SendAllConcat(a: seq<Chunk>, b: seq<Chunk>)
    ensures SendAll(a + b) == SendAll(a) + SendAll(b)
  {
    if b == [] {
      assert a + b == a;
    } else {
      SendAllConcat(a, Init(b));
      assert Init(a + b) == a + Init(b);
    }
  }

  lemma CallsConcat(a: seq<Chunk>, b: seq<Chunk>, tail: seq<Action<Chunk>>)
    ensures (SendAll(a) + CloseIf(false)) + (SendAll(b) + tail) == SendAll(a + b) + tail
  {
    SendAllConcat(a, b);
  }

  lemma ReactionIs(c: Client, d: Client, sent: seq<Chunk>)
    requires d.outbox == c.outbox + sent
    ensures Reaction(c, d) == SendAll(sent) + CloseIf(d.completed)
  {
    assert d.outbox[|c.outbox|..] == sent;
  }

  // ---- Chunk independence ----

  function Payloads(o: Options, n: nat): (payloads: seq<Chunk>)
    requires o.Valid()
    ensures |payloads| == n
  {
    if n == 0 then [] else Payloads(o, n - 1) + [Payload(o, n - 1)]
  }

  ghost predicate Blocks(o: Options, blocks: seq<Chunk>) {
    forall i :: 0 <= i < |blocks| ==> |blocks[i]| == o.payloadSize
  }

  /** The books of a client: the payloads received are numbered 0, 1, 2, ..., and it stopped for one of two reasons. */
  ghost predicate Accounts(o: Options, c: Client)
    requires o.Valid()
  {
    && Blocks(o, c.extracted) && |c.extracted| == c.received + (if c.failed then 1 else 0)
    && (forall j :: 0 <= j < c.received ==> WordAt(c.extracted[j]) == o.number(j))
    && c.received <= o.samples && c.measurements == c.received
    && c.sent == (if c.received == o.samples then o.samples else c.received + 1)
    && c.expected == o.number(c.sent - 1) && c.outbox == Payloads(o, c.sent)
    && (c.failed ==> c.completed && c.received < o.samples && WordAt(c.extracted[c.received]) != o.number(c.received))
    && (!c.failed ==> (c.completed <==> c.received == o.samples))
  }

  /**
   What the client must have made of an echo stream, however it was cut up: it consumed whole payloads from the front
   and kept what it read behind them; while it runs that is the rest of the stream, and less than one payload.
   */
  ghost predicate Explains(o: Options, c: Client, stream: seq<byte>)
    requires o.Valid()
  {
    && Accounts(o, c)
    && Flatten(c.extracted) + c.pending <= stream
    && (!c.completed ==> |c.pending| < o.payloadSize && stream == Flatten(c.extracted) + c.pending)
  }

  lemma AccountsExtracted(o: Options, c: Client)
    requires o.Valid() && Accounts(o, c) && !c.completed && o.payloadSize <= |c.pending|
    ensures Accounts(o, Extracted(o, c))
  {
    var block := c.pending[..o.payloadSize];
    var extracted := c.extracted + [block];
    assert WordAt(block) == WordAt(c.pending);
    assert forall j :: 0 <= j < |c.extracted| ==> extracted[j] == c.extracted[j];
    assert extracted[c.received] == block;
  }

  lemma StreamExtracted(o: Options, c: Client)
    requires o.Valid() && o.payloadSize <= |c.pending|
    ensures var d := Extracted(o, c); Flatten(d.extracted) + d.pending == Flatten(c.extracted) + c.pending
  {
    FlattenSnoc(c.extracted, c.pending[..o.payloadSize]);
    CutBlock(Flatten(c.extracted), c.pending, o.payloadSize);
  }

  lemma CutBlock<T>(before: seq<T>, pending: seq<T>, n: nat)
    requires n <= |pending|
    ensures (before + pending[..n]) + pending[n..] == before + pending
  {
    assert pending == pending[..n] + pending[n..];
  }

  lemma {:induction false} DrainedExplains(o: Options, c: Client, stream: seq<byte>)
    requires o.Valid() && Accounts(o, c) && !c.completed && stream == Flatten(c.extracted) + c.pending
    ensures Explains(o, Drained(o, c), stream)
    decreases |c.pending|
  {
    if o.payloadSize <= |c.pending| {
      AccountsExtracted(o, c);
      StreamExtracted(o, c);
      if !Extracted(o, c).completed {
        DrainedExplains(o, Extracted(o, c), stream);
      }
    }
  }

  lemma FedExplains(o: Options, c: Client, stream: seq<byte>, chunk: Chunk)
    requires o.Valid() && Explains(o, c, stream)
    ensures Explains(o, if c.completed then c else Fed(o, c, chunk), stream + chunk)
  {
    if !c.completed {
      var c1 := c.(pending := c.pending + chunk);
      assert stream + chunk == Flatten(c.extracted) + c1.pending;
      DrainedExplains(o, c1, stream + chunk);
    }
  }

  /** Every way of cutting the echo into reads is explained by the stream alone. */
  lemma {:induction false} FedAllExplains(o: Options, chunks: seq<Chunk>)
    requires o.Valid()
    ensures Explains(o, FedAll(o, SentNext(o, Started()), chunks), Flatten(chunks))
  {
    var c0 := SentNext(o, Started());
    if chunks == [] {
      assert Payloads(o, 0) == [] && Payloads(o, 1) == [Payload(o, 0)];
    } else {
      FedAllExplains(o, Init(chunks));
      FedExplains(o, FedAll(o, c0, Init(chunks)), Flatten(Init(chunks)), Last(chunks));
    }
  }

  lemma FlattenCons<T>(x: seq<T>, xs: seq<seq<T>>)
    ensures Flatten([x] + xs) == x + Flatten(xs)
  {
    FlattenConcat([x], xs);
    assert Init([x]) == [] && Flatten([x]) == x;
  }

  lemma {:induction false} SameBlocks(o: Options, xs: seq<Chunk>, ys: seq<Chunk>, stream: seq<byte>)
    requires Blocks(o, xs) && Blocks(o, ys) && |xs| <= |ys|
    requires Flatten(xs) <= stream && Flatten(ys) <= stream
    ensures xs == ys[..|xs|]
  {
    if xs != [] {
      assert xs == [xs[0]] + xs[1..] && ys == [ys[0]] + ys[1..];
      FlattenCons(xs[0], xs[1..]);
      FlattenCons(ys[0], ys[1..]);
      assert xs[0] == stream[..o.payloadSize] == ys[0];
      SameBlocks(o, xs[1..], ys[1..], stream[o.payloadSize..]);
    }
  }

  lemma {:induction false} PrefixIsShorter<T>(xs: seq<seq<T>>, n: nat)
    requires n < |xs|
    ensures |Flatten(xs[..n])| + |xs[n]| <= |Flatten(xs)|
  {
    if n < |xs| - 1 {
      PrefixIsShorter(Init(xs), n);
      assert Init(xs)[..n] == xs[..n];
    }
  }

  lemma NotFewer(o: Options, c: Client, d: Client, stream: seq<byte>)
    requires o.Valid() && Explains(o, c, stream) && Explains(o, d, stream)
    ensures |d.extracted| <= |c.extracted|
  {
    if |c.extracted| < |d.extracted| {
      SameBlocks(o, c.extracted, d.extracted, stream);
      PrefixIsShorter(d.extracted, |c.extracted|);
    }
  }

  lemma SameAccounts(o: Options, c: Client, d: Client)
    requires o.Valid() && Accounts(o, c) && Accounts(o, d) && c.extracted == d.extracted
    ensures c == d.(pending := c.pending)
  {
  }

  /** The stream determines the outcome. */
  lemma ExplanationIsUnique(o: Options, c: Client, d: Client, stream: seq<byte>)
    requires o.Valid() && Explains(o, c, stream) && Explains(o, d, stream)
    ensures c == d.(pending := c.pending)
    ensures !c.completed ==> c == d
  {
    NotFewer(o, c, d, stream);
    NotFewer(o, d, c, stream);
    SameBlocks(o, c.extracted, d.extracted, stream);
    SameAccounts(o, c, d);
    if !c.completed {
      assert c.pending == stream[|Flatten(c.extracted)|..] == d.pending;
    }
  }

  /** Payloads, counters, outcome and the messages sent depend only on the bytes echoed, not on how they were cut up. */
  lemma ChunkIndependence(o: Options, chunks1: seq<Chunk>, chunks2: seq<Chunk>)
    requires o.Valid() && Flatten(chunks1) == Flatten(chunks2)
    ensures var c := FedAll(o, SentNext(o, Started()), chunks1);
            var d := FedAll(o, SentNext(o, Started()), chunks2);
            c == d.(pending := c.pending) && (!c.completed ==> c == d && |c.pending| < o.payloadSize)
  {
    FedAllExplains(o, chunks1);
    FedAllExplains(o, chunks2);
    ExplanationIsUnique(o, FedAll(o, SentNext(o, Started()), chunks1), FedAll(o, SentNext(o, Started()), chunks2),
                        Flatten(chunks1));
  }

  // ---- The verdict ----

  /** A read error reached the client before it had completed. */
  predicate ErrorFirst(o: Options, callbacks: seq<Callback<Chunk>>)
    requires o.Valid()
  {
    callbacks != [] &&
    (ErrorFirst(o, Init(callbacks)) ||
     (Last(callbacks).Failed? && !HandledAll(o, SentNext(o, Started()), Init(callbacks)).completed))
  }

  lemma StartedExplains(o: Options)
    requires o.Valid()
    ensures Explains(o, SentNext(o, Started()), [])
  {
    assert Payloads(o, 0) == [] && Payloads(o, 1) == [Payload(o, 0)];
  }

  lemma {:induction false} HandledAllExplains(o: Options, callbacks: seq<Callback<Chunk>>)
    requires o.Valid()
    ensures var c := HandledAll(o, SentNext(o, Started()), callbacks);
            if ErrorFirst(o, callbacks) then
              c.failed && c.completed && Accounts(o, c.(failed := false, completed := false))
            else
              Explains(o, c, Flatten(DataIn(callbacks)))
  {
    if callbacks == [] {
      StartedExplains(o);
    } else {
      var before := HandledAll(o, SentNext(o, Started()), Init(callbacks));
      HandledAllExplains(o, Init(callbacks));
      if !ErrorFirst(o, callbacks) {
        CallbackExplains(o, before, Flatten(DataIn(Init(callbacks))), Last(callbacks));
        StreamOfCallbacks(callbacks);
      }
    }
  }

  lemma CallbackExplains(o: Options, c: Client, stream: seq<byte>, callback: Callback<Chunk>)
    requires o.Valid() && Explains(o, c, stream) && (callback.Failed? ==> c.completed)
    ensures Explains(o, if c.completed then c else Handled(o, c, callback),
                     stream + if callback.Data? then callback.value else [])
  {
    match callback
    case Data(data) => FedExplains(o, c, stream, data);
    case Failed(_) => assert stream + [] == stream;
  }

  lemma StreamOfCallbacks(callbacks: seq<Callback<Chunk>>)
    requires callbacks != []
    ensures Flatten(DataIn(callbacks)) ==
            Flatten(DataIn(Init(callbacks))) + if Last(callbacks).Data? then Last(callbacks).value else []
  {
    if Last(callbacks).Data? {
      FlattenSnoc(DataIn(Init(callbacks)), Last(callbacks).value);
    } else {
      assert DataIn(Init(callbacks)) + [] == DataIn(Init(callbacks));
    }
  }

  /**
   The program succeeds exactly if all samples were received, and fails exactly if a read error came first or some
   payload cut out of the echo carries the wrong number.
   */
  lemma Verdict(o: Options, callbacks: seq<Callback<Chunk>>)
    requires o.Valid()
    ensures var c := HandledAll(o, SentNext(o, Started()), callbacks);
            && Blocks(o, c.extracted)
            && (c.completed && !c.failed <==> c.received == o.samples)
            && (c.failed <==>
                  || ErrorFirst(o, callbacks)
                  || exists j :: 0 <= j < |c.extracted| && WordAt(c.extracted[j]) != o.number(j))
            && (c.failed ==> c.completed)
  {
    HandledAllExplains(o, callbacks);
  }
}
