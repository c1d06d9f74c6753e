/** Definitions shared by every model: bytes, optional values and concatenation of chunks. */
module Common {
  type byte = bv8

  /** Conversion from a byte and back. */
  lemma ByteBack(b: byte)
    ensures (b as nat) as byte == b
  {
  }

  lemma ByteSucc(b: byte)
    requires b != 255
    ensures (b + 1) as int == b as int + 1
  {
  }

  lemma {:induction false} ByteFor(n: nat) returns (b: byte)
    requires n < 256
    ensures b as int == n
  {
    if n == 0 {
      b := 0;
    } else {
      var before := ByteFor(n - 1);
      ByteSucc(before);
      b := before + 1;
    }
  }

  /** Conversion to a byte and back. */
  lemma ByteOf(n: nat)
    requires n < 256
    ensures (n as byte) as int == n
  {
    var b := ByteFor(n);
    ByteBack(b);
  }

  datatype Option<+T> = None | Some(value: T)

  function Init<T>(s: seq<T>): seq<T>
    requires s != []
  {
    s[..|s| - 1]
  }

  function Last<T>(s: seq<T>): T
    requires s != []
  {
    s[|s| - 1]
  }

  /** The concatenation of a sequence of chunks, in order. */
  function Flatten<T>(chunks: seq<seq<T>>): seq<T> {
    if chunks == [] then [] else Flatten(Init(chunks)) + Last(chunks)
  }

  lemma FlattenSnoc<T>(chunks: seq<seq<T>>, chunk: seq<T>)
    ensures Flatten(chunks + [chunk]) == Flatten(chunks) + chunk
  {
    assert (chunks + [chunk])[..|chunks|] == chunks;
  }

  lemma {:induction false} FlattenConcat<T>(a: seq<seq<T>>, b: seq<seq<T>>)
    ensures Flatten(a + b) == Flatten(a) + Flatten(b)
  {
    if b == [] {
      assert a + b == a;
    } else {
      calc {
        Flatten(a + b);
        { assert a + b == (a + Init(b)) + [Last(b)]; FlattenSnoc(a + Init(b), Last(b)); }
        Flatten(a + Init(b)) + Last(b);
        { FlattenConcat(a, Init(b)); }
        Flatten(a) + Flatten(Init(b)) + Last(b);
        Flatten(a) + Flatten(b);
      }
    }
  }

  /** A 32-bit word as its four bytes, least significant first: the order in which `memcpy` stores it. */
  datatype Word = Word(b0: byte, b1: byte, b2: byte, b3: byte) {
    function Bytes(): (bytes: seq<byte>)
      ensures |bytes| == 4
    {
      [b0, b1, b2, b3]
    }
  }

  /** The word stored at the front of `bytes`. */
  function WordAt(bytes: seq<byte>): Word
    requires 4 <= |bytes|
  {
    Word(bytes[0], bytes[1], bytes[2], bytes[3])
  }
}
