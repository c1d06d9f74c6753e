/**
 CAN frames and their SocketCAN images. `struct can_frame` is 16 bytes: a 32-bit id word, the length, three bytes of
 padding and 8 data bytes; `struct canfd_frame` is 72 bytes: id word, length, flags, two reserved bytes and 64 data
 bytes. */
module CanCodec {
  import opened Common

  const CANFD_BRS: byte := 0x01
  const CANFD_ESI: byte := 0x02
  const CLASSIC_DATA_SIZE: nat := 8
  const FD_DATA_SIZE: nat := 64
  const CLASSIC_IMAGE_SIZE: nat := 16
  const FD_IMAGE_SIZE: nat := 72

  /** The data area of a frame; always 64 bytes, only the first `dataLength` of them meant. */
  type Payload = s: seq<byte> | |s| == 64 witness seq(64, _ => 0 as byte)

  datatype CanFrame = CanFrame(
    id: Word, dataLength: nat, data: Payload, extendedId: bool, remoteFrame: bool, errorFrame: bool,
    fdFrame: bool, bitrateSwitch: bool, errorStateIndicator: bool)

  // ---- Images ----

  /** `CAN_EFF_FLAG`, 0x80000000. */
  predicate ExtendedBit(word: Word) {
    word.b3 & 0x80 != 0
  }

  /** `CAN_RTR_FLAG`, 0x40000000. */
  predicate RemoteBit(word: Word) {
    word.b3 & 0x40 != 0
  }

  /** `CAN_ERR_FLAG`, 0x20000000. */
  predicate ErrorBit(word: Word) {
    word.b3 & 0x20 != 0
  }

  /** The word under `CAN_EFF_MASK`, 0x1FFFFFFF. */
  function IdBits(word: Word): Word {
    word.(b3 := word.b3 & 0x1F)
  }

  function FlagByte(b: byte, extended: bool, remote: bool): byte {
    var x := if extended then b | 0x80 else b;
    if remote then x | 0x40 else x
  }

  /** The id word of a frame: its id with the extended and remote flags or-ed in. */
  function IdWord(id: Word, extended: bool, remote: bool): Word {
    id.(b3 := FlagByte(id.b3, extended, remote))
  }

  function IdWordOf(f: CanFrame): Word {
    IdWord(f.id, f.extendedId, f.remoteFrame)
  }

  function FdFlags(f: CanFrame): byte {
    (if f.bitrateSwitch then CANFD_BRS else 0) | (if f.errorStateIndicator then CANFD_ESI else 0)
  }

  /** The first `length` bytes of `data`, filled up with zeros to `size` bytes. */
  function ZeroPadded(data: seq<byte>, length: nat, size: nat): (r: seq<byte>)
    requires size <= |data|
    ensures |r| == size
    ensures forall i :: 0 <= i < size ==> r[i] == if i < length then data[i] else 0
  {
    seq(size, i requires 0 <= i < size => if i < length then data[i] else 0)
  }

  /** Frames `encode_frame` accepts under the session's FD setting. */
  predicate Encodable(fdEnabled: bool, f: CanFrame) {
    if f.fdFrame then fdEnabled && f.dataLength <= FD_DATA_SIZE else f.dataLength <= CLASSIC_DATA_SIZE
  }

  function Image(f: CanFrame): (image: seq<byte>)
    requires Encodable(true, f)
    ensures |image| == if f.fdFrame then FD_IMAGE_SIZE else CLASSIC_IMAGE_SIZE
  {
    if f.fdFrame then
      IdWordOf(f).Bytes() + [f.dataLength as byte, FdFlags(f), 0, 0] + ZeroPadded(f.data, f.dataLength, FD_DATA_SIZE)
    else
      IdWordOf(f).Bytes() + [f.dataLength as byte, 0, 0, 0] + ZeroPadded(f.data, f.dataLength, CLASSIC_DATA_SIZE)
  }

  function Encode(fdEnabled: bool, f: CanFrame): Option<seq<byte>> {
    if Encodable(fdEnabled, f) then Some(Image(f)) else None
  }

  /** The data area of a decoded frame: at most `limit` bytes after the header, zeros behind them. */
  function Unpacked(image: seq<byte>, length: nat, limit: nat): (data: Payload)
    requires limit <= 64 && 8 + limit <= |image|
    ensures forall i :: 0 <= i < 64 ==> data[i] == if i < length && i < limit then image[8 + i] else 0
  {
    seq(64, i requires 0 <= i < 64 => if i < length && i < limit then image[8 + i] else 0)
  }

  function DecodeHeader(image: seq<byte>, fd: bool, flags: byte, data: Payload): CanFrame
    requires 8 <= |image|
  {
    var word := WordAt(image);
    CanFrame(IdBits(word), image[4] as nat, data,
             ExtendedBit(word), RemoteBit(word), ErrorBit(word),
             fd, flags & CANFD_BRS != 0, flags & CANFD_ESI != 0)
  }

  /** `decode_frame` on the bytes of one read; any length but the two image sizes is a protocol error. */
  function Decode(image: seq<byte>): Option<CanFrame> {
    if |image| == CLASSIC_IMAGE_SIZE then
      Some(DecodeHeader(image, false, 0, Unpacked(image, image[4] as nat, CLASSIC_DATA_SIZE)))
    else if |image| == FD_IMAGE_SIZE then
      Some(DecodeHeader(image, true, image[5], Unpacked(image, image[4] as nat, FD_DATA_SIZE)))
    else None
  }

  // ---- What is refused, and what is kept of a received image ----

  /** Which frames have an image: FD frames only if FD is enabled, and no frame longer than its data area. */
  lemma EncodesExactly(fdEnabled: bool, f: CanFrame)
    ensures Encode(fdEnabled, f).Some? <==>
            (f.fdFrame ==> fdEnabled) && f.dataLength <= (if f.fdFrame then 64 else 8)
    ensures Encode(fdEnabled, f).Some? ==> |Encode(fdEnabled, f).value| == if f.fdFrame then 72 else 16
  {
  }

  predicate SameFlags(a: byte, b: byte) {
    a & CANFD_BRS == b & CANFD_BRS && a & CANFD_ESI == b & CANFD_ESI
  }

  /** The images agree in what decoding looks at: id word, length, FD flags, and the data up to length and area. */
  predicate SameContent(a: seq<byte>, b: seq<byte>)
    requires |a| == |b| && (|a| == CLASSIC_IMAGE_SIZE || |a| == FD_IMAGE_SIZE)
  {
    && a[..5] == b[..5]
    && (|a| == FD_IMAGE_SIZE ==> SameFlags(a[5], b[5]))
    && (forall i :: 8 <= i < |a| && i < 8 + a[4] as nat ==> a[i] == b[i])
  }

  lemma FlagsDetermined(a: byte, b: byte)
    ensures SameFlags(a, b) <==>
            (a & CANFD_BRS != 0 <==> b & CANFD_BRS != 0) && (a & CANFD_ESI != 0 <==> b & CANFD_ESI != 0)
  {
  }

  lemma TopDetermined(a: byte, b: byte)
    ensures a == b <==>
            && a & 0x1F == b & 0x1F && (a & 0x80 != 0 <==> b & 0x80 != 0)
            && (a & 0x40 != 0 <==> b & 0x40 != 0) && (a & 0x20 != 0 <==> b & 0x20 != 0)
  {
  }

  lemma WordDetermined(a: Word, b: Word)
    ensures a == b <==>
            && IdBits(a) == IdBits(b) && (ExtendedBit(a) <==> ExtendedBit(b))
            && (RemoteBit(a) <==> RemoteBit(b)) && (ErrorBit(a) <==> ErrorBit(b))
  {
    TopDetermined(a.b3, b.b3);
  }

  lemma FrontDetermined(a: seq<byte>, b: seq<byte>)
    requires 8 <= |a| && 8 <= |b|
    ensures a[..5] == b[..5] <==> WordAt(a) == WordAt(b) && a[4] as nat == b[4] as nat
  {
    ByteBack(a[4]);
    ByteBack(b[4]);
    assert a[..5] == [a[0], a[1], a[2], a[3], a[4]] && b[..5] == [b[0], b[1], b[2], b[3], b[4]];
  }

  lemma HeaderDetermined(
      a: seq<byte>, b: seq<byte>, dataA: Payload, dataB: Payload, fd: bool, flagsA: byte, flagsB: byte)
    requires 8 <= |a| && 8 <= |b|
    ensures DecodeHeader(a, fd, flagsA, dataA) == DecodeHeader(b, fd, flagsB, dataB) <==>
            a[..5] == b[..5] && SameFlags(flagsA, flagsB) && dataA == dataB
  {
    WordDetermined(WordAt(a), WordAt(b));
    FlagsDetermined(flagsA, flagsB);
    FrontDetermined(a, b);
  }

  lemma DataDetermined(a: seq<byte>, b: seq<byte>, length: nat, limit: nat)
    requires limit <= 64 && |a| == |b| == 8 + limit
    ensures Unpacked(a, length, limit) == Unpacked(b, length, limit) <==>
            forall i :: 8 <= i < |a| && i < 8 + length ==> a[i] == b[i]
  {
    var dataA, dataB := Unpacked(a, length, limit), Unpacked(b, length, limit);
    if dataA == dataB {
      forall i | 8 <= i < |a| && i < 8 + length ensures a[i] == b[i] {
        assert dataA[i - 8] == dataB[i - 8];
      }
    }
    if forall i :: 8 <= i < |a| && i < 8 + length ==> a[i] == b[i] {
      assert forall i :: 0 <= i < 64 ==> dataA[i] == dataB[i];
    }
  }

  /** The reported length is kept as it is, even beyond the data area; a length that is not an image is refused. */
  lemma DecodesExactly(image: seq<byte>)
    ensures Decode(image).Some? <==> |image| == CLASSIC_IMAGE_SIZE || |image| == FD_IMAGE_SIZE
    ensures Decode(image).Some? ==>
              && Decode(image).value.dataLength == image[4] as nat
              && (Decode(image).value.fdFrame <==> |image| == FD_IMAGE_SIZE)
  {
  }

  /** Two images of one size decode to the same frame exactly if they agree in that content, and in nothing else. */
  lemma DecodeKernel(a: seq<byte>, b: seq<byte>)
    requires |a| == |b| && (|a| == CLASSIC_IMAGE_SIZE || |a| == FD_IMAGE_SIZE)
    ensures Decode(a) == Decode(b) <==> SameContent(a, b)
  {
    var fd := |a| == FD_IMAGE_SIZE;
    var limit := |a| - 8;
    var dataA, dataB := Unpacked(a, a[4] as nat, limit), Unpacked(b, b[4] as nat, limit);
    HeaderDetermined(a, b, dataA, dataB, fd, if fd then a[5] else 0, if fd then b[5] else 0);
    assert a[..5] == b[..5] ==> a[..5][4] == b[..5][4];
    if a[4] == b[4] {
      DataDetermined(a, b, a[4] as nat, limit);
    }
  }

  // ---- Round trips ----

  /** What survives a trip over the bus. */
  function Normalise(f: CanFrame): CanFrame {
    CanFrame(IdBits(f.id), f.dataLength, ZeroPadded(f.data, f.dataLength, 64),
             f.extendedId || ExtendedBit(f.id), f.remoteFrame || RemoteBit(f.id), ErrorBit(f.id),
             f.fdFrame, f.fdFrame && f.bitrateSwitch, f.fdFrame && f.errorStateIndicator)
  }

  /** A 29-bit id, no error flag, nothing behind the data, and FD flags only on FD frames. */
  predicate Canonical(f: CanFrame) {
    && IdBits(f.id) == f.id && !f.errorFrame
    && (forall i :: 0 <= i < 64 && f.dataLength <= i ==> f.data[i] == 0)
    && (!f.fdFrame ==> !f.bitrateSwitch && !f.errorStateIndicator)
  }

  lemma BitsOfIdWord(id: Word, extended: bool, remote: bool)
    ensures var word := IdWord(id, extended, remote);
            && IdBits(word) == IdBits(id)
            && (ExtendedBit(word) <==> extended || ExtendedBit(id))
            && (RemoteBit(word) <==> remote || RemoteBit(id))
            && (ErrorBit(word) <==> ErrorBit(id))
  {
  }

  lemma FlagBits(brs: bool, esi: bool)
    ensures var flags := (if brs then CANFD_BRS else 0) | (if esi then CANFD_ESI else 0);
            (flags & CANFD_BRS != 0 <==> brs) && (flags & CANFD_ESI != 0 <==> esi)
  {
  }

  lemma ImageParts(f: CanFrame)
    requires Encodable(true, f)
    ensures var image := Image(f);
            && WordAt(image) == IdWordOf(f)
            && image[4] as nat == f.dataLength
            && (f.fdFrame ==> image[5] == FdFlags(f))
            && forall i :: 8 <= i < |image| ==> image[i] == if i - 8 < f.dataLength then f.data[i - 8] else 0
  {
    ByteOf(f.dataLength);
  }

  lemma UnpackedImage(f: CanFrame)
    requires Encodable(true, f)
    ensures var limit := if f.fdFrame then FD_DATA_SIZE else CLASSIC_DATA_SIZE;
            Unpacked(Image(f), f.dataLength, limit) == ZeroPadded(f.data, f.dataLength, 64)
  {
    ImageParts(f);
    var limit := if f.fdFrame then FD_DATA_SIZE else CLASSIC_DATA_SIZE;
    var image := Image(f);
    var data := Unpacked(image, f.dataLength, limit);
    forall i | 0 <= i < 64 ensures data[i] == ZeroPadded(f.data, f.dataLength, 64)[i] {
      if i < f.dataLength {
        assert image[8 + i] == f.data[i];
      }
    }
  }

  /** Decoding an encoded frame gives its normal form. */
  lemma DecodeImage(f: CanFrame)
    requires Encodable(true, f)
    ensures Decode(Image(f)) == Some(Normalise(f))
  {
    ImageParts(f);
    UnpackedImage(f);
    BitsOfIdWord(f.id, f.extendedId, f.remoteFrame);
    FlagBits(f.bitrateSwitch, f.errorStateIndicator);
  }

  /** Encodable frames come back in normal form; and they come back unchanged exactly if they are canonical. */
  lemma RoundTrip(fdEnabled: bool, f: CanFrame)
    requires Encodable(fdEnabled, f)
    ensures Encode(fdEnabled, f).Some? && Decode(Encode(fdEnabled, f).value) == Some(Normalise(f))
    ensures Decode(Encode(fdEnabled, f).value) == Some(f) <==> Canonical(f)
  {
    DecodeImage(f);
    NormalIffCanonical(f);
  }

  lemma LowId(id: Word)
    requires IdBits(id) == id
    ensures !ExtendedBit(id) && !RemoteBit(id) && !ErrorBit(id)
  {
  }

  lemma NormalIffCanonical(f: CanFrame)
    ensures Normalise(f) == f <==> Canonical(f)
  {
    if IdBits(f.id) == f.id {
      LowId(f.id);
    }
    var padded := ZeroPadded(f.data, f.dataLength, 64);
    if Canonical(f) {
      assert padded == f.data;
    }
    if Normalise(f) == f {
      assert padded == f.data;
    }
  }

  /** On canonical frames encoding loses nothing. */
  lemma EncodeInjective(fdEnabled: bool, f: CanFrame, g: CanFrame)
    requires Canonical(f) && Canonical(g) && Encodable(fdEnabled, f)
    requires Encode(fdEnabled, f) == Encode(fdEnabled, g)
    ensures f == g
  {
    RoundTrip(fdEnabled, f);
    RoundTrip(fdEnabled, g);
  }

  lemma WordOfNormal(id: Word, extended: bool, remote: bool)
    ensures IdWord(IdBits(id), extended || ExtendedBit(id), remote || RemoteBit(id)) == IdWord(id, extended, remote)
            <==> !ErrorBit(id)
  {
    if extended {
      if remote {
      }
    } else if remote {
    }
  }

  /** A frame forwarded after one trip has the same image byte for byte exactly if its id has bit 29 clear. */
  lemma WireStability(fdEnabled: bool, f: CanFrame)
    requires Encodable(fdEnabled, f)
    ensures Decode(Image(f)).Some? && Encodable(fdEnabled, Decode(Image(f)).value)
    ensures Encode(fdEnabled, Decode(Image(f)).value) == Encode(fdEnabled, f) <==> !ErrorBit(f.id)
  {
    DecodeImage(f);
    var n := Normalise(f);
    WordOfNormal(f.id, f.extendedId, f.remoteFrame);
    ImageParts(f);
    ImageParts(n);
    if !ErrorBit(f.id) {
      assert ZeroPadded(n.data, n.dataLength, FD_DATA_SIZE) == ZeroPadded(f.data, f.dataLength, FD_DATA_SIZE);
      assert ZeroPadded(n.data, n.dataLength, CLASSIC_DATA_SIZE) == ZeroPadded(f.data, f.dataLength, CLASSIC_DATA_SIZE);
    }
  }

  // ---- Images received from elsewhere ----

  /** Legal length, zero padding and tail, no error flag, and no FD flag but BRS and ESI. */
  predicate LegalImage(image: seq<byte>)
    requires |image| == CLASSIC_IMAGE_SIZE || |image| == FD_IMAGE_SIZE
  {
    && image[4] as nat <= |image| - 8
    && (if |image| == FD_IMAGE_SIZE then image[5] & !(CANFD_BRS | CANFD_ESI) == 0 else image[5] == 0)
    && image[6] == 0 && image[7] == 0
    && (forall i :: 8 + image[4] as nat <= i < |image| ==> image[i] == 0)
    && !ErrorBit(WordAt(image))
  }

  lemma WordOfDecoded(word: Word)
    ensures IdWord(IdBits(word), ExtendedBit(word), RemoteBit(word)) == word <==> !ErrorBit(word)
  {
  }

  lemma FlagsOfDecoded(flags: byte)
    ensures var again := (if flags & CANFD_BRS != 0 then CANFD_BRS else 0)
                       | (if flags & CANFD_ESI != 0 then CANFD_ESI else 0);
            again == flags <==> flags & !(CANFD_BRS | CANFD_ESI) == 0
  {
  }

  lemma ReencodeLegalTail(image: seq<byte>)
    requires (|image| == CLASSIC_IMAGE_SIZE || |image| == FD_IMAGE_SIZE) && LegalImage(image)
    ensures Encodable(true, Decode(image).value)
    ensures Image(Decode(image).value)[8..] == image[8..]
  {
    var f := Decode(image).value;
    ImageParts(f);
    var again := Image(f);
    forall i | 8 <= i < |image| ensures again[i] == image[i] {
      if i - 8 < f.dataLength {
        assert f.data[i - 8] == image[i];
      }
    }
  }

  lemma ReencodeLegal(image: seq<byte>)
    requires (|image| == CLASSIC_IMAGE_SIZE || |image| == FD_IMAGE_SIZE) && LegalImage(image)
    ensures Encodable(true, Decode(image).value) && Image(Decode(image).value) == image
  {
    var f := Decode(image).value;
    ReencodeLegalTail(image);
    WordOfDecoded(WordAt(image));
    FlagsOfDecoded(image[5]);
    ByteBack(image[4]);
    var again := Image(f);
    assert again[..8] == image[..8];
    assert again == again[..8] + again[8..] && image == image[..8] + image[8..];
  }

  lemma ReencodedIsLegal(image: seq<byte>)
    requires |image| == CLASSIC_IMAGE_SIZE || |image| == FD_IMAGE_SIZE
    requires Encodable(true, Decode(image).value) && Image(Decode(image).value) == image
    ensures LegalImage(image)
  {
    var f := Decode(image).value;
    WordOfDecoded(WordAt(image));
    FlagsOfDecoded(image[5]);
    ImageParts(f);
  }

  /** Re-encoding a received image reproduces it byte for byte exactly if the image is legal. */
  lemma ReencodeImage(fdEnabled: bool, image: seq<byte>)
    requires |image| == CLASSIC_IMAGE_SIZE || (fdEnabled && |image| == FD_IMAGE_SIZE)
    ensures Decode(image).Some?
    ensures Encode(fdEnabled, Decode(image).value) == Some(image) <==> LegalImage(image)
  {
    if LegalImage(image) {
      ReencodeLegal(image);
    }
    if Encode(fdEnabled, Decode(image).value) == Some(image) {
      ReencodedIsLegal(image);
    }
  }
}
