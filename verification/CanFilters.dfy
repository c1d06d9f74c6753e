/** The receive filters of a CAN session, and when the kernel's raw filters mean the same. */
module CanFilters {
  import opened Common
  import opened CanCodec

  datatype CanFilter = CanFilter(id: Word, mask: Word, extendedId: bool, remoteFrame: bool)

  datatype RawFilter = RawFilter(canId: Word, canMask: Word)

  function RawFilterOf(f: CanFilter): RawFilter {
    RawFilter(IdWord(f.id, f.extendedId, f.remoteFrame), IdWord(f.mask, f.extendedId, f.remoteFrame))
  }

  /** The two words agree in the bits of the mask. */
  predicate AgreeUnder(mask: Word, a: Word, b: Word) {
    && a.b0 & mask.b0 == b.b0 & mask.b0 && a.b1 & mask.b1 == b.b1 & mask.b1
    && a.b2 & mask.b2 == b.b2 & mask.b2 && a.b3 & mask.b3 == b.b3 & mask.b3
  }

  /**
   SocketCAN's rule for data packets, as `linux/can.h` describes `struct can_filter`: the masked id word of the packet
   equals the masked id of the filter; `CAN_INV_FILTER`, bit 29 of the id, inverts that; and with `CAN_ERR_FLAG`,
   bit 29 of the mask, the filter selects error messages only.
   */
  predicate RawAccepts(raw: RawFilter, word: Word) {
    if ErrorBit(raw.canMask) then false
    else if ErrorBit(raw.canId) then !AgreeUnder(raw.canMask, word, raw.canId)
    else AgreeUnder(raw.canMask, word, raw.canId)
  }

  /** What the filter asks of a frame: its id under the mask, and the flags the filter requires. */
  predicate Accepts(f: CanFilter, frame: CanFrame) {
    && AgreeUnder(f.mask, frame.id, f.id)
    && (f.extendedId ==> frame.extendedId)
    && (f.remoteFrame ==> frame.remoteFrame)
  }

  /** `Accepts` on the id word of the packet the frame was decoded from. */
  predicate AcceptsWord(f: CanFilter, word: Word) {
    && AgreeUnder(f.mask, IdBits(word), f.id)
    && (f.extendedId ==> ExtendedBit(word))
    && (f.remoteFrame ==> RemoteBit(word))
  }

  /**
   Bit 29 of id and mask is clear, and the mask reaches above the 29 bits of an id only where the filter requires the
   flag stored there and the filter's id leaves that bit clear. If bit 29 of the mask is set the kernel passes no data
   packet, which is right if and only if the filter means none: its id has a bit no id has, and the mask looks at it.
   */
  predicate Faithful(f: CanFilter) {
    if ErrorBit(f.mask) then
      ErrorBit(f.id) || (ExtendedBit(f.mask) && ExtendedBit(f.id)) || (RemoteBit(f.mask) && RemoteBit(f.id))
    else
      && !ErrorBit(f.id)
      && (ExtendedBit(f.mask) ==> f.extendedId && !ExtendedBit(f.id))
      && (RemoteBit(f.mask) ==> f.remoteFrame && !RemoteBit(f.id))
  }

  // Only the most significant byte of a word carries flags; the three others are compared alike on both sides.

  predicate LowBytesAgree(f: CanFilter, word: Word) {
    && word.b0 & f.mask.b0 == f.id.b0 & f.mask.b0
    && word.b1 & f.mask.b1 == f.id.b1 & f.mask.b1
    && word.b2 & f.mask.b2 == f.id.b2 & f.mask.b2
  }

  predicate RawTop(w: byte, i: byte, m: byte, extended: bool, remote: bool) {
    w & FlagByte(m, extended, remote) == FlagByte(i, extended, remote) & FlagByte(m, extended, remote)
  }

  predicate MeantTop(w: byte, i: byte, m: byte, extended: bool, remote: bool) {
    w & 0x1F & m == i & m && (extended ==> w & 0x80 != 0) && (remote ==> w & 0x40 != 0)
  }

  /** `Faithful` where bit 29 is clear in id and mask. */
  predicate FaithfulTop(i: byte, m: byte, extended: bool, remote: bool) {
    (m & 0x80 != 0 ==> extended && i & 0x80 == 0) && (m & 0x40 != 0 ==> remote && i & 0x40 == 0)
  }

  /** The comparison of the masked ids, before bit 29 is looked at. */
  lemma RawComparison(f: CanFilter, word: Word)
    ensures AgreeUnder(RawFilterOf(f).canMask, word, RawFilterOf(f).canId) <==>
            LowBytesAgree(f, word) && RawTop(word.b3, f.id.b3, f.mask.b3, f.extendedId, f.remoteFrame)
  {
  }

  lemma ErrorBitKept(b: byte, extended: bool, remote: bool)
    ensures FlagByte(b, extended, remote) & 0x20 == b & 0x20
  {
  }

  /** The raw rule, with the two meanings of bit 29, read off the filter itself. */
  lemma RawParts(f: CanFilter, word: Word)
    ensures RawAccepts(RawFilterOf(f), word) <==>
            var agree := LowBytesAgree(f, word) && RawTop(word.b3, f.id.b3, f.mask.b3, f.extendedId, f.remoteFrame);
            !ErrorBit(f.mask) && (if ErrorBit(f.id) then !agree else agree)
  {
    RawComparison(f, word);
    ErrorBitKept(f.id.b3, f.extendedId, f.remoteFrame);
    ErrorBitKept(f.mask.b3, f.extendedId, f.remoteFrame);
  }

  lemma MeantParts(f: CanFilter, word: Word)
    ensures AcceptsWord(f, word) <==>
            LowBytesAgree(f, word) && MeantTop(word.b3, f.id.b3, f.mask.b3, f.extendedId, f.remoteFrame)
  {
  }

  lemma FaithfulTopAgrees(w: byte, i: byte, m: byte, extended: bool, remote: bool)
    requires w & 0x20 == 0 && m & 0x20 == 0 && i & 0x20 == 0 && FaithfulTop(i, m, extended, remote)
    ensures RawTop(w, i, m, extended, remote) <==> MeantTop(w, i, m, extended, remote)
  {
  }

  lemma OwnIdAgrees(w: byte, i: byte, m: byte, extended: bool, remote: bool)
    requires m & 0x20 == 0
    requires w == FlagByte(i & 0x1F, extended || i & 0x80 != 0, remote || i & 0x40 != 0)
    ensures w & 0x20 == 0 && RawTop(w, i, m, extended, remote)
  {
  }

  lemma HighIdIsNeverMeant(w: byte, i: byte, m: byte, extended: bool, remote: bool)
    requires m & i & 0xE0 != 0
    ensures !MeantTop(w, i, m, extended, remote)
  {
  }

  lemma FlaggedIdIsMeant(w: byte, i: byte, m: byte, extended: bool, remote: bool)
    requires m & i & 0xE0 == 0 && w == FlagByte(i & 0x1F, true, true)
    ensures w & 0x20 == 0 && MeantTop(w, i, m, extended, remote)
    ensures w & 0x80 != 0 && w & 0x40 != 0
  {
  }

  lemma UnaskedFlagDisagrees(w: byte, i: byte, m: byte, extended: bool, remote: bool)
    requires w & 0x80 != 0 && w & 0x40 != 0
    requires (m & 0x80 != 0 && i & 0x80 == 0 && !extended) || (m & 0x40 != 0 && i & 0x40 == 0 && !remote)
    ensures !RawTop(w, i, m, extended, remote)
  {
  }

  lemma SharedHighBit(i: byte, m: byte)
    ensures m & i & 0xE0 == 0 <==>
            !((m & 0x80 != 0 && i & 0x80 != 0) || (m & 0x40 != 0 && i & 0x40 != 0) || (m & 0x20 != 0 && i & 0x20 != 0))
  {
  }

  /** With bit 29 clear in id and mask: a filter that is not faithful misjudges this packet. */
  lemma UnfaithfulTopDiffers(i: byte, m: byte, extended: bool, remote: bool) returns (w: byte)
    requires m & 0x20 == 0 && i & 0x20 == 0 && !FaithfulTop(i, m, extended, remote)
    ensures w & 0x20 == 0 && RawTop(w, i, m, extended, remote) != MeantTop(w, i, m, extended, remote)
  {
    if m & i & 0xE0 != 0 {
      w := FlagByte(i & 0x1F, extended || i & 0x80 != 0, remote || i & 0x40 != 0);
      OwnIdAgrees(w, i, m, extended, remote);
      HighIdIsNeverMeant(w, i, m, extended, remote);
    } else {
      w := FlagByte(i & 0x1F, true, true);
      SharedHighBit(i, m);
      FlaggedIdIsMeant(w, i, m, extended, remote);
      UnaskedFlagDisagrees(w, i, m, extended, remote);
    }
  }

  lemma ZeroDisagrees(i: byte, m: byte, extended: bool, remote: bool)
    requires m & 0x20 == 0 && m & i & 0xE0 != 0
    ensures !RawTop(0, i, m, extended, remote)
  {
  }

  lemma PlainIdIsMeant(w: byte, i: byte, m: byte, extended: bool, remote: bool)
    requires m & i & 0xE0 == 0 && w == FlagByte(i & 0x1F, extended, remote)
    ensures w & 0x20 == 0 && MeantTop(w, i, m, extended, remote)
  {
  }

  lemma PlainIdAgrees(w: byte, i: byte, m: byte, extended: bool, remote: bool)
    requires m & i & 0xE0 == 0 && w == FlagByte(i & 0x1F, extended, remote)
    ensures RawTop(w, i, m, extended, remote)
  {
  }

  /** An inverted filter misjudges this packet: the kernel passes it if and only if the ids disagree. */
  lemma InvertedTopDiffers(i: byte, m: byte, extended: bool, remote: bool) returns (w: byte)
    requires m & 0x20 == 0 && i & 0x20 != 0
    ensures w & 0x20 == 0 && RawTop(w, i, m, extended, remote) == MeantTop(w, i, m, extended, remote)
  {
    if m & i & 0xE0 != 0 {
      w := 0;
      ZeroDisagrees(i, m, extended, remote);
      HighIdIsNeverMeant(w, i, m, extended, remote);
    } else {
      w := FlagByte(i & 0x1F, extended, remote);
      PlainIdIsMeant(w, i, m, extended, remote);
      PlainIdAgrees(w, i, m, extended, remote);
    }
  }

  /** A faithful filter means on the wire what it says: for data packets both readings agree. */
  lemma FaithfulAgrees(f: CanFilter, word: Word)
    requires Faithful(f) && !ErrorBit(word)
    ensures RawAccepts(RawFilterOf(f), word) <==> AcceptsWord(f, word)
  {
    RawParts(f, word);
    MeantParts(f, word);
    if ErrorBit(f.mask) {
      SharedHighBit(f.id.b3, f.mask.b3);
      HighIdIsNeverMeant(word.b3, f.id.b3, f.mask.b3, f.extendedId, f.remoteFrame);
    } else {
      FaithfulTopAgrees(word.b3, f.id.b3, f.mask.b3, f.extendedId, f.remoteFrame);
    }
  }

  lemma LowBytesAlike(f: CanFilter, top: byte)
    ensures LowBytesAgree(f, f.id.(b3 := top))
  {
  }

  /** The most significant byte of a packet an unfaithful filter misjudges. */
  lemma MisjudgedTop(i: byte, m: byte, extended: bool, remote: bool) returns (w: byte)
    requires if m & 0x20 != 0 then m & i & 0xE0 == 0 else i & 0x20 != 0 || !FaithfulTop(i, m, extended, remote)
    ensures w & 0x20 == 0
    ensures MeantTop(w, i, m, extended, remote) !=
            (m & 0x20 == 0 && RawTop(w, i, m, extended, remote) == (i & 0x20 == 0))
  {
    if m & 0x20 != 0 {
      w := FlagByte(i & 0x1F, true, true);
      FlaggedIdIsMeant(w, i, m, extended, remote);
    } else if i & 0x20 != 0 {
      w := InvertedTopDiffers(i, m, extended, remote);
    } else {
      w := UnfaithfulTopDiffers(i, m, extended, remote);
    }
  }

  /** Any other filter misjudges some data packet. */
  lemma UnfaithfulDiffers(f: CanFilter) returns (word: Word)
    requires !Faithful(f)
    ensures !ErrorBit(word)
    ensures RawAccepts(RawFilterOf(f), word) != AcceptsWord(f, word)
  {
    SharedHighBit(f.id.b3, f.mask.b3);
    var top := MisjudgedTop(f.id.b3, f.mask.b3, f.extendedId, f.remoteFrame);
    word := f.id.(b3 := top);
    RawParts(f, word);
    MeantParts(f, word);
    LowBytesAlike(f, top);
  }

  /** A single filter is translated correctly for all data packets exactly if it is faithful. */
  lemma FaithfulIsExact(f: CanFilter)
    ensures Faithful(f) <==>
            forall word :: !ErrorBit(word) ==> (RawAccepts(RawFilterOf(f), word) <==> AcceptsWord(f, word))
  {
    if Faithful(f) {
      forall word | !ErrorBit(word) ensures RawAccepts(RawFilterOf(f), word) <==> AcceptsWord(f, word) {
        FaithfulAgrees(f, word);
      }
    } else {
      var word := UnfaithfulDiffers(f);
    }
  }

  /** With a mask of at most 29 bits a filter is translated correctly exactly if its id leaves bit 29 clear. */
  lemma PlainFiltersAreFaithful(f: CanFilter)
    requires IdBits(f.mask) == f.mask
    ensures Faithful(f) <==> !ErrorBit(f.id)
  {
    LowId(f.mask);
  }

  lemma ExtendedCopy(word: Word)
    ensures var copy := IdWord(word, true, false);
            && IdBits(copy) == IdBits(word)
            && (ErrorBit(copy) <==> ErrorBit(word)) && (RemoteBit(copy) <==> RemoteBit(word))
  {
  }

  /** A filter that does not ask for extended frames does not shut them out either: it takes both kinds alike. */
  lemma StandardFilterAdmitsExtended(f: CanFilter, word: Word)
    requires Faithful(f) && !f.extendedId && !ErrorBit(word)
    ensures RawAccepts(RawFilterOf(f), word) <==> RawAccepts(RawFilterOf(f), IdWord(word, true, false))
  {
    ExtendedCopy(word);
    FaithfulAgrees(f, word);
    FaithfulAgrees(f, IdWord(word, true, false));
  }

  /**
   Bit 31 of the mask is set without that of the id; or the filter passes no data packet at all; or it is inverted, and
   what it compares is the same for all extended packets.
   */
  predicate ShutsOutExtended(f: CanFilter) {
    || ErrorBit(f.mask)
    || (!ErrorBit(f.id) && ExtendedBit(f.mask) && !ExtendedBit(f.id))
    || (&& ErrorBit(f.id) && !f.remoteFrame
        && f.mask.(b3 := f.mask.b3 & 0x7F) == Word(0, 0, 0, 0) && (ExtendedBit(f.mask) ==> ExtendedBit(f.id)))
  }

  lemma NoneShutOut(i: byte, m: byte, remote: bool, top: byte)
    requires m & 0x20 == 0 && (m & 0x80 != 0 ==> i & 0x80 != 0)
    requires top == FlagByte(i & 0x1F, true, remote || i & 0x40 != 0)
    ensures top & 0x80 != 0 && top & 0x20 == 0 && RawTop(top, i, m, false, remote)
  {
  }

  lemma ExtendedShutOut(w: byte, i: byte, m: byte, remote: bool)
    requires w & 0x80 != 0 && m & 0x80 != 0 && i & 0x80 == 0
    ensures !RawTop(w, i, m, false, remote)
  {
  }

  lemma EmptyMaskAgrees(w: byte, i: byte, m: byte)
    requires w & 0x80 != 0 && m & 0x7F == 0 && (m & 0x80 != 0 ==> i & 0x80 != 0)
    ensures RawTop(w, i, m, false, false)
  {
  }

  lemma OppositeByte(i: byte, m: byte) returns (w: byte)
    ensures w & m == i & m ==> m == 0
  {
    w := !i;
  }

  /** A packet whose low bytes agree with the filter only if the mask looks at none of them. */
  lemma OppositeWord(f: CanFilter, top: byte) returns (word: Word)
    ensures word.b3 == top
    ensures LowBytesAgree(f, word) ==> f.mask.b0 == 0 && f.mask.b1 == 0 && f.mask.b2 == 0
  {
    var w0 := OppositeByte(f.id.b0, f.mask.b0);
    var w1 := OppositeByte(f.id.b1, f.mask.b1);
    var w2 := OppositeByte(f.id.b2, f.mask.b2);
    word := Word(w0, w1, w2, top);
  }

  lemma OppositeTop(i: byte, m: byte, remote: bool) returns (top: byte)
    requires m & 0x20 == 0
    ensures top & 0x80 != 0 && top & 0x20 == 0
    ensures RawTop(top, i, m, false, remote) ==> !remote && m & 0x7F == 0 && (m & 0x80 != 0 ==> i & 0x80 != 0)
  {
    top := (!i & 0x1F) | 0x80 | (if remote || i & 0x40 != 0 then 0 else 0x40);
  }

  lemma InvertedPassesOpposite(f: CanFilter) returns (word: Word)
    requires ErrorBit(f.id) && !f.extendedId && !ShutsOutExtended(f)
    ensures !ErrorBit(word) && ExtendedBit(word) && RawAccepts(RawFilterOf(f), word)
  {
    var top := OppositeTop(f.id.b3, f.mask.b3, f.remoteFrame);
    word := OppositeWord(f, top);
    RawParts(f, word);
  }

  lemma PlainPassesOwnId(f: CanFilter) returns (word: Word)
    requires !ErrorBit(f.id) && !f.extendedId && !ShutsOutExtended(f)
    ensures !ErrorBit(word) && ExtendedBit(word) && RawAccepts(RawFilterOf(f), word)
  {
    var top := FlagByte(f.id.b3 & 0x1F, true, f.remoteFrame || f.id.b3 & 0x40 != 0);
    NoneShutOut(f.id.b3, f.mask.b3, f.remoteFrame, top);
    word := f.id.(b3 := top);
    LowBytesAlike(f, top);
    RawParts(f, word);
  }

  lemma NoExtendedPasses(f: CanFilter, word: Word)
    requires !f.extendedId && ShutsOutExtended(f) && ExtendedBit(word)
    ensures !RawAccepts(RawFilterOf(f), word)
  {
    RawParts(f, word);
    if !ErrorBit(f.mask) {
      if ErrorBit(f.id) {
        EmptyMaskAgrees(word.b3, f.id.b3, f.mask.b3);
      } else {
        ExtendedShutOut(word.b3, f.id.b3, f.mask.b3, f.remoteFrame);
      }
    }
  }

  /** Leaving the extended flag of a filter unset keeps extended data packets out exactly under that condition. */
  lemma ExtendedShutOutExactly(f: CanFilter)
    requires !f.extendedId
    ensures ShutsOutExtended(f) <==>
            forall word :: !ErrorBit(word) && ExtendedBit(word) ==> !RawAccepts(RawFilterOf(f), word)
  {
    if ShutsOutExtended(f) {
      forall word | ExtendedBit(word) ensures !RawAccepts(RawFilterOf(f), word) {
        NoExtendedPasses(f, word);
      }
    } else if ErrorBit(f.id) {
      var word := InvertedPassesOpposite(f);
    } else {
      var word := PlainPassesOwnId(f);
    }
  }

  // ---- Filter lists ----

  /** The kernel's filter list, if the session sets one: it does not if no filter is configured. */
  function KernelFilters(filters: seq<CanFilter>): Option<seq<RawFilter>> {
    if filters == [] then None else Some(RawFilters(filters))
  }

  /** A socket without filters of its own gets every data packet; otherwise one filter of the list has to accept. */
  predicate Delivers(setting: Option<seq<RawFilter>>, word: Word) {
    setting.Some? ==> exists i :: 0 <= i < |setting.value| && RawAccepts(setting.value[i], word)
  }

  /** What the configuration asks for: any frame, or those some filter accepts. */
  predicate Wanted(filters: seq<CanFilter>, frame: CanFrame) {
    filters != [] ==> exists i :: 0 <= i < |filters| && Accepts(filters[i], frame)
  }

  /** `Wanted` on the id word of the packet the frame was decoded from. */
  predicate WantedWord(filters: seq<CanFilter>, word: Word) {
    filters != [] ==> exists i :: 0 <= i < |filters| && AcceptsWord(filters[i], word)
  }

  function RawFilters(filters: seq<CanFilter>): (raw: seq<RawFilter>)
    ensures |raw| == |filters|
    ensures forall i :: 0 <= i < |raw| ==> raw[i] == RawFilterOf(filters[i])
  {
    if filters == [] then [] else RawFilters(Init(filters)) + [RawFilterOf(Last(filters))]
  }

  lemma FaithfulListAgrees(filters: seq<CanFilter>, word: Word)
    requires !ErrorBit(word) && forall f :: f in filters ==> Faithful(f)
    ensures Delivers(KernelFilters(filters), word) <==> WantedWord(filters, word)
  {
    forall i | 0 <= i < |filters| ensures RawAccepts(RawFilters(filters)[i], word) <==> AcceptsWord(filters[i], word) {
      FaithfulAgrees(filters[i], word);
    }
  }

  lemma WantedIsWantedWord(filters: seq<CanFilter>, image: seq<byte>)
    requires |image| == CLASSIC_IMAGE_SIZE || |image| == FD_IMAGE_SIZE
    ensures Wanted(filters, Decode(image).value) <==> WantedWord(filters, WordAt(image))
  {
    forall i | 0 <= i < |filters|
      ensures Accepts(filters[i], Decode(image).value) <==> AcceptsWord(filters[i], WordAt(image))
    {
    }
  }

  /** With faithful filters the kernel delivers a data packet exactly if the configuration wants the decoded frame. */
  lemma FilterTranslation(filters: seq<CanFilter>, image: seq<byte>)
    requires |image| == CLASSIC_IMAGE_SIZE || |image| == FD_IMAGE_SIZE
    requires !ErrorBit(WordAt(image)) && forall f :: f in filters ==> Faithful(f)
    ensures Delivers(KernelFilters(filters), WordAt(image)) <==> Wanted(filters, Decode(image).value)
  {
    FaithfulListAgrees(filters, WordAt(image));
    WantedIsWantedWord(filters, image);
  }

  /** The list is translated correctly for all data packets. */
  ghost predicate Translated(filters: seq<CanFilter>) {
    forall word :: !ErrorBit(word) ==> (Delivers(KernelFilters(filters), word) <==> WantedWord(filters, word))
  }

  lemma UnfaithfulAlone(f: CanFilter)
    requires !Faithful(f)
    ensures !Translated([f])
  {
    var word := UnfaithfulDiffers(f);
    var filters := [f];
    assert RawFilters(filters)[0] == RawFilterOf(f);
    assert Delivers(KernelFilters(filters), word) <==> RawAccepts(RawFilters(filters)[0], word);
    assert WantedWord(filters, word) <==> AcceptsWord(filters[0], word);
  }

  /**
   In one list a filter can make up for the mistake of another. Every list drawn from a set of filters is translated
   correctly exactly if all filters of the set are faithful.
   */
  lemma FaithfulListsAreExact(available: set<CanFilter>)
    ensures (forall f :: f in available ==> Faithful(f)) <==>
            (forall filters: seq<CanFilter> :: (forall f :: f in filters ==> f in available) ==> Translated(filters))
  {
    if forall f :: f in available ==> Faithful(f) {
      forall filters: seq<CanFilter>, word |
        (forall f :: f in filters ==> f in available) && !ErrorBit(word)
        ensures Delivers(KernelFilters(filters), word) <==> WantedWord(filters, word)
      {
        FaithfulListAgrees(filters, word);
      }
    } else {
      var f :| f in available && !Faithful(f);
      UnfaithfulAlone(f);
      assert forall g :: g in [f] ==> g in available;
    }
  }
}
