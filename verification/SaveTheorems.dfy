/** What the save codec guarantees: the round trip up to normal form,
    canonicalisation, checksum repair and corruption detection. */
module SaveTheorems {
  import opened Basics
  import opened BitPacking
  import opened SaveNames
  import opened SaveLayout

  // ---------------------------------------------------------------------
  // Adventure slots
  // ---------------------------------------------------------------------

  /** An erased slot never passes its checksum. */
  lemma ErasedIsNotValid(b: seq<u8>)
    requires |b| == SLOT_SIZE && Erased(b)
    ensures !ValidBlock(b)
  {
    ChecksumNeverWraps(b[2..]);
  }

  lemma StoredValuesOfSlotBytes(s: AdventureSlot)
    ensures StoredValues(SlotBytes(s)) == SlotValues(s)
  {
    SlotWidthsTotal();
    SlotValuesFit(s);
    hide SlotWidths, SlotValues, Total, Flat, Parse, Fits, BytesBits, BitsBytes;
    BytesBitsOfBitsBytes(Flat(SlotWidths(), SlotValues(s)));
    ParseFlat(SlotWidths(), SlotValues(s));
  }

  lemma NormalSlotOfValues(s: AdventureSlot)
    ensures SlotShaped(SlotValues(s)) && SlotOfValues(SlotValues(s)) == NormalSlot(s)
  {
    SlotValuesFit(s);
    NameRoundTrip(s.name);
    hide SlotShaped, NormalName, DecodedName, EncodedName;
    var vs := SlotValues(s);
    assert vs[..34] == Clamped(s.courseStatus, 3) && vs[37..43] == Clamped(s.balloons, 127);
    assert vs[45..51] == s.worldFlags;
  }

  lemma SlotRoundTrip(s: AdventureSlot)
    ensures SlotOfBytes(SlotBytes(s)) == Some(NormalSlot(s))
  {
    hide NormalSlot, SlotValues, StoredValues, SlotBytes, SlotOfValues, ValidBlock, SlotShaped;
    if Erased(SlotBytes(s)) { ErasedIsNotValid(SlotBytes(s)); }
    StoredValuesOfSlotBytes(s);
    NormalSlotOfValues(s);
  }

  /** Only the name code can change when stored values are decoded and packed again. */
  lemma ValuesOfSlot(vs: seq<nat>)
    requires SlotShaped(vs)
    ensures |vs| == 55 && vs[53] < 0x1_0000
    ensures SlotValues(SlotOfValues(vs)) == vs[53 := EncodedName(DecodedName(vs[53]))]
  {
    hide SlotShaped, DecodedName, EncodedName, Clamped;
    SlotRanges(vs);
    var s := SlotOfValues(vs);
    ClampedSmall(s.courseStatus, 3);
    ClampedSmall(s.balloons, 127);
    SplitValues(vs, EncodedName(s.name));
  }

  lemma SplitValues(vs: seq<nat>, code: nat)
    requires |vs| == 55
    ensures vs[..34] + [vs[34]] + [vs[35]] + [vs[36]] + vs[37..43] + [vs[43]] + [vs[44]] + vs[45..51]
            + [vs[51]] + [vs[52]] + [code] + [vs[54]] == vs[53 := code]
  {
    assert vs[..34] + [vs[34]] + [vs[35]] + [vs[36]] == vs[..37];
    assert vs[..37] + vs[37..43] + [vs[43]] + [vs[44]] == vs[..45];
    assert vs[..45] + vs[45..51] + [vs[51]] + [vs[52]] == vs[..53];
  }

  /** A checksummed slot is written back unchanged exactly when its name code is canonical. */
  lemma SlotCanonical(b: seq<u8>)
    requires |b| == SLOT_SIZE && ValidBlock(b)
    ensures SlotBytes(SlotOfValues(StoredValues(b))) == b <==> CanonicalCode(StoredName(b))
  {
    hide SlotOfValues, SlotShaped, ValidBlock, SlotBytes, SlotValues, StoredValues, CanonicalCode, EncodedName;
    var vs := StoredValues(b);
    var s := SlotOfValues(vs);
    ValuesOfSlot(vs);
    CodeRoundTrip(vs[53]);
    StoredValuesOfSlotBytes(s);
    if SlotValues(s) == vs { SlotBytesOfStored(b, s); }
  }

  lemma SlotBytesOfStored(b: seq<u8>, s: AdventureSlot)
    requires |b| == SLOT_SIZE && ValidBlock(b) && SlotValues(s) == StoredValues(b)
    ensures SlotBytes(s) == b
  {
    hide SlotWidths, SlotValues, Total, Flat, Parse, Fits, BytesBits, BitsBytes, SlotOfValues, SlotShaped, ValidBlock;
    SlotWidthsTotal();
    SealedUnique(b);
    FlatParse(SlotWidths(), BytesBits(b[2..]));
    BitsBytesOfBytesBits(b[2..]);
  }

  /** A block that passes its checksum is its payload, sealed. */
  lemma SealedUnique(b: seq<u8>)
    requires |b| >= 2 && ValidBlock(b)
    ensures Sealed(b[2..]) == b
  {
    var s := Sealed(b[2..]);
    assert s[2..] == b[2..];
    assert s[0] == b[0] && s[1] == b[1];
    assert forall i :: 2 <= i < |b| ==> s[i] == s[2..][i - 2] == b[i];
  }

  lemma DecodedSlotIsNormal(b: seq<u8>)
    requires |b| == SLOT_SIZE && SlotOfBytes(b).Some?
    ensures NormalSlot(SlotOfBytes(b).value) == SlotOfBytes(b).value
  {
    hide NormalSlot, SlotOfValues, SlotShaped, StoredValues, ValidBlock;
    if Erased(b) { BlankSlotIsNormal(); } else { ShapedSlotIsNormal(StoredValues(b)); }
  }

  lemma BlankSlotIsNormal()
    ensures NormalSlot(BlankSlot()) == BlankSlot()
  {
    assert Sanitised("") == "";
    var z := BlankSlot();
    assert Clamped(z.courseStatus, 3) == z.courseStatus && Clamped(z.balloons, 127) == z.balloons;
  }

  lemma ShapedSlotIsNormal(vs: seq<nat>)
    requires SlotShaped(vs)
    ensures NormalSlot(SlotOfValues(vs)) == SlotOfValues(vs)
  {
    hide NormalName, DecodedName, SlotShaped, Clamped;
    SlotRanges(vs);
    DecodedNameIsNormal(vs[53]);
    var s := SlotOfValues(vs);
    ClampedSmall(s.courseStatus, 3);
    ClampedSmall(s.balloons, 127);
  }

  // ---------------------------------------------------------------------
  // Global settings
  // ---------------------------------------------------------------------

  lemma {:induction false} LsbRoundTrip(s: seq<bool>, more: nat)
    ensures LsbBits(LsbValue(s) + Pow2(|s|) * more, |s|) == s
  {
    if s == [] {
    } else {
      LsbRoundTrip(s[1..], more);
      var rest := LsbValue(s[1..]) + Pow2(|s| - 1) * more;
      DoubleProduct(Pow2(|s| - 1), more);
      assert LsbValue(s) + Pow2(|s|) * more == 2 * rest + Digit(s[0]);
      Halves(rest, Digit(s[0]));
    }
  }

  /** A number is its low bits plus the rest, shifted back. */
  lemma {:induction false} LsbBitsValue(v: nat, n: nat)
    ensures v == LsbValue(LsbBits(v, n)) + Pow2(n) * Shr(v, n)
  {
    if n == 0 {
    } else {
      var h := v / 2;
      LsbBitsValue(h, n - 1);
      ShrStep(v, n);
      DoubleProduct(Pow2(n - 1), Shr(h, n - 1));
      hide Shr;
      assert LsbBits(v, n)[1..] == LsbBits(h, n - 1);
    }
  }

  lemma Pow2Twenty()
    ensures Pow2(20) == 0x10_0000
  {
    assert Pow2(8) == 0x100;
    assert Pow2(16) == 0x1_0000;
  }

  /** The config payload as independent parts: bits 0-3, the trials, bits 24 and 25, and the rest. */
  function Compose(low: nat, trials: nat, b24: nat, b25: nat, rest: nat): (p: nat) {
    low + 16 * trials + 0x100_0000 * b24 + 0x200_0000 * b25 + 0x400_0000 * rest
  }

  lemma ComposeLow(low: nat, trials: nat, b24: nat, b25: nat, rest: nat)
    requires low < 16
    ensures var p := Compose(low, trials, b24, b25, rest);
            p % 16 == low && p / 16 == trials + 0x10_0000 * (b24 + 2 * b25 + 4 * rest)
  {
    Cut4(low, trials + 0x10_0000 * (b24 + 2 * b25 + 4 * rest));
  }

  lemma ComposeBit24(low: nat, trials: nat, b24: nat, b25: nat, rest: nat)
    requires low < 16 && trials < 0x10_0000 && b24 < 2
    ensures Compose(low, trials, b24, b25, rest) / 0x100_0000 % 2 == b24
  {
    Cut24(low + 16 * trials, b24 + 2 * b25 + 4 * rest);
    Halves(b25 + 2 * rest, b24);
  }

  lemma ComposeBit25(low: nat, trials: nat, b24: nat, b25: nat, rest: nat)
    requires low < 16 && trials < 0x10_0000 && b24 < 2 && b25 < 2
    ensures Compose(low, trials, b24, b25, rest) / 0x200_0000 % 2 == b25
  {
    Cut25(low + 16 * trials + 0x100_0000 * b24, b25 + 2 * rest);
    Halves(rest, b25);
  }

  lemma ComposeRest(low: nat, trials: nat, b24: nat, b25: nat, rest: nat)
    requires low < 16 && trials < 0x10_0000 && b24 < 2 && b25 < 2
    ensures Compose(low, trials, b24, b25, rest) / 0x400_0000 == rest
  {
    Cut26(low + 16 * trials + 0x100_0000 * b24 + 0x200_0000 * b25, rest);
  }

  lemma ComposeParts(low: nat, trials: nat, b24: nat, b25: nat, rest: nat)
    requires low < 16 && trials < 0x10_0000 && b24 < 2 && b25 < 2 && rest < 0x4000_0000
    ensures var p := Compose(low, trials, b24, b25, rest);
            && p < PAYLOAD_LIMIT
            && p % 16 == low && p / 16 == trials + 0x10_0000 * (b24 + 2 * b25 + 4 * rest)
            && p / 0x100_0000 % 2 == b24 && p / 0x200_0000 % 2 == b25 && p / 0x400_0000 == rest
  {
    assert Compose(low, trials, b24, b25, rest) < PAYLOAD_LIMIT;
    hide Compose;
    ComposeLow(low, trials, b24, b25, rest);
    ComposeBit24(low, trials, b24, b25, rest);
    ComposeBit25(low, trials, b24, b25, rest);
    ComposeRest(low, trials, b24, b25, rest);
  }

  lemma Quarter(p: nat)
    ensures p / 4 == p / 2 / 2
  {
  }

  lemma LowBits(p: nat)
    ensures p % 16 == p % 2 + 2 * (p / 2 % 2) + 4 * (p / 4 % 4)
  {
    var h, q := p / 2, p / 4;
    Quarter(p);
    var a, b, c, d := p % 2, h % 2, q % 4, q / 4;
    assert p == 2 * h + a && h == 2 * q + b && q == 4 * d + c;
    Cut4(a + 2 * b + 4 * c, d);
  }

  lemma LowParts(p: nat, a: nat, b: nat, c: nat)
    requires a < 2 && b < 2 && c < 4 && p % 16 == a + 2 * b + 4 * c
    ensures p % 2 == a && p / 2 % 2 == b && p / 4 % 4 == c
  {
    LowBits(p);
    var x, y, z := p % 2, p / 2 % 2, p / 4 % 4;
    assert x + 2 * y + 4 * z == a + 2 * b + 4 * c;
  }

  lemma PreservedOf(p: nat)
    requires p < PAYLOAD_LIMIT
    ensures PreservedBits(p) == p / 0x100_0000 % 2 * 0x100_0000 + p / 0x400_0000 * 0x400_0000
  {
    assert p % PAYLOAD_LIMIT == p;
  }

  lemma PayloadIsComposed(s: GlobalSettings)
    ensures PayloadOf(s) == Compose(Digit(s.adventureTwo) + 2 * Digit(s.drumstick) + 4 * (s.language % 4),
                                    LsbValue(s.ttTrials), s.preserved / 0x100_0000 % 2, Digit(s.subtitles),
                                    s.preserved % PAYLOAD_LIMIT / 0x400_0000)
  {
    hide LsbValue;
  }

  lemma PreservedParts(v: u64)
    ensures v / 0x100_0000 % 2 < 2 && v % PAYLOAD_LIMIT / 0x400_0000 < 0x4000_0000
    ensures PreservedBits(v) == v / 0x100_0000 % 2 * 0x100_0000 + v % PAYLOAD_LIMIT / 0x400_0000 * 0x400_0000
  {
  }

  lemma SettingsRoundTrip(s: GlobalSettings)
    ensures PayloadOf(s) < PAYLOAD_LIMIT && SettingsOf(PayloadOf(s)) == NormalSettings(s)
  {
    hide LsbValue, LsbBits, PayloadOf, Compose, Pow2, PreservedBits;
    PayloadIsComposed(s);
    Pow2Twenty();
    LsbValueBound(s.ttTrials);
    PreservedParts(s.preserved);
    SettingsOfComposed(PayloadOf(s), s.adventureTwo, s.drumstick, s.language % 4, s.ttTrials,
                       s.preserved / 0x100_0000 % 2, s.subtitles, s.preserved % PAYLOAD_LIMIT / 0x400_0000);
  }

  lemma SettingsOfComposed(p: nat, a: bool, b: bool, c: nat, trials: seq<bool>, b24: nat, b25: bool, rest: nat)
    requires |trials| == 20 && LsbValue(trials) < 0x10_0000 && c < 4 && b24 < 2 && rest < 0x4000_0000
    requires p == Compose(Digit(a) + 2 * Digit(b) + 4 * c, LsbValue(trials), b24, Digit(b25), rest)
    ensures p < PAYLOAD_LIMIT
    ensures SettingsOf(p) == GlobalSettings(a, b, c, trials, b25, b24 * 0x100_0000 + rest * 0x400_0000)
  {
    hide LsbValue, LsbBits, Compose, Pow2, PreservedBits;
    var low := Digit(a) + 2 * Digit(b) + 4 * c;
    ComposeParts(low, LsbValue(trials), b24, Digit(b25), rest);
    Pow2Twenty();
    LsbRoundTrip(trials, b24 + 2 * Digit(b25) + 4 * rest);
    LowParts(p, Digit(a), Digit(b), c);
    PreservedOf(p);
  }

  lemma LsbBitsOf(p: nat)
    ensures LsbValue(LsbBits(p / 16, 20)) == p / 16 % 0x10_0000
  {
    hide LsbValue, LsbBits, Pow2, Shr;
    LsbBitsValue(p / 16, 20);
    Pow2Twenty();
    LsbValueBound(LsbBits(p / 16, 20));
    Cut20(LsbValue(LsbBits(p / 16, 20)), Shr(p / 16, 20));
  }

  /** The fields that a payload decodes to, as numbers. */
  lemma SettingsDigits(p: nat)
    requires p < PAYLOAD_LIMIT
    ensures var s := SettingsOf(p);
            && Digit(s.adventureTwo) == p % 2 && Digit(s.drumstick) == p / 2 % 2 && s.language % 4 == p / 4 % 4
            && Digit(s.subtitles) == p / 0x200_0000 % 2
            && s.ttTrials == LsbBits(p / 16, 20) && s.preserved == PreservedBits(p)
  {
    hide LsbBits, PreservedBits;
  }

  lemma PayloadRoundTrip(p: nat)
    requires p < PAYLOAD_LIMIT
    ensures PayloadOf(SettingsOf(p)) == p
  {
    hide LsbBits, LsbValue, PreservedBits, SettingsOf, Digit;
    SettingsDigits(p);
    LsbBitsOf(p);
    LowBits(p);
    PreservedOf(p);
    PreservedTwice(p);
    TopBits(p);
  }

  lemma PreservedTwice(p: nat)
    requires p < PAYLOAD_LIMIT
    ensures PreservedBits(PreservedBits(p)) == PreservedBits(p)
  {
    PreservedOf(p);
    var b24, rest := p / 0x100_0000 % 2, p / 0x400_0000;
    ComposeParts(0, 0, b24, 0, rest);
    assert Compose(0, 0, b24, 0, rest) == PreservedBits(p);
    PreservedOf(PreservedBits(p));
    hide PreservedBits;
  }

  lemma TopBits(p: nat)
    ensures p == p % 16 + 16 * (p / 16 % 0x10_0000) + 0x100_0000 * (p / 0x100_0000 % 2)
                 + 0x200_0000 * (p / 0x200_0000 % 2) + 0x400_0000 * (p / 0x400_0000)
  {
    var q, h := p / 16, p / 0x100_0000;
    assert q == 0x10_0000 * h + q % 0x10_0000;
    assert p / 0x200_0000 == h / 2;
    assert p / 0x400_0000 == h / 2 / 2;
  }

  lemma {:induction false} BeRoundTrip(v: nat, n: nat)
    requires v < Pow256(n)
    ensures BeValue(BeBytes(v, n)) == v
  {
    if n > 0 {
      BeRoundTrip(v / 256, n - 1);
      assert BeBytes(v, n)[..n - 1] == BeBytes(v / 256, n - 1);
    }
  }

  lemma {:induction false} BeBytesOfValue(s: seq<u8>)
    ensures BeBytes(BeValue(s), |s|) == s
  {
    if s != [] {
      BeBytesOfValue(s[..|s| - 1]);
      assert s == s[..|s| - 1] + [s[|s| - 1]];
      assert BeValue(s) / 256 == BeValue(s[..|s| - 1]) && BeValue(s) % 256 == s[|s| - 1];
    }
  }

  lemma ConfigRoundTrip(s: GlobalSettings)
    ensures SettingsOfBytes(ConfigBytes(s)) == Some(NormalSettings(s))
  {
    SettingsRoundTrip(s);
    hide PayloadOf, SettingsOf, NormalSettings, BeValue, BeBytes;
    var p := PayloadOf(s);
    var c := ConfigChecksum(p);
    assert Pow256(4) == 0x1_0000_0000;
    BeRoundTrip(p + c * PAYLOAD_LIMIT, 8);
    ConfigWord(ConfigBytes(s));
    assert (p + c * PAYLOAD_LIMIT) / PAYLOAD_LIMIT == c && (p + c * PAYLOAD_LIMIT) % PAYLOAD_LIMIT == p;
  }

  /** Every valid config word is written back unchanged. */
  lemma ConfigCanonical(b: seq<u8>)
    requires |b| == 8 && ValidConfig(b)
    ensures BeValue(b[1..]) < PAYLOAD_LIMIT && ConfigBytes(SettingsOf(BeValue(b[1..]))) == b
  {
    hide BeValue, BeBytes, PayloadOf, SettingsOf, NibbleSum;
    ConfigWord(b);
    PayloadRoundTrip(BeValue(b[1..]));
    BeBytesOfValue(b);
  }

  lemma DecodedSettingsAreNormal(b: seq<u8>)
    requires |b| == 8 && SettingsOfBytes(b).Some?
    ensures NormalSettings(SettingsOfBytes(b).value) == SettingsOfBytes(b).value
  {
    var p := BeValue(b[1..]);
    BeValueBound(b[1..]);
    SettingsRoundTrip(SettingsOf(p));
    PayloadRoundTrip(p);
  }

  // ---------------------------------------------------------------------
  // Record blocks
  // ---------------------------------------------------------------------

  lemma RecordPayloadAt(b: RecordBlock, i: nat)
    requires i < RECORD_COUNT
    ensures var p := RecordPayload(b);
            && Be16(p[4 * i], p[4 * i + 1]) == b.records[i].time
            && Be16(p[4 * i + 2], p[4 * i + 3]) == EncodedName(b.records[i].initials)
  {
    hide EncodedName;
    assert (4 * i + 1) / 4 == (4 * i + 2) / 4 == (4 * i + 3) / 4 == i;
  }

  lemma RecordBytesAt(b: RecordBlock, k: nat)
    requires k < 190
    ensures RecordBytes(b)[k + 2] == RecordPayload(b)[k]
  {
    hide RecordPayload, BlockChecksum;
    assert RecordBytes(b)[2..] == RecordPayload(b);
  }

  lemma RecordTail(b: RecordBlock)
    ensures RecordBytes(b)[190..] == b.tail
  {
    var p := RecordPayload(b);
    assert p[188] == b.tail[0] && p[189] == b.tail[1];
    hide RecordBytes, RecordPayload;
    RecordBytesAt(b, 188);
    RecordBytesAt(b, 189);
  }

  /** The two words that are written for record `i`. */
  lemma WrittenRecord(b: RecordBlock, i: nat)
    requires i < RECORD_COUNT
    ensures Be16(RecordBytes(b)[2 + 4 * i], RecordBytes(b)[2 + 4 * i + 1]) == b.records[i].time
    ensures StoredInitials(RecordBytes(b), i) == EncodedName(b.records[i].initials)
  {
    hide RecordBytes, RecordPayload, EncodedName;
    RecordPayloadAt(b, i);
    RecordBytesAt(b, 4 * i);
    RecordBytesAt(b, 4 * i + 1);
    RecordBytesAt(b, 4 * i + 2);
    RecordBytesAt(b, 4 * i + 3);
  }

  lemma RecordsRoundTrip(b: RecordBlock)
    ensures RecordsOfBytes(RecordBytes(b)) == Some(NormalRecords(b))
  {
    hide RecordBytes, ValidBlock, NormalName, DecodedName, EncodedName, StoredInitials, Be16;
    forall i | 0 <= i < RECORD_COUNT
      ensures StoredRecord(RecordBytes(b), i) == Record(b.records[i].time, NormalName(b.records[i].initials))
    {
      WrittenRecord(b, i);
      NameRoundTrip(b.records[i].initials);
    }
    RecordTail(b);
    assert RecordsOfBytes(RecordBytes(b)).value.records == NormalRecords(b).records;
  }

  predicate CanonicalInitials(b: seq<u8>)
    requires |b| == RECORD_BLOCK_SIZE
  {
    forall i :: 0 <= i < RECORD_COUNT ==> CanonicalCode(StoredInitials(b, i))
  }

  /** A valid record block is written back unchanged exactly when all its initials are canonical. */
  lemma RecordsCanonical(b: seq<u8>)
    requires |b| == RECORD_BLOCK_SIZE && ValidBlock(b)
    ensures RecordBytes(RecordsOfBytes(b).value) == b <==> CanonicalInitials(b)
  {
    hide ValidBlock, RecordPayload, StoredInitials, CanonicalCode, RecordsOfBytes;
    DecodedBlock(b);
    var r := RecordsOfBytes(b).value;
    if CanonicalInitials(b) {
      RecordPayloadOfCanonical(b);
      SealedUnique(b);
    }
    if RecordBytes(r) == b {
      forall i | 0 <= i < RECORD_COUNT ensures CanonicalCode(StoredInitials(b, i)) { WrittenInitials(r, i); }
    }
  }

  /** What is written is canonical. */
  lemma WrittenInitials(r: RecordBlock, i: nat)
    requires i < RECORD_COUNT
    ensures CanonicalCode(StoredInitials(RecordBytes(r), i))
  {
    hide RecordBytes, EncodedName, CanonicalCode, StoredInitials;
    WrittenRecord(r, i);
    EncodedCodes(r.records[i].initials);
  }

  /** The four bytes of record `i`. */
  lemma RecordPayloadOfRecord(b: seq<u8>, r: RecordBlock, i: nat)
    requires |b| == RECORD_BLOCK_SIZE && i < RECORD_COUNT && r.records[i] == StoredRecord(b, i)
    requires CanonicalCode(StoredInitials(b, i))
    ensures var p := RecordPayload(r);
            && p[4 * i] == b[4 * i + 2] && p[4 * i + 1] == b[4 * i + 3]
            && p[4 * i + 2] == b[4 * i + 4] && p[4 * i + 3] == b[4 * i + 5]
  {
    hide DecodedName, EncodedName, CanonicalCode, RecordPayload;
    var p := RecordPayload(r);
    CodeRoundTrip(StoredInitials(b, i));
    RecordPayloadAt(r, i);
    Be16Injective(p[4 * i], p[4 * i + 1], b[2 + 4 * i], b[2 + 4 * i + 1]);
    Be16Injective(p[4 * i + 2], p[4 * i + 3], b[2 + 4 * i + 2], b[2 + 4 * i + 3]);
  }

  lemma RecordPayloadTail(b: seq<u8>, r: RecordBlock, k: nat)
    requires |b| == RECORD_BLOCK_SIZE && r.tail == b[190..] && 188 <= k < 190
    ensures RecordPayload(r)[k] == b[k + 2]
  {
  }

  lemma DecodedBlock(b: seq<u8>)
    requires |b| == RECORD_BLOCK_SIZE && ValidBlock(b)
    ensures RecordsOfBytes(b).Some?
    ensures var r := RecordsOfBytes(b).value;
            r.tail == b[190..] && forall i :: 0 <= i < RECORD_COUNT ==> r.records[i] == StoredRecord(b, i)
  {
    hide ValidBlock, StoredRecord;
  }

  lemma RecordPayloadOfCanonical(b: seq<u8>)
    requires |b| == RECORD_BLOCK_SIZE && ValidBlock(b) && CanonicalInitials(b)
    ensures RecordPayload(RecordsOfBytes(b).value) == b[2..]
  {
    hide ValidBlock, StoredRecord, StoredInitials, CanonicalCode, RecordPayload, RecordsOfBytes;
    DecodedBlock(b);
    var r := RecordsOfBytes(b).value;
    forall k | 0 <= k < 190 ensures RecordPayload(r)[k] == b[2..][k] {
      if k >= 188 {
        RecordPayloadTail(b, r, k);
      } else {
        var i := k / 4;
        RecordPayloadOfRecord(b, r, i);
        assert k == 4 * i || k == 4 * i + 1 || k == 4 * i + 2 || k == 4 * i + 3;
      }
    }
  }

  lemma Be16Injective(a: u8, b: u8, c: u8, d: u8)
    requires Be16(a, b) == Be16(c, d)
    ensures a == c && b == d
  {
  }

  lemma DecodedRecordsAreNormal(b: seq<u8>)
    requires |b| == RECORD_BLOCK_SIZE && RecordsOfBytes(b).Some?
    ensures NormalRecords(RecordsOfBytes(b).value) == RecordsOfBytes(b).value
  {
    var r := RecordsOfBytes(b).value;
    hide ValidBlock, NormalName, DecodedName;
    forall i | 0 <= i < RECORD_COUNT ensures NormalName(r.records[i].initials) == r.records[i].initials {
      assert r.records[i] == StoredRecord(b, i);
      DecodedNameIsNormal(StoredInitials(b, i));
    }
    assert NormalRecords(r).records == r.records;
  }
}
