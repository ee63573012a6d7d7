/** The save codec itself: bit cursors, in-place writes and checksum loops,
    each proved against the value that `SaveLayout` assigns to the region. */
module SaveCodec {
  import opened Basics
  import opened BitPacking
  import opened BitCursors
  import opened SaveNames
  import opened SaveLayout

  method ReadBe16(bytes: seq<u8>, offset: nat) returns (value: u16)
    requires offset + 2 <= |bytes|
    ensures value == Be16(bytes[offset], bytes[offset + 1])
  {
    var high: int := bytes[offset];
    value := high * 256 + bytes[offset + 1];
  }

  method WriteBe16(bytes: array<u8>, offset: nat, value: u16)
    requires offset + 2 <= bytes.Length
    modifies bytes
    ensures bytes[..] == Over(old(bytes[..]), offset, Be16Bytes(value))
  {
    bytes[offset] := value / 256;
    bytes[offset + 1] := value % 256;
  }

  method ReadBe64(bytes: seq<u8>, offset: nat) returns (value: nat)
    requires offset + 8 <= |bytes|
    ensures value == BeValue(bytes[offset..offset + 8])
  {
    value := 0;
    for index := 0 to 8
      invariant value == BeValue(bytes[offset..offset + index])
    {
      assert bytes[offset..offset + index + 1][..index] == bytes[offset..offset + index];
      value := value * 256 + bytes[offset + index];
    }
  }

  method WriteBe64(bytes: array<u8>, offset: nat, value: nat)
    requires offset + 8 <= bytes.Length
    modifies bytes
    ensures bytes[..] == Over(old(bytes[..]), offset, BeBytes(value, 8))
  {
    hide Over, BeBytes;
    ghost var before, all := bytes[..], BeBytes(value, 8);
    var rest := value;
    OverNothing(before, offset + 8);
    assert all[8..] == [] && all[..8] == all;
    for index := 0 to 8
      invariant BeBytes(rest, 8 - index) == all[..8 - index]
      invariant bytes[..] == Over(before, offset + 8 - index, all[8 - index..])
    {
      ghost var k := 7 - index;
      LastBeByte(rest, k + 1);
      assert all[..k + 1][..k] == all[..k] && all[..k + 1][k] == all[k];
      OverPrevious(before, offset, all, k);
      ghost var now := bytes[..];
      bytes[offset + 7 - index] := rest % 256;
      assert bytes[..] == now[offset + k := rest % 256];
      rest := rest / 256;
    }
    assert all[0..] == all;
  }

  lemma LastBeByte(v: nat, n: nat)
    requires n > 0
    ensures BeBytes(v, n)[..n - 1] == BeBytes(v / 256, n - 1) && BeBytes(v, n)[n - 1] == v % 256
  {
  }

  method BlockChecksumAt(bytes: seq<u8>, offset: nat, size: nat) returns (checksum: u16)
    requires 2 <= size && offset + size <= |bytes|
    ensures checksum == BlockChecksum(bytes[offset + 2..offset + size])
  {
    var sum: int := 5;
    for index := 2 to size
      invariant sum == 5 + Sum(bytes[offset + 2..offset + index])
    {
      assert bytes[offset + 2..offset + index + 1][..index - 2] == bytes[offset + 2..offset + index];
      sum := sum + bytes[offset + index];
    }
    checksum := sum % 0x1_0000;
  }

  method ConfigChecksumOf(payload: nat) returns (checksum: u8)
    ensures checksum == ConfigChecksum(payload)
  {
    var sum: int, rest := 5, payload;
    for index := 0 to 14
      invariant sum + NibbleSum(rest, 14 - index) == 5 + NibbleSum(payload, 14)
    {
      sum := sum + rest % 16;
      rest := rest / 16;
    }
    checksum := sum % 256;
  }

  // ---------------------------------------------------------------------
  // Adventure slots
  // ---------------------------------------------------------------------

  method AllErased(bytes: seq<u8>) returns (erased: bool)
    ensures erased == Erased(bytes)
  {
    erased := true;
    for index := 0 to |bytes|
      invariant erased == Erased(bytes[..index])
    {
      if bytes[index] != 0xFF {
        assert !Erased(bytes);
        return false;
      }
    }
    assert bytes[..|bytes|] == bytes;
  }

  method DecodeSlot(bytes: seq<u8>, offset: nat) returns (slot: Option<AdventureSlot>)
    requires offset + SLOT_SIZE <= |bytes|
    ensures slot == SlotOfBytes(bytes[offset..offset + SLOT_SIZE])
  {
    hide SlotOfValues, StoredValues, BlockChecksum, Erased, SlotShaped;
    ghost var region := bytes[offset..offset + SLOT_SIZE];
    var erased := AllErased(bytes[offset..offset + SLOT_SIZE]);
    if erased {
      return Some(BlankSlot());
    }
    var stored := ReadBe16(bytes, offset);
    var checksum := BlockChecksumAt(bytes, offset, SLOT_SIZE);
    SliceOfSlice(bytes, offset, offset + SLOT_SIZE, 2, SLOT_SIZE);
    if stored != checksum {
      return None;
    }
    var result := ReadSlotFields(bytes, offset);
    slot := Some(result);
  }

  method ReadSlotFields(bytes: seq<u8>, offset: nat) returns (slot: AdventureSlot)
    requires offset + SLOT_SIZE <= |bytes|
    ensures slot == SlotOfValues(StoredValues(bytes[offset..offset + SLOT_SIZE]))
  {
    hide BytesBits, Parse, Total, Repeat, SlotShaped, BitReader.Valid, StoredValues, SlotOfValues, DecodedName;
    var bits := new BitReader(bytes, offset * 8 + 16);
    var courseStatus, tajFlags, trophies, bosses, balloons := ReadProgress(bits);
    var ttAmulet, wizpigAmulet, worldFlags, keys, cutscenes, packed, reserved := ReadPossessions(bits);
    bits.Holds();
    PayloadRead(bytes, offset, bits.values);
    SlotFromParts(courseStatus, tajFlags, trophies, bosses, balloons, ttAmulet, wizpigAmulet, worldFlags,
                  keys, cutscenes, packed, reserved);
    var name := DecodeName(packed);
    slot := AdventureSlot(courseStatus, tajFlags, trophies, bosses, balloons, ttAmulet, wizpigAmulet, worldFlags,
                          keys, cutscenes, name, reserved);
  }

  method ReadProgress(bits: BitReader)
    returns (courseStatus: seq<nat>, tajFlags: nat, trophies: nat, bosses: nat, balloons: seq<nat>)
    requires bits.Valid() && bits.widths == [] && bits.values == [] && bits.bit + 138 <= 8 * |bits.bytes|
    modifies bits
    ensures bits.Valid() && bits.bit == old(bits.bit) + 138
    ensures |courseStatus| == 34 && |balloons| == 6
    ensures bits.widths == Repeat(2, 34) + [6] + [10] + [12] + Repeat(7, 6)
    ensures bits.values == courseStatus + [tajFlags] + [trophies] + [bosses] + balloons
  {
    hide BytesBits, Parse, Total, FromBits, Repeat, BitReader.Valid;
    courseStatus := bits.ReadEach(34, 2);
    assert bits.widths == Repeat(2, 34) && bits.values == courseStatus;
    tajFlags := bits.Read(6);
    trophies := bits.Read(10);
    bosses := bits.Read(12);
    balloons := bits.ReadEach(6, 7);
  }

  method ReadPossessions(bits: BitReader)
    returns (ttAmulet: nat, wizpigAmulet: nat, worldFlags: seq<nat>, keys: nat, cutscenes: nat,
             packed: nat, reserved: nat)
    requires bits.Valid() && bits.bit + 166 <= 8 * |bits.bytes|
    modifies bits
    ensures bits.Valid() && bits.bit == old(bits.bit) + 166
    ensures |worldFlags| == 6
    ensures bits.widths == old(bits.widths) + [3] + [3] + Repeat(16, 6) + [8] + [32] + [16] + [8]
    ensures bits.values
         == old(bits.values) + [ttAmulet] + [wizpigAmulet] + worldFlags + [keys] + [cutscenes] + [packed] + [reserved]
  {
    hide BytesBits, Parse, Total, FromBits, Repeat, BitReader.Valid;
    ttAmulet := bits.Read(3);
    wizpigAmulet := bits.Read(3);
    worldFlags := bits.ReadEach(6, 16);
    keys := bits.Read(8);
    cutscenes := bits.Read(32);
    packed := bits.Read(16);
    reserved := bits.Read(8);
  }

  lemma SlotFromParts(courseStatus: seq<nat>, tajFlags: nat, trophies: nat, bosses: nat, balloons: seq<nat>,
                      ttAmulet: nat, wizpigAmulet: nat, worldFlags: seq<nat>, keys: nat, cutscenes: nat,
                      packed: nat, reserved: nat)
    requires |courseStatus| == 34 && |balloons| == 6 && |worldFlags| == 6
    requires SlotShaped(courseStatus + [tajFlags] + [trophies] + [bosses] + balloons + [ttAmulet] + [wizpigAmulet]
      + worldFlags + [keys] + [cutscenes] + [packed] + [reserved])
    ensures forall i :: 0 <= i < 34 ==> courseStatus[i] < 0x100
    ensures forall i :: 0 <= i < 6 ==> balloons[i] < 0x100 && worldFlags[i] < 0x1_0000
    ensures tajFlags < 0x100 && trophies < 0x1_0000 && bosses < 0x1_0000 && ttAmulet < 0x100 && wizpigAmulet < 0x100
    ensures keys < 0x100 && cutscenes < 0x1_0000_0000 && packed < 0x1_0000 && reserved < 0x100
    ensures SlotOfValues(courseStatus + [tajFlags] + [trophies] + [bosses] + balloons + [ttAmulet] + [wizpigAmulet]
      + worldFlags + [keys] + [cutscenes] + [packed] + [reserved])
      == AdventureSlot(courseStatus, tajFlags, trophies, bosses, balloons, ttAmulet, wizpigAmulet, worldFlags,
                       keys, cutscenes, DecodedName(packed), reserved)
  {
    var values := courseStatus + [tajFlags] + [trophies] + [bosses] + balloons + [ttAmulet] + [wizpigAmulet]
      + worldFlags + [keys] + [cutscenes] + [packed] + [reserved];
    SlotRanges(values);
    hide DecodedName, SlotShaped;
    assert values[..34] == courseStatus && values[37..43] == balloons && values[45..51] == worldFlags;
  }

  lemma PayloadRead(bytes: seq<u8>, offset: nat, values: seq<nat>)
    requires offset + SLOT_SIZE <= |bytes|
    requires Total(SlotWidths()) == 304
    requires values == Parse(SlotWidths(), BytesBits(bytes)[offset * 8 + 16..offset * 8 + 320])
    ensures values == StoredValues(bytes[offset..offset + SLOT_SIZE])
  {
    hide SlotWidths, Parse, Total, BytesBits, SlotShaped;
    SliceOfSlice(bytes, offset, offset + SLOT_SIZE, 2, SLOT_SIZE);
    BytesBitsSlice(bytes, offset + 2, offset + SLOT_SIZE);
  }

  method EncodeSlot(slot: AdventureSlot, bytes: array<u8>, offset: nat)
    requires offset + SLOT_SIZE <= bytes.Length
    modifies bytes
    ensures bytes[..] == Over(old(bytes[..]), offset, SlotBytes(slot))
  {
    hide SlotWidths, SlotValues, Total, Flat, BitsBytes, Sealed, Zeros, Over;
    SlotWidthsTotal();
    ghost var before, payload := bytes[..], BitsBytes(Flat(SlotWidths(), SlotValues(slot)));
    CopyOver(bytes, offset, Zeros(SLOT_SIZE));
    ghost var zeroed := bytes[..];
    WriteSlotFields(slot, bytes, offset);
    OverHere(zeroed, offset + 2, payload);
    assert bytes[offset + 2..offset + SLOT_SIZE] == bytes[..][offset + 2..offset + SLOT_SIZE];
    SealBlock(bytes, offset, SLOT_SIZE, payload);
    OverThrice(before, offset, Zeros(SLOT_SIZE), 2, payload, Sealed(payload));
  }

  /** Stores the checksum of a payload that is already in place. */
  method SealBlock(bytes: array<u8>, offset: nat, size: nat, ghost payload: seq<u8>)
    requires 2 <= size && offset + size <= bytes.Length
    requires bytes[offset + 2..offset + size] == payload
    modifies bytes
    ensures bytes[..] == Over(old(bytes[..]), offset, Sealed(payload))
  {
    var checksum := BlockChecksumAt(bytes[..], offset, size);
    assert bytes[..][offset + 2..offset + size] == payload;
    WriteBe16(bytes, offset, checksum);
    assert Over(old(bytes[..]), offset, Be16Bytes(checksum)) == Over(old(bytes[..]), offset, Sealed(payload));
  }

  method WriteSlotFields(slot: AdventureSlot, bytes: array<u8>, offset: nat)
    requires offset + SLOT_SIZE <= bytes.Length && Total(SlotWidths()) == 304
    modifies bytes
    ensures bytes[..] == Over(old(bytes[..]), offset + 2, BitsBytes(Flat(SlotWidths(), SlotValues(slot))))
  {
    hide BytesBits, Flat, Total, Repeat, Written, EncodedName, BitWriter.Valid, BitsBytes;
    var bits := new BitWriter(bytes, offset * 8 + 16);
    WriteProgress(slot, bits);
    WritePossessions(slot, bits);
    bits.Holds();
    PayloadWritten(old(bytes[..]), bytes[..], offset, SlotValues(slot));
  }

  method WriteProgress(slot: AdventureSlot, bits: BitWriter)
    requires bits.Valid() && bits.widths == [] && bits.values == [] && bits.bit + 138 <= 8 * bits.bytes.Length
    modifies bits, bits.bytes
    ensures bits.Valid() && bits.bit == old(bits.bit) + 138
    ensures bits.widths == Repeat(2, 34) + [6] + [10] + [12] + Repeat(7, 6)
    ensures bits.values == Clamped(slot.courseStatus, 3) + [slot.tajFlags % 0x40] + [slot.trophies % 0x400]
      + [slot.bosses % 0x1000] + Clamped(slot.balloons, 127)
  {
    hide BytesBits, Flat, Total, Repeat, Written, BitWriter.Valid;
    bits.WriteEach(Clamped(slot.courseStatus, 3), 2);
    assert bits.widths == Repeat(2, 34) && bits.values == Clamped(slot.courseStatus, 3);
    bits.Write(slot.tajFlags % 0x40, 6);
    bits.Write(slot.trophies % 0x400, 10);
    bits.Write(slot.bosses % 0x1000, 12);
    bits.WriteEach(Clamped(slot.balloons, 127), 7);
  }

  method WritePossessions(slot: AdventureSlot, bits: BitWriter)
    requires bits.Valid() && bits.bit + 166 <= 8 * bits.bytes.Length
    modifies bits, bits.bytes
    ensures bits.Valid() && bits.bit == old(bits.bit) + 166
    ensures bits.widths == old(bits.widths) + [3] + [3] + Repeat(16, 6) + [8] + [32] + [16] + [8]
    ensures bits.values == old(bits.values) + [Min(slot.ttAmulet, 7)] + [Min(slot.wizpigAmulet, 7)]
      + slot.worldFlags + [slot.keys] + [slot.cutscenes] + [EncodedName(slot.name)] + [slot.reserved]
  {
    hide BytesBits, Flat, Total, Repeat, Written, EncodedName, BitWriter.Valid;
    bits.Write(Min(slot.ttAmulet, 7), 3);
    bits.Write(Min(slot.wizpigAmulet, 7), 3);
    bits.WriteEach(slot.worldFlags, 16);
    bits.Write(slot.keys, 8);
    bits.Write(slot.cutscenes, 32);
    var packed := EncodeName(slot.name);
    bits.Write(packed, 16);
    bits.Write(slot.reserved, 8);
  }

  lemma PayloadWritten(before: seq<u8>, after: seq<u8>, offset: nat, values: seq<nat>)
    requires |before| == |after| && offset + SLOT_SIZE <= |before|
    requires |values| == 55 && Total(SlotWidths()) == 304
    requires BytesBits(after) == Written(BytesBits(before), offset * 8 + 16, SlotWidths(), values, [])
    ensures after == Over(before, offset + 2, BitsBytes(Flat(SlotWidths(), values)))
  {
    hide SlotWidths, Flat, Total, BytesBits, BitsBytes;
    BitsOver(before, after, offset + 2, offset + SLOT_SIZE, Flat(SlotWidths(), values));
  }

  /** Equal bits mean equal bytes, stretch by stretch. */
  lemma BitsOver(before: seq<u8>, after: seq<u8>, lo: nat, hi: nat, field: seq<bool>)
    requires |before| == |after| && lo <= hi <= |before| && |field| == 8 * (hi - lo)
    requires BytesBits(after) == BytesBits(before)[..8 * lo] + field + BytesBits(before)[8 * hi..]
    ensures after == Over(before, lo, BitsBytes(field))
  {
    hide BytesBits, BitsBytes;
    assert after[..lo] == before[..lo] by {
      BytesBitsSlice(after, 0, lo);
      BytesBitsSlice(before, 0, lo);
      BytesBitsInjective(after[0..lo], before[0..lo]);
    }
    assert after[lo..hi] == BitsBytes(field) by {
      BytesBitsSlice(after, lo, hi);
      BytesBitsOfBitsBytes(field);
      BytesBitsInjective(after[lo..hi], BitsBytes(field));
    }
    assert after[hi..] == before[hi..] by {
      BytesBitsSlice(after, hi, |after|);
      BytesBitsSlice(before, hi, |before|);
      BytesBitsInjective(after[hi..|after|], before[hi..|before|]);
    }
  }

  // ---------------------------------------------------------------------
  // Global settings
  // ---------------------------------------------------------------------

  lemma {:induction false} LsbBitsAt(v: nat, n: nat, i: nat)
    requires i < n
    ensures LsbBits(v, n)[i] == (Shr(v, i) % 2 == 1)
  {
    if i > 0 { LsbBitsAt(v / 2, n - 1, i - 1); }
  }

  lemma ShrFour(v: nat, i: nat)
    ensures Shr(v, 4 + i) == Shr(v / 16, i)
  {
    assert Shr(v, 4 + i) == Shr(v / 2, 3 + i) == Shr(v / 2 / 2, 2 + i);
    assert Shr(v / 2 / 2, 2 + i) == Shr(v / 2 / 2 / 2, 1 + i) == Shr(v / 2 / 2 / 2 / 2, i);
    assert v / 2 / 2 / 2 / 2 == v / 16;
  }

  method DecodeSettings(bytes: seq<u8>, offset: nat) returns (settings: Option<GlobalSettings>)
    requires offset + 8 <= |bytes|
    ensures settings == SettingsOfBytes(bytes[offset..offset + 8])
  {
    var config := ReadBe64(bytes, offset);
    ConfigWord(bytes[offset..offset + 8]);
    var payload := config % PAYLOAD_LIMIT;
    var checksum := ConfigChecksumOf(payload);
    if config / PAYLOAD_LIMIT != checksum {
      return None;
    }
    var trials := DecodeTrials(payload);
    hide LsbBits, BeValue;
    settings := Some(GlobalSettings(payload % 2 == 1, payload / 2 % 2 == 1, payload / 4 % 4, trials,
                                    payload / 0x200_0000 % 2 == 1, PreservedBits(payload)));
  }

  method DecodeTrials(payload: nat) returns (trials: seq<bool>)
    ensures trials == LsbBits(payload / 16, 20)
  {
    hide Shr, LsbBits;
    trials := [];
    for index := 0 to 20
      invariant |trials| == index && forall i :: 0 <= i < index ==> trials[i] == LsbBits(payload / 16, 20)[i]
    {
      LsbBitsAt(payload / 16, 20, index);
      ShrFour(payload, index);
      trials := trials + [Shr(payload, 4 + index) % 2 != 0];
    }
  }

  lemma {:induction false} LsbValueSnoc(s: seq<bool>, b: bool)
    ensures LsbValue(s + [b]) == LsbValue(s) + Digit(b) * Pow2(|s|)
  {
    if s == [] {
      assert s + [b] == [b];
    } else {
      assert (s + [b])[1..] == s[1..] + [b];
      LsbValueSnoc(s[1..], b);
    }
  }

  lemma {:induction false} ShrSplit(t: nat, c: nat, i: nat)
    requires t < Pow2(i)
    ensures Shr(t + c * Pow2(i), i) == c
  {
    if i == 0 {
    } else {
      var q, d, p := t / 2, t % 2, Pow2(i - 1);
      assert t == 2 * q + d && Pow2(i) == 2 * p;
      hide Pow2, Shr;
      DoubleProduct(c, p);
      Halves(q + c * p, d);
      ShrStep(t + c * (2 * p), i);
      ShrSplit(q, c, i - 1);
    }
  }

  /** Bit `4 + i` is still clear when the first `i` trials are set. */
  lemma TrialBitClear(low: nat, t: nat, high: nat, i: nat)
    requires low < 16 && t < Pow2(i) && i < 20
    ensures Shr(low + 16 * t + 0x100_0000 * high, 4 + i) % 2 == 0
  {
    var x := low + 16 * t + 0x100_0000 * high;
    hide Shr, Pow2;
    ShrFour(x, i);
    Cut4(low, t + 0x10_0000 * high);
    HighTrialBits(high, i);
    ShrSplit(t, 2 * (high * Pow2(19 - i)), i);
  }

  lemma HighTrialBits(high: nat, i: nat)
    requires i < 20
    ensures 0x10_0000 * high == 2 * (high * Pow2(19 - i)) * Pow2(i)
  {
    hide Pow2;
    Pow2Add(19 - i, i);
    Pow2Nineteen();
    TwiceProduct(high, Pow2(19 - i), Pow2(i));
    assert 19 - i + i == 19;
  }

  lemma Pow2Nineteen()
    ensures Pow2(19) == 0x8_0000
  {
    assert Pow2(8) == 0x100;
    assert Pow2(16) == 0x1_0000;
  }

  lemma TwiceProduct(x: nat, a: nat, b: nat)
    ensures 2 * (x * a) * b == 2 * (x * (a * b))
  {
    assert x * (a * b) == (x * a) * b;
  }

  function PayloadBase(s: GlobalSettings): (p: nat) {
    PreservedBits(s.preserved) + Digit(s.adventureTwo) + 2 * Digit(s.drumstick) + 4 * (s.language % 4)
    + 0x200_0000 * Digit(s.subtitles)
  }

  function PayloadLow(s: GlobalSettings): (p: nat)
    ensures p < 16
  {
    Digit(s.adventureTwo) + 2 * Digit(s.drumstick) + 4 * (s.language % 4)
  }

  function PayloadHigh(s: GlobalSettings): (p: nat) {
    s.preserved / 0x100_0000 % 2 + 2 * Digit(s.subtitles) + 4 * (s.preserved % PAYLOAD_LIMIT / 0x400_0000)
  }

  /** Everything but the trials lies below bit 4 or at bit 24 and above. */
  lemma PayloadBaseShape(s: GlobalSettings)
    ensures PayloadBase(s) == PayloadLow(s) + 0x100_0000 * PayloadHigh(s)
  {
    var a, b := s.preserved / 0x100_0000 % 2, s.preserved % PAYLOAD_LIMIT / 0x400_0000;
    assert PreservedBits(s.preserved) == a * 0x100_0000 + b * 0x400_0000;
  }

  method EncodePayload(settings: GlobalSettings) returns (payload: nat)
    ensures payload == PayloadOf(settings)
  {
    payload := PreservedBits(settings.preserved) + Digit(settings.adventureTwo) + 2 * Digit(settings.drumstick)
      + 4 * (settings.language % 4) + 0x200_0000 * Digit(settings.subtitles);
    PayloadBaseShape(settings);
    assert settings.ttTrials[..0] == [] && LsbValue([]) == 0;
    hide Shr, SetBit, PreservedBits, PayloadLow, PayloadHigh, LsbValue, Pow2;
    for index := 0 to 20
      invariant payload == PayloadBase(settings) + 16 * LsbValue(settings.ttTrials[..index])
    {
      var trials := settings.ttTrials[..index];
      assert settings.ttTrials[..index + 1] == trials + [settings.ttTrials[index]];
      LsbValueSnoc(trials, settings.ttTrials[index]);
      if settings.ttTrials[index] {
        LsbValueBound(trials);
        TrialBitClear(PayloadLow(settings), LsbValue(trials), PayloadHigh(settings), index);
        SetClearBit(payload, index);
        payload := SetBit(payload, 4 + index);
      }
    }
    assert settings.ttTrials[..20] == settings.ttTrials;
  }

  method EncodeSettings(settings: GlobalSettings, bytes: array<u8>, offset: nat)
    requires offset + 8 <= bytes.Length
    modifies bytes
    ensures bytes[..] == Over(old(bytes[..]), offset, ConfigBytes(settings))
  {
    var payload := EncodePayload(settings);
    var checksum := ConfigChecksumOf(payload);
    hide PayloadOf;
    WriteBe64(bytes, offset, payload + checksum * PAYLOAD_LIMIT);
  }

  lemma SetClearBit(payload: nat, index: nat)
    requires Shr(payload, 4 + index) % 2 == 0
    ensures SetBit(payload, 4 + index) == payload + 16 * Pow2(index)
  {
    Pow2Add(4, index);
    assert Pow2(4) == 16;
  }

  // ---------------------------------------------------------------------
  // Record blocks
  // ---------------------------------------------------------------------

  method DecodeRecords(bytes: seq<u8>, offset: nat) returns (block: Option<RecordBlock>)
    requires offset + RECORD_BLOCK_SIZE <= |bytes|
    ensures block == RecordsOfBytes(bytes[offset..offset + RECORD_BLOCK_SIZE])
  {
    ghost var region := bytes[offset..offset + RECORD_BLOCK_SIZE];
    var stored := ReadBe16(bytes, offset);
    var checksum := BlockChecksumAt(bytes, offset, RECORD_BLOCK_SIZE);
    assert region[2..] == bytes[offset + 2..offset + RECORD_BLOCK_SIZE];
    if stored != checksum {
      return None;
    }
    var records := ReadRecords(bytes, offset);
    hide StoredRecord, BlockChecksum;
    assert records == RecordsOfBytes(region).value.records;
    assert region[190..] == [bytes[offset + 190], bytes[offset + 191]];
    block := Some(RecordBlock(records, [bytes[offset + RECORD_BLOCK_SIZE - 2], bytes[offset + RECORD_BLOCK_SIZE - 1]]));
  }

  method ReadRecords(bytes: seq<u8>, offset: nat) returns (records: seq<Record>)
    requires offset + RECORD_BLOCK_SIZE <= |bytes|
    ensures |records| == RECORD_COUNT
    ensures forall i :: 0 <= i < RECORD_COUNT ==>
      records[i] == StoredRecord(bytes[offset..offset + RECORD_BLOCK_SIZE], i)
  {
    hide StoredRecord, DecodedName, Be16;
    ghost var region := bytes[offset..offset + RECORD_BLOCK_SIZE];
    records := [];
    var cursor := offset + 2;
    for index := 0 to RECORD_COUNT
      invariant cursor == offset + 2 + 4 * index && |records| == index
      invariant forall i :: 0 <= i < index ==> records[i] == StoredRecord(region, i)
    {
      StoredRecordAt(bytes, offset, index);
      var time := ReadBe16(bytes, cursor);
      var packed := ReadBe16(bytes, cursor + 2);
      var initials := DecodeName(packed);
      records := records + [Record(time, initials)];
      cursor := cursor + 4;
    }
  }

  lemma StoredRecordAt(bytes: seq<u8>, offset: nat, i: nat)
    requires offset + RECORD_BLOCK_SIZE <= |bytes| && i < RECORD_COUNT
    ensures var at := offset + 2 + 4 * i;
            StoredRecord(bytes[offset..offset + RECORD_BLOCK_SIZE], i) ==
            Record(Be16(bytes[at], bytes[at + 1]), DecodedName(Be16(bytes[at + 2], bytes[at + 3])))
  {
    hide DecodedName;
  }

  method EncodeRecords(block: RecordBlock, bytes: array<u8>, offset: nat)
    requires offset + RECORD_BLOCK_SIZE <= bytes.Length
    modifies bytes
    ensures bytes[..] == Over(old(bytes[..]), offset, RecordBytes(block))
  {
    hide RecordPayload, Over, Sealed, Zeros;
    ghost var before, payload := bytes[..], RecordPayload(block);
    CopyOver(bytes, offset, Zeros(RECORD_BLOCK_SIZE));
    ghost var zeroed := bytes[..];
    WriteRecordPayload(block, bytes, offset);
    OverHere(zeroed, offset + 2, payload);
    assert bytes[offset + 2..offset + RECORD_BLOCK_SIZE] == bytes[..][offset + 2..offset + RECORD_BLOCK_SIZE];
    SealBlock(bytes, offset, RECORD_BLOCK_SIZE, payload);
    OverThrice(before, offset, Zeros(RECORD_BLOCK_SIZE), 2, payload, Sealed(payload));
  }

  method WriteRecordPayload(block: RecordBlock, bytes: array<u8>, offset: nat)
    requires offset + RECORD_BLOCK_SIZE <= bytes.Length
    modifies bytes
    ensures bytes[..] == Over(old(bytes[..]), offset + 2, RecordPayload(block))
  {
    ghost var before, payload := bytes[..], RecordPayload(block);
    ghost var tail := [block.tail[0], block.tail[1]];
    assert payload == payload[..188] + tail;
    hide RecordPayload;
    WriteRecords(block, bytes, offset + 2);
    bytes[offset + RECORD_BLOCK_SIZE - 2] := block.tail[0];
    bytes[offset + RECORD_BLOCK_SIZE - 1] := block.tail[1];
    assert bytes[..] == Over(Over(before, offset + 2, payload[..188]), offset + 190, tail);
    OverAppend(before, offset + 2, payload[..188], tail);
  }

  method WriteRecords(block: RecordBlock, bytes: array<u8>, from: nat)
    requires from + 188 <= bytes.Length
    modifies bytes
    ensures bytes[..] == Over(old(bytes[..]), from, RecordPayload(block)[..188])
  {
    hide RecordPayload, EncodedName, Over;
    ghost var before, payload := bytes[..], RecordPayload(block);
    var cursor := from;
    OverNothing(before, from);
    assert payload[..0] == [];
    for index := 0 to RECORD_COUNT
      invariant cursor == from + 4 * index
      invariant bytes[..] == Over(before, from, payload[..4 * index])
    {
      RecordChunk(block, index);
      ghost var time := Be16Bytes(block.records[index].time);
      ghost var initials := Be16Bytes(EncodedName(block.records[index].initials));
      OverAppend(before, from, payload[..4 * index], time);
      OverAppend(before, from, payload[..4 * index] + time, initials);
      WriteBe16(bytes, cursor, block.records[index].time);
      var packed := EncodeName(block.records[index].initials);
      WriteBe16(bytes, cursor + 2, packed);
      cursor := cursor + 4;
    }
  }

  lemma RecordChunk(block: RecordBlock, index: nat)
    requires index < RECORD_COUNT
    ensures RecordPayload(block)[..4 * index + 4]
         == RecordPayload(block)[..4 * index] + Be16Bytes(block.records[index].time)
            + Be16Bytes(EncodedName(block.records[index].initials))
  {
    hide EncodedName;
    var p := RecordPayload(block);
    assert (4 * index + 1) / 4 == (4 * index + 2) / 4 == (4 * index + 3) / 4 == index;
  }

  // ---------------------------------------------------------------------
  // Whole images
  // ---------------------------------------------------------------------

  method DecodeSlots(bytes: seq<u8>) returns (result: Result<seq<AdventureSlot>>)
    requires |bytes| == IMAGE_SIZE
    ensures result == SlotsOf(bytes)
  {
    hide SlotOfBytes;
    var slots: seq<AdventureSlot> := [];
    for index := 0 to 3
      invariant |slots| == index
      invariant forall i :: 0 <= i < index ==> SlotOfBytes(Slot(bytes, i)) == Some(slots[i])
    {
      var slot := DecodeSlot(bytes, index * SLOT_SIZE);
      assert Slot(bytes, index) == bytes[index * SLOT_SIZE..index * SLOT_SIZE + SLOT_SIZE];
      if slot.None? {
        return Err(SlotChecksum(index));
      }
      slots := slots + [slot.value];
    }
    assert slots == [slots[0], slots[1], slots[2]];
    result := Ok(slots);
  }

  method Decode(bytes: seq<u8>) returns (result: Result<SaveImage>)
    ensures result == ImageOf(bytes)
  {
    hide SlotsOf, SettingsOfBytes, RecordsOfBytes, Config, FastestLaps, CourseTimes;
    if |bytes| != IMAGE_SIZE {
      return Err(WrongSize);
    }
    RegionSlices(bytes);
    var slots := DecodeSlots(bytes);
    if slots.Err? {
      return Err(slots.error);
    }
    var settings := DecodeSettings(bytes, CONFIG_OFFSET);
    if settings.None? {
      return Err(SettingsChecksum);
    }
    var fastestLaps := DecodeRecords(bytes, FASTEST_LAPS_OFFSET);
    if fastestLaps.None? {
      return Err(RecordsChecksum);
    }
    var courseTimes := DecodeRecords(bytes, COURSE_TIMES_OFFSET);
    if courseTimes.None? {
      return Err(RecordsChecksum);
    }
    result := Ok(SaveImage(slots.value, settings.value, fastestLaps.value, courseTimes.value));
  }

  method Encode(image: SaveImage) returns (bytes: array<u8>)
    ensures fresh(bytes) && bytes[..] == BytesOf(image)
  {
    hide SlotBytes, ConfigBytes, RecordBytes, Over;
    bytes := new u8[IMAGE_SIZE](_ => 0);
    ghost var blank := bytes[..];
    ghost var s0, s1, s2 := SlotBytes(image.slots[0]), SlotBytes(image.slots[1]), SlotBytes(image.slots[2]);
    ghost var config, laps := ConfigBytes(image.settings), RecordBytes(image.fastestLaps);
    EncodeSlot(image.slots[0], bytes, 0);
    EncodeSlot(image.slots[1], bytes, SLOT_SIZE);
    OverAppend(blank, 0, s0, s1);
    EncodeSlot(image.slots[2], bytes, 2 * SLOT_SIZE);
    OverAppend(blank, 0, s0 + s1, s2);
    EncodeSettings(image.settings, bytes, CONFIG_OFFSET);
    OverAppend(blank, 0, s0 + s1 + s2, config);
    EncodeRecords(image.fastestLaps, bytes, FASTEST_LAPS_OFFSET);
    OverAppend(blank, 0, s0 + s1 + s2 + config, laps);
    EncodeRecords(image.courseTimes, bytes, COURSE_TIMES_OFFSET);
    OverAppend(blank, 0, s0 + s1 + s2 + config + laps, RecordBytes(image.courseTimes));
    OverAll(blank, BytesOf(image));
  }
}
