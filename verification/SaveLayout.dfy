/** What each region of the 512-byte EEPROM image means: the regions as values
    and, for each, the value that its bytes hold and the bytes that a value gets. */
module SaveLayout {
  import opened Basics
  import opened BitPacking
  import opened BitCursors
  import opened SaveNames

  const SLOT_SIZE: nat := 0x28
  const RECORD_BLOCK_SIZE: nat := 0xC0
  const RECORD_COUNT: nat := 47
  const CONFIG_OFFSET: nat := 0x78
  const FASTEST_LAPS_OFFSET: nat := 0x80
  const COURSE_TIMES_OFFSET: nat := 0x140
  const IMAGE_SIZE: nat := 0x200

  function Zeros(n: nat): (s: seq<u8>)
    ensures |s| == n
  {
    seq(n, _ => 0)
  }

  function NoTrials(): (s: seq<bool>)
    ensures |s| == 20
  {
    seq(20, _ => false)
  }

  function NoRecords(): (s: seq<Record>)
    ensures |s| == RECORD_COUNT
  {
    seq(RECORD_COUNT, _ => Record(0, ""))
  }

  datatype AdventureSlotData = AdventureSlot(
    courseStatus: seq<u8>, tajFlags: u8, trophies: u16, bosses: u16, balloons: seq<u8>,
    ttAmulet: u8, wizpigAmulet: u8, worldFlags: seq<u16>, keys: u8, cutscenes: u32,
    name: string, reserved: u8)

  type AdventureSlot = s: AdventureSlotData
    | |s.courseStatus| == 34 && |s.balloons| == 6 && |s.worldFlags| == 6
    witness AdventureSlot(Zeros(34), 0, 0, 0, Zeros(6), 0, 0, Zeros(6), 0, 0, "", 0)

  function BlankSlot(): (s: AdventureSlot) {
    AdventureSlot(Zeros(34), 0, 0, 0, Zeros(6), 0, 0, Zeros(6), 0, 0, "", 0)
  }

  datatype GlobalSettingsData = GlobalSettings(
    adventureTwo: bool, drumstick: bool, language: u8, ttTrials: seq<bool>, subtitles: bool, preserved: u64)

  type GlobalSettings = s: GlobalSettingsData | |s.ttTrials| == 20
    witness GlobalSettings(false, false, 0, NoTrials(), false, 0)

  datatype Record = Record(time: u16, initials: string)

  datatype RecordBlockData = RecordBlock(records: seq<Record>, tail: seq<u8>)

  type RecordBlock = b: RecordBlockData | |b.records| == RECORD_COUNT && |b.tail| == 2
    witness RecordBlock(NoRecords(), [0, 0])

  datatype SaveImageData = SaveImage(
    slots: seq<AdventureSlot>, settings: GlobalSettings, fastestLaps: RecordBlock, courseTimes: RecordBlock)

  type SaveImage = i: SaveImageData | |i.slots| == 3
    witness SaveImage([BlankSlot(), BlankSlot(), BlankSlot()],
                      GlobalSettings(false, false, 0, NoTrials(), false, 0),
                      RecordBlock(NoRecords(), [0, 0]),
                      RecordBlock(NoRecords(), [0, 0]))

  function Min(a: nat, b: nat): (m: nat) {
    if a < b then a else b
  }

  // ---------------------------------------------------------------------
  // Checksummed blocks
  // ---------------------------------------------------------------------

  function Sum(s: seq<u8>): (n: nat)
    ensures n <= 255 * |s|
  {
    if s == [] then 0 else Sum(s[..|s| - 1]) + s[|s| - 1]
  }

  function Be16(hi: u8, lo: u8): (v: u16) {
    hi * 256 + lo
  }

  function Be16Bytes(v: u16): (s: seq<u8>)
    ensures |s| == 2
  {
    [v / 256, v % 256]
  }

  lemma Be16OfBytes(v: u16)
    ensures Be16(Be16Bytes(v)[0], Be16Bytes(v)[1]) == v
  {
  }

  /** The checksum of a block whose bytes after the checksum field are `payload`. */
  function BlockChecksum(payload: seq<u8>): (v: u16) {
    (5 + Sum(payload)) % 0x1_0000
  }

  predicate ValidBlock(b: seq<u8>)
    requires |b| >= 2
  {
    Be16(b[0], b[1]) == BlockChecksum(b[2..])
  }

  function Sealed(payload: seq<u8>): (b: seq<u8>)
    ensures |b| == |payload| + 2 && b[2..] == payload
  {
    Be16Bytes(BlockChecksum(payload)) + payload
  }

  lemma SealedIsValid(payload: seq<u8>)
    ensures ValidBlock(Sealed(payload))
  {
    hide BlockChecksum, Be16, Be16Bytes;
    Be16OfBytes(BlockChecksum(payload));
  }

  /** Slot and record checksums never wrap: a slot's is at most 9695 and a record block's at most 48455. */
  lemma ChecksumNeverWraps(payload: seq<u8>)
    requires |payload| <= RECORD_BLOCK_SIZE - 2
    ensures BlockChecksum(payload) == 5 + Sum(payload) <= 5 + 255 * |payload| <= 48455
    ensures |payload| == SLOT_SIZE - 2 ==> BlockChecksum(payload) <= 9695
  {
  }

  // ---------------------------------------------------------------------
  // Adventure slots
  // ---------------------------------------------------------------------

  /** The 55 fields of a slot's payload, in storage order. */
  function SlotWidths(): (ws: seq<nat>)
    ensures |ws| == 55
  {
    Repeat(2, 34) + [6] + [10] + [12] + Repeat(7, 6) + [3] + [3] + Repeat(16, 6) + [8] + [32] + [16] + [8]
  }

  lemma {:induction false} TotalRepeat(w: nat, n: nat)
    ensures Total(Repeat(w, n)) == n * w
  {
    if n > 0 {
      assert Repeat(w, n)[1..] == Repeat(w, n - 1);
      TotalRepeat(w, n - 1);
      assert n * w == (n - 1) * w + w;
    } else {
      assert Repeat(w, n) == [];
    }
  }

  lemma {:induction false} TotalConcat(a: seq<nat>, b: seq<nat>)
    ensures Total(a + b) == Total(a) + Total(b)
  {
    if a == [] {
      assert a + b == b;
    } else {
      assert (a + b)[1..] == a[1..] + b;
      TotalConcat(a[1..], b);
    }
  }

  /** The slot fields fill the 38 bytes behind the checksum exactly. */
  lemma SlotWidthsTotal()
    ensures Total(SlotWidths()) == 304 == 8 * (SLOT_SIZE - 2)
  {
    hide Repeat, Total;
    TotalRepeat(2, 34);
    TotalRepeat(7, 6);
    TotalRepeat(16, 6);
    var a := Repeat(2, 34) + [6] + [10] + [12];
    TotalAppend(Repeat(2, 34), 6);
    TotalAppend(Repeat(2, 34) + [6], 10);
    TotalAppend(Repeat(2, 34) + [6] + [10], 12);
    TotalConcat(a, Repeat(7, 6));
    var b := a + Repeat(7, 6) + [3] + [3];
    TotalAppend(a + Repeat(7, 6), 3);
    TotalAppend(a + Repeat(7, 6) + [3], 3);
    TotalConcat(b, Repeat(16, 6));
    var c := b + Repeat(16, 6);
    TotalAppend(c, 8);
    TotalAppend(c + [8], 32);
    TotalAppend(c + [8] + [32], 16);
    TotalAppend(c + [8] + [32] + [16], 8);
  }

  /** The field values that the encoder packs: clamped, masked and with the name coded. */
  function SlotValues(s: AdventureSlot): (vs: seq<nat>)
    ensures |vs| == 55
  {
    Clamped(s.courseStatus, 3)
    + [s.tajFlags % 0x40] + [s.trophies % 0x400] + [s.bosses % 0x1000]
    + Clamped(s.balloons, 127)
    + [Min(s.ttAmulet, 7)] + [Min(s.wizpigAmulet, 7)]
    + s.worldFlags + [s.keys] + [s.cutscenes] + [EncodedName(s.name)] + [s.reserved]
  }

  function Clamped(xs: seq<u8>, limit: u8): (ys: seq<u8>)
    ensures |ys| == |xs|
  {
    seq(|xs|, i requires 0 <= i < |xs| => Min(xs[i], limit))
  }

  lemma ClampedSmall(xs: seq<u8>, limit: u8)
    requires forall i :: 0 <= i < |xs| ==> xs[i] <= limit
    ensures Clamped(xs, limit) == xs
  {
  }

  /** Values in the range of their field widths. */
  predicate SlotShaped(vs: seq<nat>) {
    |vs| == 55 && Fits(SlotWidths(), vs)
  }

  function SlotOfValues(vs: seq<nat>): (s: AdventureSlot)
    requires SlotShaped(vs)
  {
    SlotRanges(vs);
    AdventureSlot(vs[..34], vs[34], vs[35], vs[36], vs[37..43], vs[43], vs[44], vs[45..51],
                  vs[51], vs[52], DecodedName(vs[53]), vs[54])
  }

  lemma Pow2Constants()
    ensures Pow2(2) == 4 && Pow2(3) == 8 && Pow2(6) == 0x40 && Pow2(7) == 0x80 && Pow2(8) == 0x100
    ensures Pow2(10) == 0x400 && Pow2(12) == 0x1000 && Pow2(16) == 0x1_0000 && Pow2(32) == 0x1_0000_0000
  {
    assert Pow2(8) == 0x100;
    assert Pow2(16) == 0x1_0000;
    assert Pow2(24) == 0x100_0000;
  }

  /** The width of each slot field by its position. */
  function WidthAt(i: nat): (w: nat)
    requires i < 55
  {
    if i < 34 then 2 else if i == 34 then 6 else if i == 35 then 10 else if i == 36 then 12
    else if i < 43 then 7 else if i < 45 then 3 else if i < 51 then 16
    else if i == 51 then 8 else if i == 52 then 32 else if i == 53 then 16 else 8
  }

  lemma SlotWidthAt(i: nat)
    requires i < 55
    ensures SlotWidths()[i] == WidthAt(i)
  {
  }

  lemma SlotRanges(vs: seq<nat>)
    requires SlotShaped(vs)
    ensures |vs| == 55
    ensures forall i :: 0 <= i < 34 ==> vs[i] < 4
    ensures vs[34] < 0x40 && vs[35] < 0x400 && vs[36] < 0x1000
    ensures forall i :: 37 <= i < 43 ==> vs[i] < 0x80
    ensures vs[43] < 8 && vs[44] < 8
    ensures forall i :: 45 <= i < 51 ==> vs[i] < 0x1_0000
    ensures vs[51] < 0x100 && vs[52] < 0x1_0000_0000 && vs[53] < 0x1_0000 && vs[54] < 0x100
  {
    hide SlotWidths, Pow2;
    forall i | 0 <= i < 55 ensures vs[i] < Pow2(WidthAt(i)) { SlotWidthAt(i); }
    Pow2Constants();
  }

  lemma SlotValueAt(s: AdventureSlot, i: nat)
    requires i < 55
    ensures SlotValues(s)[i] < Pow2(WidthAt(i))
  {
    hide Pow2, EncodedName, Clamped;
    Pow2Constants();
    if i < 34 {
      assert SlotValues(s)[i] == Clamped(s.courseStatus, 3)[i] <= 3 by { ClampedAt(s.courseStatus, 3, i); }
    } else if 37 <= i < 43 {
      assert SlotValues(s)[i] == Clamped(s.balloons, 127)[i - 37] <= 127 by { ClampedAt(s.balloons, 127, i - 37); }
    }
  }

  lemma ClampedAt(xs: seq<u8>, limit: u8, i: nat)
    requires i < |xs|
    ensures Clamped(xs, limit)[i] <= limit
  {
  }

  lemma SlotValuesFit(s: AdventureSlot)
    ensures SlotShaped(SlotValues(s))
  {
    hide SlotWidths, SlotValues, Pow2, WidthAt;
    forall i | 0 <= i < 55 ensures SlotValues(s)[i] < Pow2(SlotWidths()[i]) {
      SlotWidthAt(i);
      SlotValueAt(s, i);
    }
  }

  lemma SlotBytesSealed(s: AdventureSlot)
    ensures var bits := Flat(SlotWidths(), SlotValues(s));
            |bits| % 8 == 0 && |Sealed(BitsBytes(bits))| == SLOT_SIZE && ValidBlock(Sealed(BitsBytes(bits)))
  {
    hide SlotWidths, SlotValues, Sealed, ValidBlock;
    SlotWidthsTotal();
    SealedIsValid(BitsBytes(Flat(SlotWidths(), SlotValues(s))));
  }

  function SlotBytes(s: AdventureSlot): (b: seq<u8>)
    ensures |b| == SLOT_SIZE && ValidBlock(b)
  {
    SlotBytesSealed(s);
    Sealed(BitsBytes(Flat(SlotWidths(), SlotValues(s))))
  }

  predicate Erased(b: seq<u8>) {
    forall i :: 0 <= i < |b| ==> b[i] == 0xFF
  }

  /** The field values that a slot's bytes hold. */
  function StoredValues(b: seq<u8>): (vs: seq<nat>)
    requires |b| == SLOT_SIZE
    ensures |vs| == 55 && SlotShaped(vs)
  {
    SlotWidthsTotal();
    FlatParse(SlotWidths(), BytesBits(b[2..]));
    Parse(SlotWidths(), BytesBits(b[2..]))
  }

  function StoredName(b: seq<u8>): (packed: u16)
    requires |b| == SLOT_SIZE
  {
    SlotRanges(StoredValues(b));
    StoredValues(b)[53]
  }

  function SlotOfBytes(b: seq<u8>): (s: Option<AdventureSlot>)
    requires |b| == SLOT_SIZE
  {
    if Erased(b) then Some(BlankSlot())
    else if !ValidBlock(b) then None
    else Some(SlotOfValues(StoredValues(b)))
  }

  /** What a slot becomes after it has been written and read back. */
  function NormalSlot(s: AdventureSlot): (n: AdventureSlot) {
    AdventureSlot(Clamped(s.courseStatus, 3), s.tajFlags % 0x40, s.trophies % 0x400, s.bosses % 0x1000,
                  Clamped(s.balloons, 127), Min(s.ttAmulet, 7), Min(s.wizpigAmulet, 7), s.worldFlags,
                  s.keys, s.cutscenes, NormalName(s.name), s.reserved)
  }

  // ---------------------------------------------------------------------
  // Global settings
  // ---------------------------------------------------------------------

  const PAYLOAD_LIMIT: nat := 0x100_0000_0000_0000

  /** The number whose bits, least significant first, are `s`. */
  function LsbValue(s: seq<bool>): (v: nat) {
    if s == [] then 0 else Digit(s[0]) + 2 * LsbValue(s[1..])
  }

  lemma {:induction false} LsbValueBound(s: seq<bool>)
    ensures LsbValue(s) < Pow2(|s|)
  {
    if s != [] { LsbValueBound(s[1..]); }
  }

  /** The low `n` bits of `v`, least significant first. */
  function LsbBits(v: nat, n: nat): (s: seq<bool>)
    ensures |s| == n
  {
    if n == 0 then [] else [v % 2 == 1] + LsbBits(v / 2, n - 1)
  }

  /** `v & kPreservedConfigBits`: bit 24 and bits 26 to 55. */
  function PreservedBits(v: u64): (r: u64)
    ensures r < PAYLOAD_LIMIT
  {
    v / 0x100_0000 % 2 * 0x100_0000 + v % PAYLOAD_LIMIT / 0x400_0000 * 0x400_0000
  }

  function PayloadOf(s: GlobalSettings): (p: nat) {
    PreservedBits(s.preserved) + Digit(s.adventureTwo) + 2 * Digit(s.drumstick) + 4 * (s.language % 4)
    + 0x200_0000 * Digit(s.subtitles) + 16 * LsbValue(s.ttTrials)
  }

  function SettingsOf(p: nat): (s: GlobalSettings)
    requires p < PAYLOAD_LIMIT
  {
    GlobalSettings(p % 2 == 1, p / 2 % 2 == 1, p / 4 % 4, LsbBits(p / 16, 20),
                   p / 0x200_0000 % 2 == 1, PreservedBits(p))
  }

  function NormalSettings(s: GlobalSettings): (n: GlobalSettings) {
    s.(language := s.language % 4, preserved := PreservedBits(s.preserved))
  }

  function NibbleSum(p: nat, n: nat): (t: nat)
    ensures t <= 15 * n
  {
    if n == 0 then 0 else p % 16 + NibbleSum(p / 16, n - 1)
  }

  function ConfigChecksum(p: nat): (c: u8)
    ensures c == 5 + NibbleSum(p, 14) <= 215
  {
    (5 + NibbleSum(p, 14)) % 256
  }

  /** The number that a byte string spells, most significant byte first. */
  function BeValue(s: seq<u8>): (v: nat) {
    if s == [] then 0 else BeValue(s[..|s| - 1]) * 256 + s[|s| - 1]
  }

  function BeBytes(v: nat, n: nat): (s: seq<u8>)
    ensures |s| == n
  {
    if n == 0 then [] else BeBytes(v / 256, n - 1) + [v % 256]
  }

  function ConfigBytes(s: GlobalSettings): (b: seq<u8>)
    ensures |b| == 8
  {
    BeBytes(PayloadOf(s) + ConfigChecksum(PayloadOf(s)) * PAYLOAD_LIMIT, 8)
  }

  predicate ValidConfig(b: seq<u8>)
    requires |b| == 8
  {
    b[0] == ConfigChecksum(BeValue(b[1..]))
  }

  lemma {:induction false} BeValueBound(s: seq<u8>)
    requires |s| <= 7
    ensures BeValue(s) < PAYLOAD_LIMIT
    ensures |s| == 6 ==> BeValue(s) < 0x1_0000_0000_0000
    ensures |s| == 5 ==> BeValue(s) < 0x100_0000_0000
    ensures |s| == 4 ==> BeValue(s) < 0x1_0000_0000
    ensures |s| == 3 ==> BeValue(s) < 0x100_0000
    ensures |s| == 2 ==> BeValue(s) < 0x1_0000
    ensures |s| == 1 ==> BeValue(s) < 0x100
  {
    if s != [] { BeValueBound(s[..|s| - 1]); }
  }

  function Pow256(n: nat): (p: nat) {
    if n == 0 then 1 else 256 * Pow256(n - 1)
  }

  lemma {:induction false} BeValueCons(x: u8, s: seq<u8>)
    ensures BeValue([x] + s) == x * Pow256(|s|) + BeValue(s)
  {
    if s == [] {
      assert [x] + s == [x];
      assert [x][..0] == [];
    } else {
      var t := s[..|s| - 1];
      assert ([x] + s)[..|s|] == [x] + t;
      BeValueCons(x, t);
      assert x * Pow256(|s|) == 256 * (x * Pow256(|t|));
    }
  }

  /** The config word splits into its checksum byte and a 56-bit payload. */
  lemma ConfigWord(b: seq<u8>)
    requires |b| == 8
    ensures BeValue(b[1..]) < PAYLOAD_LIMIT
    ensures BeValue(b) == b[0] * PAYLOAD_LIMIT + BeValue(b[1..])
    ensures BeValue(b) / PAYLOAD_LIMIT == b[0] && BeValue(b) % PAYLOAD_LIMIT == BeValue(b[1..])
  {
    assert b == [b[0]] + b[1..];
    BeValueCons(b[0], b[1..]);
    assert Pow256(4) == 0x1_0000_0000;
    BeValueBound(b[1..]);
  }

  function SettingsOfBytes(b: seq<u8>): (s: Option<GlobalSettings>)
    requires |b| == 8
  {
    BeValueBound(b[1..]);
    if ValidConfig(b) then Some(SettingsOf(BeValue(b[1..]))) else None
  }

  // ---------------------------------------------------------------------
  // Record blocks
  // ---------------------------------------------------------------------

  function RecordPayload(b: RecordBlock): (payload: seq<u8>)
    ensures |payload| == RECORD_BLOCK_SIZE - 2
  {
    seq(190, k requires 0 <= k < 190 =>
      if k >= 188 then b.tail[k - 188]
      else if k % 4 < 2 then Be16Bytes(b.records[k / 4].time)[k % 4]
      else Be16Bytes(EncodedName(b.records[k / 4].initials))[k % 4 - 2])
  }

  function RecordBytes(b: RecordBlock): (bytes: seq<u8>)
    ensures |bytes| == RECORD_BLOCK_SIZE && ValidBlock(bytes)
  {
    SealedIsValid(RecordPayload(b));
    Sealed(RecordPayload(b))
  }

  function StoredInitials(b: seq<u8>, i: nat): (packed: u16)
    requires |b| == RECORD_BLOCK_SIZE && i < RECORD_COUNT
  {
    Be16(b[2 + 4 * i + 2], b[2 + 4 * i + 3])
  }

  function StoredRecord(b: seq<u8>, i: nat): (r: Record)
    requires |b| == RECORD_BLOCK_SIZE && i < RECORD_COUNT
  {
    Record(Be16(b[2 + 4 * i], b[2 + 4 * i + 1]), DecodedName(StoredInitials(b, i)))
  }

  function RecordsOfBytes(b: seq<u8>): (r: Option<RecordBlock>)
    requires |b| == RECORD_BLOCK_SIZE
  {
    if !ValidBlock(b) then None
    else Some(RecordBlock(
      seq(RECORD_COUNT, i requires 0 <= i < RECORD_COUNT => StoredRecord(b, i)), b[190..]))
  }

  function NormalRecords(b: RecordBlock): (n: RecordBlock) {
    RecordBlock(
      seq(RECORD_COUNT, i requires 0 <= i < RECORD_COUNT =>
        Record(b.records[i].time, NormalName(b.records[i].initials))),
      b.tail)
  }

  // ---------------------------------------------------------------------
  // The whole image
  // ---------------------------------------------------------------------

  datatype DecodeError = WrongSize | SlotChecksum(slot: nat) | SettingsChecksum | RecordsChecksum

  datatype Result<+T> = Ok(value: T) | Err(error: DecodeError)

  function Slot(bytes: seq<u8>, i: nat): (b: seq<u8>)
    requires |bytes| == IMAGE_SIZE && i < 3
    ensures |b| == SLOT_SIZE
  {
    bytes[i * 0x28..i * 0x28 + 0x28]
  }

  function Config(bytes: seq<u8>): (b: seq<u8>)
    requires |bytes| == IMAGE_SIZE
    ensures |b| == 8
  {
    bytes[0x78..0x80]
  }

  function FastestLaps(bytes: seq<u8>): (b: seq<u8>)
    requires |bytes| == IMAGE_SIZE
    ensures |b| == RECORD_BLOCK_SIZE
  {
    bytes[0x80..0x140]
  }

  function CourseTimes(bytes: seq<u8>): (b: seq<u8>)
    requires |bytes| == IMAGE_SIZE
    ensures |b| == RECORD_BLOCK_SIZE
  {
    bytes[0x140..]
  }

  lemma RegionSlices(bytes: seq<u8>)
    requires |bytes| == IMAGE_SIZE
    ensures Config(bytes) == bytes[CONFIG_OFFSET..CONFIG_OFFSET + 8]
    ensures FastestLaps(bytes) == bytes[FASTEST_LAPS_OFFSET..FASTEST_LAPS_OFFSET + RECORD_BLOCK_SIZE]
    ensures CourseTimes(bytes) == bytes[COURSE_TIMES_OFFSET..COURSE_TIMES_OFFSET + RECORD_BLOCK_SIZE]
  {
  }

  function SlotsOf(bytes: seq<u8>): (r: Result<seq<AdventureSlot>>)
    requires |bytes| == IMAGE_SIZE
    ensures r.Ok? ==> |r.value| == 3
  {
    var s0, s1, s2 := SlotOfBytes(Slot(bytes, 0)), SlotOfBytes(Slot(bytes, 1)), SlotOfBytes(Slot(bytes, 2));
    if s0.None? then Err(SlotChecksum(0))
    else if s1.None? then Err(SlotChecksum(1))
    else if s2.None? then Err(SlotChecksum(2))
    else Ok([s0.value, s1.value, s2.value])
  }

  /** The image that a byte string holds, or the first checksum that refuses it. */
  function ImageOf(bytes: seq<u8>): (r: Result<SaveImage>) {
    if |bytes| != IMAGE_SIZE then Err(WrongSize)
    else
      var slots, settings := SlotsOf(bytes), SettingsOfBytes(Config(bytes));
      var laps, times := RecordsOfBytes(FastestLaps(bytes)), RecordsOfBytes(CourseTimes(bytes));
      if slots.Err? then Err(slots.error)
      else if settings.None? then Err(SettingsChecksum)
      else if laps.None? || times.None? then Err(RecordsChecksum)
      else Ok(SaveImage(slots.value, settings.value, laps.value, times.value))
  }

  function BytesOf(image: SaveImage): (bytes: seq<u8>)
    ensures |bytes| == IMAGE_SIZE
  {
    SlotBytes(image.slots[0]) + SlotBytes(image.slots[1]) + SlotBytes(image.slots[2])
    + ConfigBytes(image.settings) + RecordBytes(image.fastestLaps) + RecordBytes(image.courseTimes)
  }

  /** The encoder's clamps and masks, with names cleaned and trimmed. */
  function NormalImage(image: SaveImage): (n: SaveImage) {
    SaveImage([NormalSlot(image.slots[0]), NormalSlot(image.slots[1]), NormalSlot(image.slots[2])],
              NormalSettings(image.settings), NormalRecords(image.fastestLaps), NormalRecords(image.courseTimes))
  }
}
