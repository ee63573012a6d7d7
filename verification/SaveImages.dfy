/** Guarantees about whole 512-byte images. */
module SaveImages {
  import opened Basics
  import opened BitPacking
  import opened SaveNames
  import opened SaveLayout
  import opened SaveTheorems

  // ---------------------------------------------------------------------
  // Regions
  // ---------------------------------------------------------------------

  /** The six regions tile the image. */
  lemma Tiles(bytes: seq<u8>)
    requires |bytes| == IMAGE_SIZE
    ensures bytes == Slot(bytes, 0) + Slot(bytes, 1) + Slot(bytes, 2) + Config(bytes)
                     + FastestLaps(bytes) + CourseTimes(bytes)
  {
    assert Slot(bytes, 0) + Slot(bytes, 1) + Slot(bytes, 2) == bytes[..0x78];
    assert bytes[..0x78] + Config(bytes) + FastestLaps(bytes) == bytes[..0x140];
  }

  lemma RegionsOf(s0: seq<u8>, s1: seq<u8>, s2: seq<u8>, c: seq<u8>, f: seq<u8>, t: seq<u8>)
    requires |s0| == |s1| == |s2| == SLOT_SIZE && |c| == 8 && |f| == |t| == RECORD_BLOCK_SIZE
    ensures var bytes := s0 + s1 + s2 + c + f + t;
            && |bytes| == IMAGE_SIZE
            && Slot(bytes, 0) == s0 && Slot(bytes, 1) == s1 && Slot(bytes, 2) == s2
            && Config(bytes) == c && FastestLaps(bytes) == f && CourseTimes(bytes) == t
  {
  }

  lemma RegionsOfImage(image: SaveImage)
    ensures var bytes := BytesOf(image);
            && Slot(bytes, 0) == SlotBytes(image.slots[0]) && Slot(bytes, 1) == SlotBytes(image.slots[1])
            && Slot(bytes, 2) == SlotBytes(image.slots[2]) && Config(bytes) == ConfigBytes(image.settings)
            && FastestLaps(bytes) == RecordBytes(image.fastestLaps)
            && CourseTimes(bytes) == RecordBytes(image.courseTimes)
  {
    hide SlotBytes, ConfigBytes, RecordBytes;
    RegionsOf(SlotBytes(image.slots[0]), SlotBytes(image.slots[1]), SlotBytes(image.slots[2]),
              ConfigBytes(image.settings), RecordBytes(image.fastestLaps), RecordBytes(image.courseTimes));
  }

  // ---------------------------------------------------------------------
  // Round trip and canonical form
  // ---------------------------------------------------------------------

  /** Encoding then decoding any image succeeds and yields its normal form. */
  lemma ImageRoundTrip(image: SaveImage)
    ensures ImageOf(BytesOf(image)) == Ok(NormalImage(image))
  {
    hide BytesOf, SlotBytes, ConfigBytes, RecordBytes, NormalSlot, NormalSettings, NormalRecords,
      SlotOfBytes, SettingsOfBytes, RecordsOfBytes, Slot, Config, FastestLaps, CourseTimes;
    RegionsOfImage(image);
    SlotRoundTrip(image.slots[0]);
    SlotRoundTrip(image.slots[1]);
    SlotRoundTrip(image.slots[2]);
    ConfigRoundTrip(image.settings);
    RecordsRoundTrip(image.fastestLaps);
    RecordsRoundTrip(image.courseTimes);
  }

  /** The images that the encoder neither clamps, masks nor trims. */
  predicate NormalForm(image: SaveImage) {
    && (forall i :: 0 <= i < 3 ==> NormalFormSlot(image.slots[i]))
    && NormalFormSettings(image.settings)
    && NormalFormRecords(image.fastestLaps) && NormalFormRecords(image.courseTimes)
  }

  predicate NormalFormSlot(s: AdventureSlot) {
    && (forall i :: 0 <= i < 34 ==> s.courseStatus[i] <= 3) && (forall i :: 0 <= i < 6 ==> s.balloons[i] <= 127)
    && s.tajFlags < 0x40 && s.trophies < 0x400 && s.bosses < 0x1000 && s.ttAmulet <= 7 && s.wizpigAmulet <= 7
    && StorableName(s.name)
  }

  /** The preserved word keeps bit 24 and bits 26 to 55: the bits below belong to other fields, the top byte to the
      checksum. */
  predicate NormalFormSettings(s: GlobalSettings) {
    s.language <= 3 && s.preserved < PAYLOAD_LIMIT && s.preserved % 0x100_0000 == 0 && s.preserved / 0x200_0000 % 2 == 0
  }

  predicate NormalFormRecords(b: RecordBlock) {
    forall i :: 0 <= i < RECORD_COUNT ==> StorableName(b.records[i].initials)
  }

  lemma NormalFormSlotExactly(s: AdventureSlot)
    ensures NormalSlot(s) == s <==> NormalFormSlot(s)
  {
    hide NormalName, StorableName;
    NormalNameExactly(s.name);
    var n := NormalSlot(s);
    if NormalFormSlot(s) {
      ClampedSmall(s.courseStatus, 3);
      ClampedSmall(s.balloons, 127);
    }
    if n == s {
      assert forall i :: 0 <= i < 34 ==> n.courseStatus[i] <= 3;
      assert forall i :: 0 <= i < 6 ==> n.balloons[i] <= 127;
    }
  }

  lemma TwentyFifthBit(v: nat)
    ensures v / 0x200_0000 == v / 0x100_0000 / 2
  {
  }

  lemma TwentySixthBit(v: nat)
    ensures v / 0x400_0000 == v / 0x100_0000 / 4
  {
  }

  lemma SkippedBit(w: nat)
    ensures w % 2 + w / 4 * 4 == w <==> w / 2 % 2 == 0
  {
    Quarter(w);
    var h, q := w / 2, w / 4;
    assert w == 2 * h + w % 2 && h == 2 * q + h % 2;
  }

  lemma PreservedExactly(v: u64)
    ensures PreservedBits(v) == v <==> v < PAYLOAD_LIMIT && v % 0x100_0000 == 0 && v / 0x200_0000 % 2 == 0
  {
    hide PreservedBits;
    if v < PAYLOAD_LIMIT {
      PreservedOf(v);
      TwentyFifthBit(v);
      TwentySixthBit(v);
      var w, r := v / 0x100_0000, v % 0x100_0000;
      assert v == w * 0x100_0000 + r;
      var kept := w % 2 + w / 4 * 4;
      assert PreservedBits(v) == kept * 0x100_0000;
      SkippedBit(w);
      Cut24(r, w);
    }
  }

  lemma NormalFormSettingsExactly(s: GlobalSettings)
    ensures NormalSettings(s) == s <==> NormalFormSettings(s)
  {
    hide PreservedBits;
    PreservedExactly(s.preserved);
  }

  lemma NormalFormRecordsExactly(b: RecordBlock)
    ensures NormalRecords(b) == b <==> NormalFormRecords(b)
  {
    hide NormalName, StorableName;
    forall i | 0 <= i < RECORD_COUNT
      ensures NormalName(b.records[i].initials) == b.records[i].initials <==> StorableName(b.records[i].initials)
    {
      NormalNameExactly(b.records[i].initials);
    }
    var n := NormalRecords(b);
    if NormalFormRecords(b) { assert n.records == b.records; }
    if n == b { assert forall i :: 0 <= i < RECORD_COUNT ==> n.records[i] == b.records[i]; }
  }

  lemma NormalFormExactly(image: SaveImage)
    ensures NormalImage(image) == image <==> NormalForm(image)
  {
    hide NormalSlot, NormalSettings, NormalRecords, NormalFormSlot, NormalFormSettings, NormalFormRecords;
    NormalFormSlotExactly(image.slots[0]);
    NormalFormSlotExactly(image.slots[1]);
    NormalFormSlotExactly(image.slots[2]);
    NormalFormSettingsExactly(image.settings);
    NormalFormRecordsExactly(image.fastestLaps);
    NormalFormRecordsExactly(image.courseTimes);
    assert image.slots == [image.slots[0], image.slots[1], image.slots[2]];
  }

  /** An image comes back unchanged exactly when it is in normal form. */
  lemma RoundTripExactly(image: SaveImage)
    ensures ImageOf(BytesOf(image)) == Ok(image) <==> NormalForm(image)
  {
    hide ImageOf, BytesOf, NormalImage, NormalForm;
    ImageRoundTrip(image);
    NormalFormExactly(image);
  }

  /** A decoded image is already in normal form, so encoding it and decoding again returns it. */
  lemma DecodedIsNormal(bytes: seq<u8>)
    requires ImageOf(bytes).Ok?
    ensures NormalImage(ImageOf(bytes).value) == ImageOf(bytes).value
    ensures ImageOf(BytesOf(ImageOf(bytes).value)) == ImageOf(bytes)
  {
    hide NormalSlot, NormalSettings, NormalRecords, SlotOfBytes, SettingsOfBytes, RecordsOfBytes,
      Slot, Config, FastestLaps, CourseTimes, BytesOf;
    DecodedSlotIsNormal(Slot(bytes, 0));
    DecodedSlotIsNormal(Slot(bytes, 1));
    DecodedSlotIsNormal(Slot(bytes, 2));
    DecodedSettingsAreNormal(Config(bytes));
    DecodedRecordsAreNormal(FastestLaps(bytes));
    DecodedRecordsAreNormal(CourseTimes(bytes));
    ImageRoundTrip(ImageOf(bytes).value);
  }

  /** The one representation of a valid image that is compared between players. */
  function Canonical(bytes: seq<u8>): (c: seq<u8>)
    requires ImageOf(bytes).Ok?
    ensures |c| == IMAGE_SIZE
  {
    BytesOf(ImageOf(bytes).value)
  }

  lemma CanonicalIdempotent(bytes: seq<u8>)
    requires ImageOf(bytes).Ok?
    ensures ImageOf(Canonical(bytes)).Ok? && Canonical(Canonical(bytes)) == Canonical(bytes)
  {
    hide BytesOf, ImageOf;
    DecodedIsNormal(bytes);
  }

  /** Canonical bytes agree exactly when the two images hold the same save. */
  lemma CanonicalDecidesEquality(a: seq<u8>, b: seq<u8>)
    requires ImageOf(a).Ok? && ImageOf(b).Ok?
    ensures Canonical(a) == Canonical(b) <==> ImageOf(a) == ImageOf(b)
  {
    hide BytesOf, ImageOf;
    DecodedIsNormal(a);
    DecodedIsNormal(b);
  }

  /** A slot in the byte form that the encoder itself would choose. */
  predicate CanonicalSlot(b: seq<u8>)
    requires |b| == SLOT_SIZE
  {
    !Erased(b) && CanonicalCode(StoredName(b))
  }

  /** No erased slot, and no name or initials in one of the redundant codes. */
  predicate CanonicalForm(bytes: seq<u8>)
    requires |bytes| == IMAGE_SIZE
  {
    && CanonicalSlot(Slot(bytes, 0)) && CanonicalSlot(Slot(bytes, 1)) && CanonicalSlot(Slot(bytes, 2))
    && CanonicalInitials(FastestLaps(bytes)) && CanonicalInitials(CourseTimes(bytes))
  }

  lemma CanonicalSlotFixed(b: seq<u8>)
    requires |b| == SLOT_SIZE && SlotOfBytes(b).Some?
    ensures SlotBytes(SlotOfBytes(b).value) == b <==> CanonicalSlot(b)
  {
    hide SlotBytes, SlotOfValues, ValidBlock, CanonicalCode, StoredValues, SlotShaped;
    if Erased(b) { ErasedIsNotValid(b); } else { SlotCanonical(b); }
  }

  /** Canonicalisation returns a valid image byte for byte exactly when it is in canonical form. */
  lemma CanonicalFixesExactly(bytes: seq<u8>)
    requires ImageOf(bytes).Ok?
    ensures Canonical(bytes) == bytes <==> CanonicalForm(bytes)
  {
    hide SlotBytes, ConfigBytes, RecordBytes, SlotOfBytes, RecordsOfBytes, BytesOf, Slot, Config, FastestLaps,
      CourseTimes, CanonicalSlot, CanonicalInitials, ValidConfig, ValidBlock, SettingsOf, BeValue;
    var image := ImageOf(bytes).value;
    RegionsOfImage(image);
    Tiles(bytes);
    Tiles(BytesOf(image));
    CanonicalSlotFixed(Slot(bytes, 0));
    CanonicalSlotFixed(Slot(bytes, 1));
    CanonicalSlotFixed(Slot(bytes, 2));
    ConfigCanonical(Config(bytes));
    RecordsFixed(FastestLaps(bytes));
    RecordsFixed(CourseTimes(bytes));
  }

  lemma RecordsFixed(b: seq<u8>)
    requires |b| == RECORD_BLOCK_SIZE && RecordsOfBytes(b).Some?
    ensures RecordBytes(RecordsOfBytes(b).value) == b <==> CanonicalInitials(b)
  {
    hide CanonicalInitials, RecordBytes;
    RecordsCanonical(b);
  }

  function WithSlot(bytes: seq<u8>, i: nat, b: seq<u8>): (r: seq<u8>)
    requires |bytes| == IMAGE_SIZE && i < 3 && |b| == SLOT_SIZE
    ensures |r| == IMAGE_SIZE
  {
    Over(bytes, i * 0x28, b)
  }

  lemma SlotWithSlot(bytes: seq<u8>, i: nat, b: seq<u8>, j: nat)
    requires |bytes| == IMAGE_SIZE && i < 3 && |b| == SLOT_SIZE && j < 3
    ensures Slot(WithSlot(bytes, i, b), j) == if i == j then b else Slot(bytes, j)
  {
    hide Over;
    if i == j { OverHere(bytes, i * 0x28, b); } else { OverElsewhere(bytes, i * 0x28, b, j * 0x28, j * 0x28 + 0x28); }
  }

  lemma RegionsWithSlot(bytes: seq<u8>, i: nat, b: seq<u8>)
    requires |bytes| == IMAGE_SIZE && i < 3 && |b| == SLOT_SIZE
    ensures var r := WithSlot(bytes, i, b);
            && Slot(r, 0) == (if i == 0 then b else Slot(bytes, 0))
            && Slot(r, 1) == (if i == 1 then b else Slot(bytes, 1))
            && Slot(r, 2) == (if i == 2 then b else Slot(bytes, 2))
            && Config(r) == Config(bytes) && FastestLaps(r) == FastestLaps(bytes)
            && CourseTimes(r) == CourseTimes(bytes)
  {
    hide Over, Slot, Config, FastestLaps, CourseTimes;
    SlotWithSlot(bytes, i, b, 0);
    SlotWithSlot(bytes, i, b, 1);
    SlotWithSlot(bytes, i, b, 2);
    RegionSlices(bytes);
    RegionSlices(WithSlot(bytes, i, b));
    OverElsewhere(bytes, i * 0x28, b, 0x78, 0x80);
    OverElsewhere(bytes, i * 0x28, b, 0x80, 0x140);
    OverElsewhere(bytes, i * 0x28, b, 0x140, 0x200);
  }

  /** An erased slot and a checksummed blank slot are the same save: they share their canonical bytes. */
  lemma ErasedEqualsBlank(bytes: seq<u8>, i: nat)
    requires ImageOf(bytes).Ok? && i < 3 && Erased(Slot(bytes, i))
    ensures var blank := WithSlot(bytes, i, SlotBytes(BlankSlot()));
            ImageOf(blank).Ok? && Canonical(blank) == Canonical(bytes)
  {
    hide SlotBytes, SlotOfBytes, SettingsOfBytes, RecordsOfBytes, BytesOf, WithSlot, Slot, Config,
      FastestLaps, CourseTimes, Erased, NormalSlot;
    SlotRoundTrip(BlankSlot());
    BlankSlotIsNormal();
    ErasedDecodesBlank(Slot(bytes, i));
    RegionsWithSlot(bytes, i, SlotBytes(BlankSlot()));
  }

  lemma ErasedDecodesBlank(b: seq<u8>)
    requires |b| == SLOT_SIZE && Erased(b)
    ensures SlotOfBytes(b) == Some(BlankSlot())
  {
  }

  // ---------------------------------------------------------------------
  // Validity
  // ---------------------------------------------------------------------

  predicate SlotAccepted(b: seq<u8>)
    requires |b| == SLOT_SIZE
  {
    Erased(b) || ValidBlock(b)
  }

  predicate Accepted(bytes: seq<u8>)
    requires |bytes| == IMAGE_SIZE
  {
    && SlotAccepted(Slot(bytes, 0)) && SlotAccepted(Slot(bytes, 1)) && SlotAccepted(Slot(bytes, 2))
    && ValidConfig(Config(bytes)) && ValidBlock(FastestLaps(bytes)) && ValidBlock(CourseTimes(bytes))
  }

  lemma DecodeAccepts(bytes: seq<u8>)
    requires |bytes| == IMAGE_SIZE
    ensures ImageOf(bytes).Ok? <==> Accepted(bytes)
  {
    hide SlotOfValues, StoredValues, ValidBlock, ValidConfig, Erased, SettingsOf, BeValue;
  }

  // ---------------------------------------------------------------------
  // Corruption
  // ---------------------------------------------------------------------

  lemma {:induction false} SumUpdate(s: seq<u8>, k: nat, v: u8)
    requires k < |s|
    ensures Sum(s[k := v]) == Sum(s) - s[k] + v
  {
    var t := s[..|s| - 1];
    if k == |s| - 1 {
      assert s[k := v][..k] == t;
    } else {
      assert s[k := v][..|s| - 1] == t[k := v];
      SumUpdate(t, k, v);
    }
  }

  /** Changing one byte of a block changes whether its checksum can hold. */
  lemma BlockDetectsByte(b: seq<u8>, k: nat, v: u8)
    requires 2 <= |b| <= RECORD_BLOCK_SIZE && k < |b| && v != b[k] && ValidBlock(b)
    ensures !ValidBlock(b[k := v])
  {
    var c := b[k := v];
    ChecksumNeverWraps(b[2..]);
    ChecksumNeverWraps(c[2..]);
    if k < 2 {
      assert c[2..] == b[2..];
    } else {
      assert c[2..] == b[2..][k - 2 := v];
      SumUpdate(b[2..], k - 2, v);
    }
  }

  lemma {:induction false} SumOfErased(s: seq<u8>)
    requires Erased(s)
    ensures Sum(s) == 255 * |s|
  {
    if s != [] { SumOfErased(s[..|s| - 1]); }
  }

  /** A slot that differs from the erased state in one byte never passes its checksum. */
  lemma NearlyErasedIsInvalid(b: seq<u8>, k: nat, v: u8)
    requires |b| == SLOT_SIZE && Erased(b) && k < SLOT_SIZE && v != 0xFF
    ensures !SlotAccepted(b[k := v])
  {
    var c := b[k := v];
    assert c[k] != 0xFF;
    ChecksumNeverWraps(c[2..]);
    if k < 2 {
      assert c[2..] == b[2..];
      assert Erased(b[2..]);
      SumOfErased(b[2..]);
    }
  }

  /** Changing any one byte of an accepted slot, erased or not, makes it unacceptable. */
  lemma SlotDetectsByte(b: seq<u8>, k: nat, v: u8)
    requires |b| == SLOT_SIZE && k < SLOT_SIZE && v != b[k] && SlotAccepted(b)
    ensures !SlotAccepted(b[k := v])
  {
    var c := b[k := v];
    if Erased(b) {
      NearlyErasedIsInvalid(b, k, v);
    } else {
      BlockDetectsByte(b, k, v);
      assert c[k := b[k]] == b;
      if Erased(c) { NearlyErasedIsInvalid(c, k, b[k]); }
    }
  }

  /** Decode refuses every image that differs from a valid one in one byte outside the config word. */
  lemma SingleByteDetected(bytes: seq<u8>, k: nat, v: u8)
    requires ImageOf(bytes).Ok? && k < IMAGE_SIZE && v != bytes[k]
    requires !(CONFIG_OFFSET <= k < FASTEST_LAPS_OFFSET)
    ensures ImageOf(bytes[k := v]).Err?
  {
    DecodeAccepts(bytes);
    DecodeAccepts(bytes[k := v]);
    hide ImageOf, SlotAccepted, ValidBlock, ValidConfig, Slot, Config, FastestLaps, CourseTimes;
    if k < 0x28 {
      SlotByteRejected(bytes, 0, k, v);
    } else if k < 0x50 {
      SlotByteRejected(bytes, 1, k, v);
    } else if k < 0x78 {
      SlotByteRejected(bytes, 2, k, v);
    } else {
      RecordByteRejected(bytes, k, v);
    }
  }

  lemma SlotByteRejected(bytes: seq<u8>, i: nat, k: nat, v: u8)
    requires |bytes| == IMAGE_SIZE && i < 3 && i * 0x28 <= k < i * 0x28 + 0x28 && v != bytes[k]
    requires SlotAccepted(Slot(bytes, i))
    ensures !SlotAccepted(Slot(bytes[k := v], i))
  {
    hide SlotAccepted;
    assert Slot(bytes[k := v], i) == Slot(bytes, i)[k - i * 0x28 := v];
    SlotDetectsByte(Slot(bytes, i), k - i * 0x28, v);
  }

  lemma RecordByteRejected(bytes: seq<u8>, k: nat, v: u8)
    requires |bytes| == IMAGE_SIZE && 0x80 <= k < IMAGE_SIZE && v != bytes[k]
    requires ValidBlock(FastestLaps(bytes)) && ValidBlock(CourseTimes(bytes))
    ensures !ValidBlock(FastestLaps(bytes[k := v])) || !ValidBlock(CourseTimes(bytes[k := v]))
  {
    hide ValidBlock;
    if k < 0x140 {
      assert FastestLaps(bytes[k := v]) == FastestLaps(bytes)[k - 0x80 := v];
      BlockDetectsByte(FastestLaps(bytes), k - 0x80, v);
    } else {
      assert CourseTimes(bytes[k := v]) == CourseTimes(bytes)[k - 0x140 := v];
      BlockDetectsByte(CourseTimes(bytes), k - 0x140, v);
    }
  }

  function ByteNibbles(x: u8): (n: nat) {
    x / 16 + x % 16
  }

  function NibblesOf(s: seq<u8>): (n: nat) {
    if s == [] then 0 else NibblesOf(s[..|s| - 1]) + ByteNibbles(s[|s| - 1])
  }

  lemma ByteDigits(t: nat, x: u8)
    ensures (t * 256 + x) % 16 == x % 16 && (t * 256 + x) / 16 == t * 16 + x / 16
    ensures (t * 16 + x / 16) % 16 == x / 16 && (t * 16 + x / 16) / 16 == t
  {
    assert t * 256 + x == x % 16 + 16 * (t * 16 + x / 16);
    Cut4(x % 16, t * 16 + x / 16);
    Cut4(x / 16, t);
  }

  lemma NibbleStep(p: nat, n: nat)
    requires n > 0
    ensures NibbleSum(p, n) == p % 16 + NibbleSum(p / 16, n - 1)
  {
  }

  /** One more byte adds its two nibbles. */
  lemma NibbleSumByte(t: nat, x: u8, n: nat)
    ensures NibbleSum(t * 256 + x, n + 2) == NibbleSum(t, n) + ByteNibbles(x)
  {
    hide NibbleSum;
    ByteDigits(t, x);
    NibbleStep(t * 256 + x, n + 2);
    NibbleStep(t * 16 + x / 16, n + 1);
  }

  lemma {:induction false} NibbleSumOfBytes(s: seq<u8>)
    ensures NibbleSum(BeValue(s), 2 * |s|) == NibblesOf(s)
  {
    if s == [] {
    } else {
      hide NibbleSum, ByteNibbles;
      var front := s[..|s| - 1];
      NibbleSumOfBytes(front);
      NibbleSumByte(BeValue(front), s[|s| - 1], 2 * |front|);
      assert 2 * |s| == 2 * |front| + 2;
    }
  }

  lemma {:induction false} NibblesUpdate(s: seq<u8>, k: nat, v: u8)
    requires k < |s|
    ensures NibblesOf(s[k := v]) == NibblesOf(s) - ByteNibbles(s[k]) + ByteNibbles(v)
  {
    var t := s[..|s| - 1];
    if k == |s| - 1 {
      assert s[k := v][..k] == t;
    } else {
      assert s[k := v][..|s| - 1] == t[k := v];
      NibblesUpdate(t, k, v);
    }
  }

  /** A one-byte change of a valid config word passes exactly when it keeps the byte's nibble sum. */
  lemma ConfigByteChange(b: seq<u8>, k: nat, v: u8)
    requires |b| == 8 && k < 8 && v != b[k] && ValidConfig(b)
    ensures ValidConfig(b[k := v]) <==> k > 0 && ByteNibbles(v) == ByteNibbles(b[k])
  {
    hide BeValue, NibbleSum, NibblesOf;
    var c := b[k := v];
    NibbleSumOfBytes(b[1..]);
    NibbleSumOfBytes(c[1..]);
    if k == 0 {
      assert c[1..] == b[1..];
    } else {
      assert c[1..] == b[1..][k - 1 := v];
      NibblesUpdate(b[1..], k - 1, v);
    }
  }

  lemma AcceptedSize(bytes: seq<u8>)
    requires ImageOf(bytes).Ok?
    ensures |bytes| == IMAGE_SIZE
  {
  }

  lemma ConfigByteAccepted(bytes: seq<u8>, k: nat, v: u8)
    requires ImageOf(bytes).Ok? && CONFIG_OFFSET <= k < FASTEST_LAPS_OFFSET && v != bytes[k]
    ensures ImageOf(bytes[k := v]).Ok? <==> k > CONFIG_OFFSET && ByteNibbles(v) == ByteNibbles(bytes[k])
  {
    hide ImageOf, SlotAccepted, ValidBlock, ValidConfig, ByteNibbles, Slot, Config, FastestLaps, CourseTimes;
    AcceptedSize(bytes);
    var c := bytes[k := v];
    DecodeAccepts(bytes);
    DecodeAccepts(c);
    ConfigByteRegions(bytes, k, v);
    ConfigByteChange(Config(bytes), k - 0x78, v);
  }

  lemma ConfigByteRegions(bytes: seq<u8>, k: nat, v: u8)
    requires |bytes| == IMAGE_SIZE && CONFIG_OFFSET <= k < FASTEST_LAPS_OFFSET
    ensures var c := bytes[k := v];
            && Config(c) == Config(bytes)[k - 0x78 := v] && Config(bytes)[k - 0x78] == bytes[k]
            && Slot(c, 0) == Slot(bytes, 0) && Slot(c, 1) == Slot(bytes, 1) && Slot(c, 2) == Slot(bytes, 2)
            && FastestLaps(c) == FastestLaps(bytes) && CourseTimes(c) == CourseTimes(bytes)
  {
  }

  /** Decode refuses every image whose config word differs from a valid one in a single nibble. */
  lemma SingleNibbleDetected(bytes: seq<u8>, k: nat, v: u8)
    requires ImageOf(bytes).Ok? && CONFIG_OFFSET <= k < FASTEST_LAPS_OFFSET && v != bytes[k]
    requires v / 16 == bytes[k] / 16 || v % 16 == bytes[k] % 16
    ensures ImageOf(bytes[k := v]).Err?
  {
    hide ImageOf;
    ConfigByteAccepted(bytes, k, v);
  }

  // ---------------------------------------------------------------------
  // Checksum repair
  // ---------------------------------------------------------------------

  function RepairedSlot(b: seq<u8>): (r: seq<u8>)
    requires |b| == SLOT_SIZE
    ensures |r| == SLOT_SIZE
  {
    if Erased(b) then b else Sealed(b[2..])
  }

  function RepairedConfig(b: seq<u8>): (r: seq<u8>)
    requires |b| == 8
    ensures |r| == 8
  {
    [ConfigChecksum(BeValue(b[1..]))] + b[1..]
  }

  function Repaired(bytes: seq<u8>): (r: seq<u8>)
    requires |bytes| == IMAGE_SIZE
    ensures |r| == IMAGE_SIZE
  {
    RepairedSlot(Slot(bytes, 0)) + RepairedSlot(Slot(bytes, 1)) + RepairedSlot(Slot(bytes, 2))
    + RepairedConfig(Config(bytes)) + Sealed(FastestLaps(bytes)[2..]) + Sealed(CourseTimes(bytes)[2..])
  }

  /** The eleven bytes that hold checksums. */
  predicate ChecksumByte(k: nat) {
    k in {0x00, 0x01, 0x28, 0x29, 0x50, 0x51, 0x78, 0x80, 0x81, 0x140, 0x141}
  }

  lemma RepairedRegions(bytes: seq<u8>)
    requires |bytes| == IMAGE_SIZE
    ensures var r := Repaired(bytes);
            && (forall i :: 0 <= i < 3 ==> Slot(r, i) == RepairedSlot(Slot(bytes, i)))
            && Config(r) == RepairedConfig(Config(bytes))
            && FastestLaps(r) == Sealed(FastestLaps(bytes)[2..]) && CourseTimes(r) == Sealed(CourseTimes(bytes)[2..])
  {
    hide RepairedSlot, RepairedConfig, Sealed, Slot, Config, FastestLaps, CourseTimes;
    RegionsOf(RepairedSlot(Slot(bytes, 0)), RepairedSlot(Slot(bytes, 1)), RepairedSlot(Slot(bytes, 2)),
              RepairedConfig(Config(bytes)), Sealed(FastestLaps(bytes)[2..]), Sealed(CourseTimes(bytes)[2..]));
  }

  lemma RepairedSlotAccepted(b: seq<u8>)
    requires |b| == SLOT_SIZE
    ensures SlotAccepted(RepairedSlot(b))
    ensures SlotAccepted(b) ==> RepairedSlot(b) == b
    ensures RepairedSlot(b)[2..] == b[2..]
    ensures Erased(RepairedSlot(b)) <==> Erased(b)
  {
    hide ValidBlock, Sealed;
    if !Erased(b) {
      SealedIsValid(b[2..]);
      if ValidBlock(b) { SealedUnique(b); }
      if Erased(Sealed(b[2..])) { ErasedIsNotValid(Sealed(b[2..])); }
    }
  }

  lemma RepairedConfigAccepted(b: seq<u8>)
    requires |b| == 8
    ensures ValidConfig(RepairedConfig(b))
    ensures ValidConfig(b) ==> RepairedConfig(b) == b
    ensures RepairedConfig(b)[1..] == b[1..]
  {
    hide BeValue;
    assert RepairedConfig(b)[1..] == b[1..];
    assert b == [b[0]] + b[1..];
  }

  /** Repair yields an image that decodes, whatever the 512 bytes were. */
  lemma RepairedDecodes(bytes: seq<u8>)
    requires |bytes| == IMAGE_SIZE
    ensures ImageOf(Repaired(bytes)).Ok?
  {
    hide ImageOf, Repaired, RepairedSlot, RepairedConfig, SlotAccepted, ValidConfig, ValidBlock, Sealed;
    RepairedRegions(bytes);
    DecodeAccepts(Repaired(bytes));
    RepairedSlotAccepted(Slot(bytes, 0));
    RepairedSlotAccepted(Slot(bytes, 1));
    RepairedSlotAccepted(Slot(bytes, 2));
    RepairedConfigAccepted(Config(bytes));
    SealedIsValid(FastestLaps(bytes)[2..]);
    SealedIsValid(CourseTimes(bytes)[2..]);
  }

  /** Repair leaves a valid image alone, so it is idempotent. */
  lemma RepairFixesValid(bytes: seq<u8>)
    requires ImageOf(bytes).Ok?
    ensures Repaired(bytes) == bytes
  {
    assert |bytes| == IMAGE_SIZE;
    hide ImageOf, RepairedSlot, RepairedConfig, SlotAccepted, ValidConfig, ValidBlock, Slot, Config, FastestLaps,
      CourseTimes, Sealed;
    DecodeAccepts(bytes);
    Tiles(bytes);
    RepairedSlotAccepted(Slot(bytes, 0));
    RepairedSlotAccepted(Slot(bytes, 1));
    RepairedSlotAccepted(Slot(bytes, 2));
    RepairedConfigAccepted(Config(bytes));
    SealedUnique(FastestLaps(bytes));
    SealedUnique(CourseTimes(bytes));
  }

  lemma RepairIdempotent(bytes: seq<u8>)
    requires |bytes| == IMAGE_SIZE
    ensures Repaired(Repaired(bytes)) == Repaired(bytes)
  {
    hide ImageOf, Repaired;
    RepairedDecodes(bytes);
    RepairFixesValid(Repaired(bytes));
  }

  lemma RegionByte(bytes: seq<u8>, r: seq<u8>, lo: nat, hi: nat, skip: nat, k: nat)
    requires |bytes| == |r| == IMAGE_SIZE && lo + skip <= k < hi <= IMAGE_SIZE
    requires r[lo..hi][skip..] == bytes[lo..hi][skip..]
    ensures r[k] == bytes[k]
  {
    assert r[lo..hi][skip..][k - lo - skip] == r[k];
    assert bytes[lo..hi][skip..][k - lo - skip] == bytes[k];
  }

  /** Repair alters checksum bytes only, and keeps erased slots erased. */
  lemma RepairTouchesChecksumsOnly(bytes: seq<u8>, k: nat)
    requires |bytes| == IMAGE_SIZE && k < IMAGE_SIZE && !ChecksumByte(k)
    ensures Repaired(bytes)[k] == bytes[k]
  {
    hide Repaired, RepairedSlot, RepairedConfig, Sealed;
    var r := Repaired(bytes);
    RepairedRegions(bytes);
    if k < 0x78 {
      var i := k / 0x28;
      RepairedSlotAccepted(Slot(bytes, i));
      RegionByte(bytes, r, i * 0x28, i * 0x28 + 0x28, 2, k);
    } else if k < 0x80 {
      RepairedConfigAccepted(Config(bytes));
      RegionByte(bytes, r, 0x78, 0x80, 1, k);
    } else if k < 0x140 {
      RegionByte(bytes, r, 0x80, 0x140, 2, k);
    } else {
      assert bytes[0x140..] == bytes[0x140..0x200] && r[0x140..] == r[0x140..0x200];
      RegionByte(bytes, r, 0x140, 0x200, 2, k);
    }
  }

  lemma RepairKeepsErased(bytes: seq<u8>, i: nat)
    requires |bytes| == IMAGE_SIZE && i < 3
    ensures Erased(Slot(bytes, i)) ==> Slot(Repaired(bytes), i) == Slot(bytes, i)
    ensures Erased(Slot(Repaired(bytes), i)) <==> Erased(Slot(bytes, i))
  {
    hide Repaired;
    RepairedRegions(bytes);
    RepairedSlotAccepted(Slot(bytes, i));
  }
}
