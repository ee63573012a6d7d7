/** The operations that other subsystems call on a save: checksum repair,
    canonical bytes for comparing saves, and the Save Builder's field ranges. */
module SaveTools {
  import opened Basics
  import opened BitPacking
  import opened SaveNames
  import opened SaveLayout
  import opened SaveCodec
  import opened SaveTheorems
  import opened SaveImages

  // ---------------------------------------------------------------------
  // Checksum repair
  // ---------------------------------------------------------------------

  lemma OverSlot(s: seq<u8>, i: nat, piece: seq<u8>)
    requires |s| == IMAGE_SIZE && i < 3 && |piece| == SLOT_SIZE
    ensures var r := Over(s, i * 0x28, piece);
            && Slot(r, i) == piece && (forall j :: 0 <= j < 3 && j != i ==> Slot(r, j) == Slot(s, j))
            && Config(r) == Config(s) && FastestLaps(r) == FastestLaps(s) && CourseTimes(r) == CourseTimes(s)
  {
    hide Over, Slot, Config, FastestLaps, CourseTimes;
    RegionsWithSlot(s, i, piece);
    forall j | 0 <= j < 3 ensures Slot(WithSlot(s, i, piece), j) == if i == j then piece else Slot(s, j) {
      SlotWithSlot(s, i, piece, j);
    }
  }

  method RepairSlots(bytes: seq<u8>, repaired: array<u8>)
    requires |bytes| == IMAGE_SIZE && repaired[..] == bytes
    modifies repaired
    ensures forall j :: 0 <= j < 3 ==> Slot(repaired[..], j) == RepairedSlot(Slot(bytes, j))
    ensures Config(repaired[..]) == Config(bytes) && FastestLaps(repaired[..]) == FastestLaps(bytes)
    ensures CourseTimes(repaired[..]) == CourseTimes(bytes)
  {
    hide Over, Sealed, Config, FastestLaps, CourseTimes, BlockChecksum, Erased;
    for index := 0 to 3
      invariant forall j :: 0 <= j < 3 ==>
        Slot(repaired[..], j) == if j < index then RepairedSlot(Slot(bytes, j)) else Slot(bytes, j)
      invariant Config(repaired[..]) == Config(bytes) && FastestLaps(repaired[..]) == FastestLaps(bytes)
      invariant CourseTimes(repaired[..]) == CourseTimes(bytes)
    {
      var offset := index * SLOT_SIZE;
      var erased := AllErased(bytes[offset..offset + SLOT_SIZE]);
      assert Slot(bytes, index) == bytes[offset..offset + SLOT_SIZE];
      if !erased {
        ghost var payload := Slot(bytes, index)[2..];
        assert repaired[offset + 2..offset + SLOT_SIZE] == Slot(repaired[..], index)[2..];
        OverSlot(repaired[..], index, Sealed(payload));
        SealBlock(repaired, offset, SLOT_SIZE, payload);
      }
    }
  }

  method RepairSettings(repaired: array<u8>)
    requires repaired.Length == IMAGE_SIZE
    modifies repaired
    ensures repaired[..] == Over(old(repaired[..]), CONFIG_OFFSET, RepairedConfig(Config(old(repaired[..]))))
  {
    ghost var config := Config(repaired[..]);
    var word := ReadBe64(repaired[..], CONFIG_OFFSET);
    var payload := word % PAYLOAD_LIMIT;
    ConfigWord(config);
    var checksum := ConfigChecksumOf(payload);
    WriteBe64(repaired, CONFIG_OFFSET, payload + checksum * PAYLOAD_LIMIT);
    RepairedWord(config);
  }

  lemma RepairedWord(b: seq<u8>)
    requires |b| == 8
    ensures var p := BeValue(b[1..]);
            BeBytes(p + ConfigChecksum(p) * PAYLOAD_LIMIT, 8) == RepairedConfig(b)
  {
    hide BeBytes, BeValue;
    var r := RepairedConfig(b);
    assert r[1..] == b[1..];
    ConfigWord(r);
    BeBytesOfValue(r);
  }

  /** Seals both record blocks in place. */
  method RepairRecords(repaired: array<u8>)
    requires repaired.Length == IMAGE_SIZE
    modifies repaired
    ensures forall j :: 0 <= j < 3 ==> Slot(repaired[..], j) == Slot(old(repaired[..]), j)
    ensures Config(repaired[..]) == Config(old(repaired[..]))
    ensures FastestLaps(repaired[..]) == Sealed(FastestLaps(old(repaired[..]))[2..])
    ensures CourseTimes(repaired[..]) == Sealed(CourseTimes(old(repaired[..]))[2..])
  {
    hide Over, Sealed, Slot, Config, FastestLaps, CourseTimes;
    ghost var before := repaired[..];
    BlockPayloads(before);
    SealBlock(repaired, FASTEST_LAPS_OFFSET, RECORD_BLOCK_SIZE, FastestLaps(before)[2..]);
    OverFastestLaps(before, Sealed(FastestLaps(before)[2..]));
    ghost var afterLaps := repaired[..];
    BlockPayloads(afterLaps);
    SealBlock(repaired, COURSE_TIMES_OFFSET, RECORD_BLOCK_SIZE, CourseTimes(before)[2..]);
    OverCourseTimes(afterLaps, Sealed(CourseTimes(before)[2..]));
  }

  /** Equal regions make equal images. */
  lemma SameRegions(a: seq<u8>, b: seq<u8>)
    requires |a| == |b| == IMAGE_SIZE && (forall j :: 0 <= j < 3 ==> Slot(a, j) == Slot(b, j))
    requires Config(a) == Config(b) && FastestLaps(a) == FastestLaps(b) && CourseTimes(a) == CourseTimes(b)
    ensures a == b
  {
    hide Slot, Config, FastestLaps, CourseTimes;
    Tiles(a);
    Tiles(b);
  }

  method RepairInPlace(bytes: seq<u8>, repaired: array<u8>)
    requires |bytes| == IMAGE_SIZE && repaired[..] == bytes
    modifies repaired
    ensures repaired[..] == Repaired(bytes)
  {
    hide Repaired, Over, Sealed, RepairedConfig, RepairedSlot, Slot, Config, FastestLaps, CourseTimes;
    RepairSlots(bytes, repaired);
    ghost var afterSlots := repaired[..];
    RepairSettings(repaired);
    OverConfig(afterSlots, RepairedConfig(Config(bytes)));
    RepairRecords(repaired);
    RepairedRegions(bytes);
    SameRegions(repaired[..], Repaired(bytes));
  }

  /** Fails on a wrong size only: the closing validation can never refuse the repaired bytes. */
  method RepairChecksums(bytes: seq<u8>) returns (result: Result<seq<u8>>)
    ensures |bytes| != IMAGE_SIZE ==> result == Err(WrongSize)
    ensures |bytes| == IMAGE_SIZE ==> result == Ok(Repaired(bytes))
  {
    hide ImageOf, Repaired;
    if |bytes| != IMAGE_SIZE {
      return Err(WrongSize);
    }
    var repaired := new u8[IMAGE_SIZE](i requires 0 <= i < IMAGE_SIZE => bytes[i]);
    assert repaired[..] == bytes;
    RepairInPlace(bytes, repaired);
    RepairedDecodes(bytes);
    var check := Decode(repaired[..]);
    if check.Err? {
      assert false;
      return Err(WrongSize);
    }
    result := Ok(repaired[..]);
  }

  lemma BlockPayloads(s: seq<u8>)
    requires |s| == IMAGE_SIZE
    ensures s[FASTEST_LAPS_OFFSET + 2..FASTEST_LAPS_OFFSET + RECORD_BLOCK_SIZE] == FastestLaps(s)[2..]
    ensures s[COURSE_TIMES_OFFSET + 2..COURSE_TIMES_OFFSET + RECORD_BLOCK_SIZE] == CourseTimes(s)[2..]
  {
  }

  /** A piece laid over the image behind the slots leaves them alone. */
  lemma SlotsBefore(s: seq<u8>, at: nat, piece: seq<u8>)
    requires |s| == IMAGE_SIZE && 0x78 <= at && at + |piece| <= IMAGE_SIZE
    ensures forall j :: 0 <= j < 3 ==> Slot(Over(s, at, piece), j) == Slot(s, j)
  {
    hide Over;
    forall j | 0 <= j < 3 ensures Slot(Over(s, at, piece), j) == Slot(s, j) {
      OverElsewhere(s, at, piece, j * 0x28, j * 0x28 + 0x28);
    }
  }

  lemma OverConfig(s: seq<u8>, piece: seq<u8>)
    requires |s| == IMAGE_SIZE && |piece| == 8
    ensures var r := Over(s, CONFIG_OFFSET, piece);
            && (forall j :: 0 <= j < 3 ==> Slot(r, j) == Slot(s, j)) && Config(r) == piece
            && FastestLaps(r) == FastestLaps(s) && CourseTimes(r) == CourseTimes(s)
  {
    hide Over, Slot, Config, FastestLaps, CourseTimes;
    SlotsBefore(s, CONFIG_OFFSET, piece);
    RegionSlices(s);
    RegionSlices(Over(s, CONFIG_OFFSET, piece));
    OverHere(s, CONFIG_OFFSET, piece);
    OverElsewhere(s, CONFIG_OFFSET, piece, 0x80, 0x140);
    OverElsewhere(s, CONFIG_OFFSET, piece, 0x140, 0x200);
  }

  lemma OverFastestLaps(s: seq<u8>, piece: seq<u8>)
    requires |s| == IMAGE_SIZE && |piece| == RECORD_BLOCK_SIZE
    ensures var r := Over(s, FASTEST_LAPS_OFFSET, piece);
            && (forall j :: 0 <= j < 3 ==> Slot(r, j) == Slot(s, j)) && Config(r) == Config(s)
            && FastestLaps(r) == piece && CourseTimes(r) == CourseTimes(s)
  {
    hide Over, Slot, Config, FastestLaps, CourseTimes;
    SlotsBefore(s, FASTEST_LAPS_OFFSET, piece);
    RegionSlices(s);
    RegionSlices(Over(s, FASTEST_LAPS_OFFSET, piece));
    OverElsewhere(s, FASTEST_LAPS_OFFSET, piece, 0x78, 0x80);
    OverHere(s, FASTEST_LAPS_OFFSET, piece);
    OverElsewhere(s, FASTEST_LAPS_OFFSET, piece, 0x140, 0x200);
  }

  lemma OverCourseTimes(s: seq<u8>, piece: seq<u8>)
    requires |s| == IMAGE_SIZE && |piece| == RECORD_BLOCK_SIZE
    ensures var r := Over(s, COURSE_TIMES_OFFSET, piece);
            && (forall j :: 0 <= j < 3 ==> Slot(r, j) == Slot(s, j)) && Config(r) == Config(s)
            && FastestLaps(r) == FastestLaps(s) && CourseTimes(r) == piece
  {
    hide Over, Slot, Config, FastestLaps, CourseTimes;
    SlotsBefore(s, COURSE_TIMES_OFFSET, piece);
    RegionSlices(s);
    RegionSlices(Over(s, COURSE_TIMES_OFFSET, piece));
    OverElsewhere(s, COURSE_TIMES_OFFSET, piece, 0x78, 0x80);
    OverElsewhere(s, COURSE_TIMES_OFFSET, piece, 0x80, 0x140);
    OverHere(s, COURSE_TIMES_OFFSET, piece);
  }

  // ---------------------------------------------------------------------
  // Canonical bytes
  // ---------------------------------------------------------------------

  /** Fails exactly where decoding does: re-encoded bytes always validate. */
  method CanonicalBytes(bytes: seq<u8>) returns (result: Result<seq<u8>>)
    ensures ImageOf(bytes).Err? ==> result == Err(ImageOf(bytes).error)
    ensures ImageOf(bytes).Ok? ==> result == Ok(Canonical(bytes))
  {
    hide ImageOf, BytesOf;
    var image := Decode(bytes);
    if image.Err? {
      return Err(image.error);
    }
    var canonical := Encode(image.value);
    DecodedIsNormal(bytes);
    var check := Decode(canonical[..]);
    if check.Err? {
      assert false;
      return Err(WrongSize);
    }
    result := Ok(canonical[..]);
  }

  // ---------------------------------------------------------------------
  // Editable field ranges
  // ---------------------------------------------------------------------

  const MAX_TOTAL_BALLOONS: nat := 47
  const MAX_HUB_BALLOONS: nat := 7
  const MAX_WORLD_BALLOONS: nat := 8
  const MAX_AMULET_PIECES: nat := 4

  function WorldTotal(balloons: seq<u8>): (n: nat)
    requires |balloons| == 6
  {
    balloons[1] as int + balloons[2] as int + balloons[3] as int + balloons[4] as int + balloons[5] as int
  }

  /** The ranges that the Save Builder accepts for one slot. */
  predicate EditableSlot(s: AdventureSlot) {
    && (forall i :: 0 <= i < 34 ==> s.courseStatus[i] <= 3)
    && s.tajFlags <= 0x3F && s.trophies <= 0x3FF && s.bosses <= 0xFFF
    && s.ttAmulet <= MAX_AMULET_PIECES && s.wizpigAmulet <= MAX_AMULET_PIECES
    && (forall w :: 1 <= w < 6 ==> s.balloons[w] <= MAX_WORLD_BALLOONS)
    && s.balloons[0] <= MAX_TOTAL_BALLOONS
    && WorldTotal(s.balloons) <= s.balloons[0] <= WorldTotal(s.balloons) + MAX_HUB_BALLOONS
  }

  predicate EditableImage(image: SaveImage) {
    (forall i :: 0 <= i < 3 ==> EditableSlot(image.slots[i])) && image.settings.language <= 3
  }

  method ValidateEditableRanges(image: SaveImage) returns (ok: bool)
    ensures ok == EditableImage(image)
  {
    for index := 0 to 3
      invariant forall i :: 0 <= i < index ==> EditableSlot(image.slots[i])
    {
      var good := ValidateSlot(image.slots[index]);
      if !good { return false; }
    }
    return image.settings.language <= 3;
  }

  method ValidateSlot(slot: AdventureSlot) returns (ok: bool)
    ensures ok == EditableSlot(slot)
  {
    for course := 0 to 34
      invariant forall i :: 0 <= i < course ==> slot.courseStatus[i] <= 3
    {
      if slot.courseStatus[course] > 3 { return false; }
    }
    if slot.tajFlags > 0x3F || slot.trophies > 0x3FF || slot.bosses > 0xFFF { return false; }
    if slot.ttAmulet > MAX_AMULET_PIECES || slot.wizpigAmulet > MAX_AMULET_PIECES { return false; }
    var worldTotal: nat := 0;
    for world := 1 to 6
      invariant forall w :: 1 <= w < world ==> slot.balloons[w] <= MAX_WORLD_BALLOONS
      invariant worldTotal == WorldsUpTo(slot.balloons, world)
    {
      if slot.balloons[world] > MAX_WORLD_BALLOONS { return false; }
      worldTotal := worldTotal + slot.balloons[world];
    }
    return !(slot.balloons[0] > MAX_TOTAL_BALLOONS || worldTotal > slot.balloons[0]
             || slot.balloons[0] - worldTotal > MAX_HUB_BALLOONS);
  }

  function WorldsUpTo(balloons: seq<u8>, world: nat): (n: nat)
    requires |balloons| == 6 && 1 <= world <= 6
    ensures world == 6 ==> n == WorldTotal(balloons)
  {
    (if world > 1 then balloons[1] as int else 0) + (if world > 2 then balloons[2] as int else 0)
    + (if world > 3 then balloons[3] as int else 0) + (if world > 4 then balloons[4] as int else 0)
    + (if world > 5 then balloons[5] as int else 0)
  }

  /** Clamped world counts, and a total that is their sum plus zero to seven hub balloons. */
  function NormalisedBalloons(balloons: seq<u8>): (r: seq<u8>)
    requires |balloons| == 6
    ensures |r| == 6
  {
    var worlds := seq(6, w requires 0 <= w < 6 => Min(balloons[w], MAX_WORLD_BALLOONS));
    var total := Min(balloons[0], MAX_TOTAL_BALLOONS);
    worlds[0 := WorldTotal(worlds)
                + (if total > WorldTotal(worlds) then Min(total - WorldTotal(worlds), MAX_HUB_BALLOONS) else 0)]
  }

  function NormalisedSlot(s: AdventureSlot): (n: AdventureSlot) {
    s.(courseStatus := Clamped(s.courseStatus, 3), tajFlags := s.tajFlags % 0x40, trophies := s.trophies % 0x400,
       bosses := s.bosses % 0x1000, ttAmulet := Min(s.ttAmulet, MAX_AMULET_PIECES),
       wizpigAmulet := Min(s.wizpigAmulet, MAX_AMULET_PIECES), balloons := NormalisedBalloons(s.balloons),
       name := Sanitised(s.name))
  }

  function NormalisedImage(image: SaveImage): (n: SaveImage) {
    image.(slots := [NormalisedSlot(image.slots[0]), NormalisedSlot(image.slots[1]), NormalisedSlot(image.slots[2])],
           settings := image.settings.(language := Min(image.settings.language, 3)))
  }

  method NormaliseBalloons(balloons: seq<u8>) returns (r: seq<u8>)
    requires |balloons| == 6
    ensures r == NormalisedBalloons(balloons)
  {
    r := balloons;
    var worldTotal: nat := 0;
    ghost var worlds := seq(6, w requires 0 <= w < 6 => Min(balloons[w], MAX_WORLD_BALLOONS));
    for world := 1 to 6
      invariant |r| == 6 && r[0] == balloons[0]
      invariant forall w :: 1 <= w < world ==> r[w] == worlds[w]
      invariant forall w :: world <= w < 6 ==> r[w] == balloons[w]
      invariant worldTotal == WorldsUpTo(worlds, world)
    {
      r := r[world := Min(r[world], MAX_WORLD_BALLOONS)];
      worldTotal := worldTotal + r[world];
    }
    var savedTotal := Min(r[0], MAX_TOTAL_BALLOONS);
    var hubCount := if savedTotal > worldTotal then Min(savedTotal - worldTotal, MAX_HUB_BALLOONS) else 0;
    r := r[0 := worldTotal + hubCount];
  }

  method NormaliseEditableFields(image: SaveImage) returns (result: SaveImage)
    ensures result == NormalisedImage(image)
  {
    var slots := image.slots;
    for index := 0 to 3
      invariant |slots| == 3
      invariant forall i :: 0 <= i < 3 ==>
        slots[i] == if i < index then NormalisedSlot(image.slots[i]) else image.slots[i]
    {
      var slot := slots[index];
      var name := SanitiseName(slot.name);
      var balloons := NormaliseBalloons(slot.balloons);
      slots := slots[index := slot.(
        courseStatus := Clamped(slot.courseStatus, 3), tajFlags := slot.tajFlags % 0x40,
        trophies := slot.trophies % 0x400, bosses := slot.bosses % 0x1000,
        ttAmulet := Min(slot.ttAmulet, MAX_AMULET_PIECES), wizpigAmulet := Min(slot.wizpigAmulet, MAX_AMULET_PIECES),
        balloons := balloons, name := name)];
    }
    assert slots == NormalisedImage(image).slots;
    result := image.(slots := slots, settings := image.settings.(language := Min(image.settings.language, 3)));
  }

  lemma BalloonsNormalised(b: seq<u8>)
    requires |b| == 6
    ensures var r := NormalisedBalloons(b);
            && (forall w :: 1 <= w < 6 ==> r[w] <= MAX_WORLD_BALLOONS)
            && r[0] <= MAX_TOTAL_BALLOONS && WorldTotal(r) <= r[0] <= WorldTotal(r) + MAX_HUB_BALLOONS
    ensures (forall w :: 1 <= w < 6 ==> b[w] <= MAX_WORLD_BALLOONS) && b[0] <= MAX_TOTAL_BALLOONS
            && WorldTotal(b) <= b[0] <= WorldTotal(b) + MAX_HUB_BALLOONS
            ==> NormalisedBalloons(b) == b
  {
  }

  /** Normalising always lands inside the accepted ranges, and changes nothing exactly when it is already there. */
  lemma NormalisedIsEditable(s: AdventureSlot)
    ensures EditableSlot(NormalisedSlot(s))
    ensures NormalisedSlot(s) == s <==> EditableSlot(s) && Sanitised(s.name) == s.name
  {
    BalloonsNormalised(s.balloons);
    hide NormalisedBalloons, WorldTotal, Sanitised;
    if EditableSlot(s) { ClampedSmall(s.courseStatus, 3); }
    if NormalisedSlot(s) == s { assert EditableSlot(NormalisedSlot(s)); }
  }

  /** A slot within the Save Builder's ranges loses nothing in the encoder but its name's trailing spaces. */
  lemma EditableSurvivesEncoding(s: AdventureSlot)
    requires EditableSlot(s)
    ensures SlotOfBytes(SlotBytes(s)) == Some(s.(name := NormalName(s.name)))
  {
    SlotRoundTrip(s);
    hide SlotOfBytes, SlotBytes, NormalName;
    ClampedSmall(s.courseStatus, 3);
    ClampedSmall(s.balloons, 127);
  }
}
