/** The checks that `parse_track` makes on a manifest. */
module TrackParsing {
  import opened Basics
  import opened BitPacking
  import opened TrackData
  import opened TrackRuns

  const MINIMUM_TEXTURE_PAYLOAD: nat := 40
  const MAXIMUM_FILE: nat := 16 * 1024 * 1024
  const COLLECTABLES_FIELD: nat := 0x36
  const STRUCTURE_FIELD: nat := 0xBA

  /** One entry of "adds", with an empty string for a key that is absent. `absolute` says whether the platform takes the
      path for an absolute one, and `file` is what lies there, if anything does. */
  datatype Item = Item(section: string, slot: string, path: string, absolute: bool, file: Option<seq<u8>>)

  datatype Manifest = Manifest(schemaVersion: int, id: string, adds: seq<Item>)

  function SectionNamed(name: string): (s: Option<Section>) {
    if name == "LEVEL_HEADERS" then Some(LevelHeaders)
    else if name == "LEVEL_OBJECT_MAPS" then Some(LevelObjectMaps)
    else if name == "LEVEL_NAMES" then Some(LevelNames)
    else if name == "LEVEL_MODELS" then Some(LevelModels)
    else if name == "TEXTURES_3D" then Some(Textures3D)
    else None
  }

  /** Only object maps name a slot, and they must. */
  function SlotNamed(section: Section, name: string): (slot: Option<MapSlot>) {
    if section != LevelObjectMaps then Some(NoSlot)
    else if name == "structure" then Some(Structure)
    else if name == "collectables" then Some(Collectables)
    else None
  }

  /** ".." occurs in the path. */
  predicate Climbs(path: string) {
    exists i :: 0 <= i < |path| - 1 && path[i] == '.' && path[i + 1] == '.'
  }

  predicate SafePath(item: Item) {
    item.path != "" && !Climbs(item.path) && !item.absolute
  }

  /** `read_file`: empty files and those above 16 MiB are refused. */
  predicate Readable(file: Option<seq<u8>>) {
    file.Some? && 0 < |file.value| <= MAXIMUM_FILE
  }

  predicate SizeAccepted(section: Section, bytes: seq<u8>) {
    section == Textures3D ==> |bytes| >= MINIMUM_TEXTURE_PAYLOAD && |bytes| % 16 == 0
  }

  predicate ItemAccepted(item: Item) {
    var section := SectionNamed(item.section);
    && section.Some? && SlotNamed(section.value, item.slot).Some? && SafePath(item) && Readable(item.file)
    && SizeAccepted(section.value, item.file.value)
  }

  function EntryOf(item: Item): (e: Entry)
    requires ItemAccepted(item)
  {
    var section := SectionNamed(item.section).value;
    Entry(section, SlotNamed(section, item.slot).value, item.file.value)
  }

  function EntriesFrom(items: seq<Item>): (entries: seq<Entry>)
    requires forall i :: 0 <= i < |items| ==> ItemAccepted(items[i])
    ensures |entries| == |items|
  {
    seq(|items|, i requires 0 <= i < |items| => EntryOf(items[i]))
  }

  predicate Supplies(entries: seq<Entry>, slot: MapSlot) {
    exists e :: 0 <= e < |entries| && entries[e].section == LevelObjectMaps && entries[e].slot == slot
  }

  /** The last header, as the search loop leaves it. */
  function LastHeader(entries: seq<Entry>): (h: Option<Entry>)
    ensures h.Some? ==> h.value in entries && h.value.section == LevelHeaders
    ensures h.None? ==> forall e :: 0 <= e < |entries| ==> entries[e].section != LevelHeaders
  {
    if entries == [] then None
    else if entries[|entries| - 1].section == LevelHeaders then Some(entries[|entries| - 1])
    else LastHeader(entries[..|entries| - 1])
  }

  /** A 16-bit header field, or -1 when the header is too short to hold it. */
  function FieldAt(header: seq<u8>, at: nat): (v: int) {
    if |header| < at + 2 then -1 else (header[at] as int) * 256 + header[at + 1]
  }

  predicate MapFieldSafe(entries: seq<Entry>, header: seq<u8>, at: nat, slot: MapSlot) {
    FieldAt(header, at) != 0 || Supplies(entries, slot)
  }

  /** The last header's object-map fields are not 0, or the track has a map of its own to put there. */
  predicate HeaderSafe(entries: seq<Entry>) {
    LastHeader(entries).Some? ==>
      && MapFieldSafe(entries, LastHeader(entries).value.bytes, COLLECTABLES_FIELD, Collectables)
      && MapFieldSafe(entries, LastHeader(entries).value.bytes, STRUCTURE_FIELD, Structure)
  }

  predicate ManifestAccepted(m: Manifest) {
    && m.schemaVersion == 1 && m.id != "" && m.adds != []
    && (forall i :: 0 <= i < |m.adds| ==> ItemAccepted(m.adds[i]))
    && HeaderSafe(EntriesFrom(m.adds))
  }

  method ParseTrack(m: Manifest) returns (track: Option<Track>)
    ensures track.Some? <==> ManifestAccepted(m)
    ensures track.Some? ==> track.value == Track(m.id, EntriesFrom(m.adds), true) && JustParsed([track.value])
  {
    hide HeaderSafe, ItemAccepted, EntryOf;
    if m.schemaVersion != 1 || m.id == "" || m.adds == [] {
      return None;
    }
    var entries: seq<Entry> := [];
    for i := 0 to |m.adds|
      invariant forall k :: 0 <= k < i ==> ItemAccepted(m.adds[k])
      invariant |entries| == i && forall k :: 0 <= k < i ==> entries[k] == EntryOf(m.adds[k]) && entries[k].bytes != []
    {
      var entry := ParseItem(m.adds[i]);
      if entry.None? {
        return None;
      }
      entries := entries + [entry.value];
    }
    assert entries == EntriesFrom(m.adds);
    var safe := CheckHeader(entries);
    if !safe {
      return None;
    }
    track := Some(Track(m.id, entries, true));
  }

  method ParseItem(item: Item) returns (entry: Option<Entry>)
    ensures entry.Some? <==> ItemAccepted(item)
    ensures entry.Some? ==> entry.value == EntryOf(item) && entry.value.bytes != []
  {
    var section := SectionNamed(item.section);
    if section.None? {
      return None;
    }
    var slot := SlotNamed(section.value, item.slot);
    if slot.None? {
      return None;
    }
    var climbs := FindDots(item.path);
    if item.path == "" || climbs || item.absolute {
      return None;
    }
    if item.file.None? || |item.file.value| == 0 || |item.file.value| > MAXIMUM_FILE {
      return None;
    }
    if section.value == Textures3D && (|item.file.value| < MINIMUM_TEXTURE_PAYLOAD || |item.file.value| % 16 != 0) {
      return None;
    }
    entry := Some(Entry(section.value, slot.value, item.file.value));
  }

  method FindDots(path: string) returns (found: bool)
    ensures found == Climbs(path)
  {
    var i := 0;
    while i + 1 < |path|
      invariant forall k :: 0 <= k < i && k < |path| - 1 ==> !(path[k] == '.' && path[k + 1] == '.')
    {
      if path[i] == '.' && path[i + 1] == '.' { return true; }
      i := i + 1;
    }
    return false;
  }

  method CheckHeader(entries: seq<Entry>) returns (safe: bool)
    ensures safe == HeaderSafe(entries)
  {
    var header: Option<Entry> := None;
    for e := 0 to |entries|
      invariant header == LastHeader(entries[..e])
    {
      assert entries[..e + 1][..e] == entries[..e];
      if entries[e].section == LevelHeaders { header := Some(entries[e]); }
    }
    assert entries[..|entries|] == entries;
    if header.None? {
      return true;
    }
    var collectables := FindMap(entries, Collectables);
    var structure := FindMap(entries, Structure);
    return (FieldAt(header.value.bytes, COLLECTABLES_FIELD) != 0 || collectables)
      && (FieldAt(header.value.bytes, STRUCTURE_FIELD) != 0 || structure);
  }

  method FindMap(entries: seq<Entry>, slot: MapSlot) returns (found: bool)
    ensures found == Supplies(entries, slot)
  {
    for e := 0 to |entries|
      invariant forall k :: 0 <= k < e ==> !(entries[k].section == LevelObjectMaps && entries[k].slot == slot)
    {
      if entries[e].section == LevelObjectMaps && entries[e].slot == slot { return true; }
    }
    return false;
  }

  // ---------------------------------------------------------------------
  // What the parser accepts, in terms of names and bytes alone
  // ---------------------------------------------------------------------

  /** An accepted entry of the manifest. */
  lemma ItemExactly(item: Item)
    ensures ItemAccepted(item) <==>
      && item.section in {"LEVEL_HEADERS", "LEVEL_OBJECT_MAPS", "LEVEL_NAMES", "LEVEL_MODELS", "TEXTURES_3D"}
      && (item.section == "LEVEL_OBJECT_MAPS" ==> item.slot in {"structure", "collectables"})
      && item.path != "" && !item.absolute && !(exists a, b :: item.path == a + ".." + b)
      && item.file.Some? && 1 <= |item.file.value| <= 16_777_216
      && (item.section == "TEXTURES_3D" ==> |item.file.value| >= 40 && |item.file.value| % 16 == 0)
  {
    ClimbsExactly(item.path);
    hide Climbs;
  }

  lemma ClimbsExactly(path: string)
    ensures Climbs(path) <==> exists a, b :: path == a + ".." + b
  {
    if Climbs(path) {
      var i :| 0 <= i < |path| - 1 && path[i] == '.' && path[i + 1] == '.';
      assert path == path[..i] + ".." + path[i + 2..];
    }
    if a, b :| path == a + ".." + b {
      assert path[|a|] == '.' && path[|a| + 1] == '.';
    }
  }

  /** And what it becomes. */
  lemma EntryExactly(item: Item)
    requires ItemAccepted(item)
    ensures var e := EntryOf(item);
            && e.bytes == item.file.value
            && (e.section == LevelHeaders <==> item.section == "LEVEL_HEADERS")
            && (e.section == LevelObjectMaps <==> item.section == "LEVEL_OBJECT_MAPS")
            && (e.section == LevelNames <==> item.section == "LEVEL_NAMES")
            && (e.section == LevelModels <==> item.section == "LEVEL_MODELS")
            && (e.section == Textures3D <==> item.section == "TEXTURES_3D")
            && (e.section == LevelObjectMaps ==>
                  (e.slot == Structure <==> item.slot == "structure")
                  && (e.slot == Collectables <==> item.slot == "collectables"))
            && (e.section != LevelObjectMaps ==> e.slot == NoSlot)
  {
  }

  /** Entry `e` is a header and no later entry is one. */
  predicate IsLastHeader(entries: seq<Entry>, e: nat) {
    && e < |entries| && entries[e].section == LevelHeaders
    && forall d :: e < d < |entries| ==> entries[d].section != LevelHeaders
  }

  lemma {:induction false} LastHeaderExactly(entries: seq<Entry>, e: nat)
    requires IsLastHeader(entries, e)
    ensures LastHeader(entries) == Some(entries[e])
  {
    if e < |entries| - 1 { LastHeaderExactly(entries[..|entries| - 1], e); }
  }

  lemma {:induction false} LastHeaderExists(entries: seq<Entry>) returns (e: nat)
    requires LastHeader(entries).Some?
    ensures IsLastHeader(entries, e)
  {
    if entries[|entries| - 1].section == LevelHeaders {
      e := |entries| - 1;
    } else {
      e := LastHeaderExists(entries[..|entries| - 1]);
    }
  }

  /** The two bytes at `at` are there and both 0. */
  predicate LeftAtZero(header: seq<u8>, at: nat) {
    at + 1 < |header| && header[at] == 0 && header[at + 1] == 0
  }

  predicate HasMap(entries: seq<Entry>, slot: MapSlot) {
    exists e :: 0 <= e < |entries| && entries[e].section == LevelObjectMaps && entries[e].slot == slot
  }

  /** The check on a track's entries: if there is a header, then the last one leaves neither field at 0 that the track
      has no map for. */
  lemma HeaderSafeExactly(entries: seq<Entry>)
    ensures HeaderSafe(entries) <==>
      forall e: nat :: IsLastHeader(entries, e) ==>
        && (LeftAtZero(entries[e].bytes, 0x36) ==> HasMap(entries, Collectables))
        && (LeftAtZero(entries[e].bytes, 0xBA) ==> HasMap(entries, Structure))
  {
    hide LastHeader;
    if LastHeader(entries).Some? {
      var e := LastHeaderExists(entries);
      LastHeaderExactly(entries, e);
    }
    forall e: nat | IsLastHeader(entries, e) ensures LastHeader(entries) == Some(entries[e]) {
      LastHeaderExactly(entries, e);
    }
  }

  /** What makes a manifest acceptable. */
  lemma ManifestExactly(m: Manifest)
    ensures ManifestAccepted(m) <==>
      && m.schemaVersion == 1 && |m.id| > 0 && |m.adds| > 0
      && (forall i :: 0 <= i < |m.adds| ==> ItemAccepted(m.adds[i]))
      && HeaderSafe(EntriesFrom(m.adds))
  {
    hide ItemAccepted, HeaderSafe, EntriesFrom;
  }
}
