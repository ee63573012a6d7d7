/** What the game finds in a served custom header. */
module TrackHeaders {
  import opened Basics
  import opened BitPacking
  import opened TrackData
  import opened TrackTables
  import opened TrackSteps
  import opened TrackRuns
  import opened TrackLinks
  import opened TrackParsing
  import opened TrackHooks

  // ---------------------------------------------------------------------
  // Finding a header's own track
  // ---------------------------------------------------------------------

  lemma EntryEnds(owned: seq<Owned>, i: nat, j: nat)
    requires i < j < |owned|
    ensures SizeOf(owned[..i]) + |owned[i].entry.bytes| <= SizeOf(owned[..j])
  {
    assert owned[..i + 1][..i] == owned[..i];
    SizePrefix(owned, i + 1, j);
  }

  /** Below 2^31 an entry covers exactly its own stretch. */
  lemma CoversSpan(owned: seq<Owned>, end: u32, n: nat, j: nat, offset: nat)
    requires j < |owned| && end + SizeOf(owned) < 0x8000_0000
    ensures var from := end + SizeOf(owned[..j]);
            Covers(AddedAt(owned, end, n, j), offset) <==> from <= offset < from + |owned[j].entry.bytes|
  {
    hide Within, SizeOf;
    SizeNext(owned, j);
    SmallWord(end + SizeOf(owned[..j]));
    SmallWord(end + SizeOf(owned[..j + 1]));
  }

  /** The spans of added entries do not overlap: an offset inside entry `j` finds entry `j`. */
  lemma CoveringIsOwn(owned: seq<Owned>, end: u32, n: nat, j: nat, offset: nat)
    requires end + SizeOf(owned) < 0x8000_0000
    requires j < |owned| && Covers(AddedAt(owned, end, n, j), offset)
    ensures FindCovering(AddedOf(owned, end, n), offset) == j
  {
    hide SizeOf, Within, Covers, FindCovering, AddedAt;
    var added := AddedOf(owned, end, n);
    assert added[j] == AddedAt(owned, end, n, j);
    var i := FindCovering(added, offset);
    assert i >= 0 && added[i] == AddedAt(owned, end, n, i);
    CoversSpan(owned, end, n, i, offset);
    CoversSpan(owned, end, n, j, offset);
    if i < j { EntryEnds(owned, i, j); }
  }

  /** Header entry `j` of the last header table, within range. */
  ghost predicate HasHeader(s: State, j: nat) {
    && s.history.headers.Some?
    && var pub := s.history.headers.value;
       RetailTable(pub.retail, pub.n) && PubInRange(LevelHeaders, pub) && j < |OwnedBy(LevelHeaders, pub)|
  }

  /** And `offset` lies inside it. */
  ghost predicate HeaderAt(s: State, j: nat, offset: nat) {
    && HasHeader(s, j)
    && var pub := s.history.headers.value;
       Covers(AddedAt(OwnedBy(LevelHeaders, pub), U32(pub.retail[pub.n]), pub.n, j), offset)
  }

  function HeaderOf(s: State, j: nat): (o: Owned)
    requires HasHeader(s, j)
  {
    OwnedBy(LevelHeaders, s.history.headers.value)[j]
  }

  lemma AddedIs(owned: seq<Owned>, end: u32, n: nat, j: nat)
    requires j < |owned|
    ensures var a := AddedOf(owned, end, n)[j];
            a.trackId == owned[j].id && a.slot == owned[j].entry.slot && a.index == n + j
  {
  }

  /** An offset inside a header finds that header's track. */
  lemma HeaderFound(s: State, j: nat, offset: nat)
    requires Inv(s) && HeaderAt(s, j, offset)
    ensures var added := s.sections.headers.added;
            && s.sections.headers.built && FindCovering(added, offset) == j < |added|
            && added[j].trackId == HeaderOf(s, j).id != ""
  {
    SectionBacked(s, LevelHeaders);
    var pub := s.history.headers.value;
    var owned := OwnedBy(LevelHeaders, pub);
    var end: u32 := U32(pub.retail[pub.n]);
    EndIs(pub.retail, pub.n, owned);
    hide Inv, EnabledEntries, AddedOf, AddedAt, BlobOf, Parsed, UniqueIds, RetailTable, FindCovering, Covers, U32;
    CoveringIsOwn(owned, end, pub.n, j, offset);
    OwnedIsParsed(pub.tracks, LevelHeaders, j);
    AddedIs(owned, end, pub.n, j);
  }

  // ---------------------------------------------------------------------
  // The index that fix-up writes
  // ---------------------------------------------------------------------

  /** Entry `q` of `owned` belongs to track `id` and fills `slot`. */
  predicate Fills(owned: seq<Owned>, q: nat, id: string, slot: MapSlot) {
    q < |owned| && owned[q].id == id && owned[q].entry.slot == slot
  }

  /** If the section was built, its indices fit a signed word. */
  ghost predicate IndicesFit(s: State, section: Section) {
    s.history.At(section).Some? ==>
      var pub := s.history.At(section).value; pub.n + |OwnedBy(section, pub)| <= 0x8000_0000
  }

  /** `entry` is the first in the manifest of the enabled track with this id that goes into the section and slot. */
  predicate FirstFor(tracks: seq<Track>, section: Section, id: string, slot: MapSlot, entry: Entry) {
    exists t, e :: 0 <= t < |tracks| && 0 <= e < |tracks[t].entries| && FirstAt(tracks[t], section, id, slot, entry, e)
  }

  predicate FirstAt(track: Track, section: Section, id: string, slot: MapSlot, entry: Entry, e: nat)
    requires e < |track.entries|
  {
    && track.enabled && track.id == id && track.entries[e] == entry && entry.section == section && entry.slot == slot
    && forall d :: 0 <= d < e ==> !(track.entries[d].section == section && track.entries[d].slot == slot)
  }

  /** An earlier manifest entry that fills the slot is published earlier. */
  lemma EarlierFills(tracks: seq<Track>, section: Section, t: nat, d: nat, e: nat) returns (k: nat)
    requires t < |tracks| && tracks[t].enabled && d < e < |tracks[t].entries| && tracks[t].entries[d].section == section
    ensures k < Contributed(tracks[..t], section) + Ahead(tracks[t].entries, section, e)
    ensures Fills(EnabledEntries(tracks, section), k, tracks[t].id, tracks[t].entries[d].slot)
  {
    hide EnabledEntries, Ahead, Contributed;
    EnabledInOrder(tracks, section, t, d);
    AheadGrows(tracks[t].entries, section, d, e);
    k := Contributed(tracks[..t], section) + Ahead(tracks[t].entries, section, d);
  }

  /** The first published entry that fills a slot for a track is the first one of its manifest that does. */
  lemma FirstFilled(tracks: seq<Track>, section: Section, id: string, slot: MapSlot, q: nat)
    requires Fills(EnabledEntries(tracks, section), q, id, slot)
    requires forall k: nat :: k < q ==> !Fills(EnabledEntries(tracks, section), k, id, slot)
    ensures FirstFor(tracks, section, id, slot, EnabledEntries(tracks, section)[q].entry)
  {
    hide EnabledEntries, Ahead, Contributed;
    var t, e := EnabledListed(tracks, section, q);
    forall d | 0 <= d < e ensures !(tracks[t].entries[d].section == section && tracks[t].entries[d].slot == slot) {
      if tracks[t].entries[d].section == section && tracks[t].entries[d].slot == slot {
        var k := EarlierFills(tracks, section, t, d, e);
      }
    }
    assert FirstAt(tracks[t], section, id, slot, EnabledEntries(tracks, section)[q].entry, e);
  }

  /** `index` is that of entry `q`, the first published one that fills the slot for this track and the first of its
      manifest that does; within range it is served. */
  ghost predicate NamesEntry(to: Section, state: SectionState, pub: Publication, index: int, id: string, slot: MapSlot,
                             q: nat) {
    && RetailTable(pub.retail, pub.n) && Fills(OwnedBy(to, pub), q, id, slot) && index == pub.n + q
    && (forall k: nat :: k < q ==> !Fills(OwnedBy(to, pub), k, id, slot))
    && FirstFor(pub.tracks, to, id, slot, OwnedBy(to, pub)[q].entry)
    && (PubInRange(to, pub) ==> Serves(to, state, pub, q))
  }

  /** What the added entries of a built section are. */
  lemma AddedEntries(s: State, to: Section)
    requires Inv(s) && s.history.At(to).Some?
    ensures var target, added := s.history.At(to).value, s.sections.At(to).added;
            && s.sections.At(to).built && |added| == |OwnedBy(to, target)| && RetailTable(target.retail, target.n)
            && forall q :: 0 <= q < |added| ==>
                 && added[q].trackId == OwnedBy(to, target)[q].id
                 && added[q].slot == OwnedBy(to, target)[q].entry.slot && added[q].index == target.n + q
  {
    hide Inv, EnabledEntries, AddedOf, BlobOf, Parsed, UniqueIds, U32;
    SectionBacked(s, to);
    var target := s.history.At(to).value;
    var others := OwnedBy(to, target);
    forall q | 0 <= q < |others|
      ensures s.sections.At(to).added[q].trackId == others[q].id
      ensures s.sections.At(to).added[q].slot == others[q].entry.slot
        && s.sections.At(to).added[q].index == target.n + q
    {
      AddedIs(others, U32(target.retail[target.n]), target.n, q);
    }
  }

  lemma SiblingFound(s: State, to: Section, id: string, slot: MapSlot)
    requires Inv(s) && s.history.At(to).Some?
    ensures s.sections.At(to).built
    ensures var target, added := s.history.At(to).value, s.sections.At(to).added;
            var q := FindSibling(added, id, slot);
            && (q >= 0 ==> NamesEntry(to, s.sections.At(to), target, added[q].index, id, slot, q))
            && (q < 0 ==> forall k :: !Fills(OwnedBy(to, target), k, id, slot))
  {
    hide Inv, EnabledEntries, RetailTable, PubInRange, Serves, FindSibling, FirstFor, Backed,
      PerSection<SectionState>.At;
    AddedEntries(s, to);
    var target, added := s.history.At(to).value, s.sections.At(to).added;
    var q := FindSibling(added, id, slot);
    if q >= 0 {
      FirstFilled(target.tracks, to, id, slot, q);
      if PubInRange(to, target) {
        SectionBacked(s, to);
        BackedServes(to, s.sections.At(to), target, q);
      }
    }
  }

  /** The index that fix-up writes names an entry of the header's own track, of the section and slot asked for. None is
      written exactly when the section was not built, or was built without such an entry. */
  lemma FixupNamesOwnEntry(s: State, j: nat, offset: nat, to: Section, slot: MapSlot)
    requires Inv(s) && HeaderAt(s, j, offset) && IndicesFit(s, to)
    ensures var id, target := HeaderOf(s, j).id, s.history.At(to);
            var index := SiblingIndex(s, LevelHeaders, offset, to, slot);
            && (index >= 0 ==> target.Some?
                               && exists q :: NamesEntry(to, s.sections.At(to), target.value, index, id, slot, q))
            && (index < 0 ==> target.None? || forall q :: !Fills(OwnedBy(to, target.value), q, id, slot))
  {
    assert HasHeader(s, j);
    hide Inv, HasHeader, HeaderAt, HeaderOf, EnabledEntries, NamesEntry, FindCovering, FindSibling, Fills, IndicesFit,
      SiblingIndex, PerSection<SectionState>.At;
    var id, target := HeaderOf(s, j).id, s.history.At(to);
    if target.Some? {
      HeaderFound(s, j, offset);
      SiblingFound(s, to, id, slot);
      var q := FindSibling(s.sections.At(to).added, id, slot);
      SiblingIndexIs(s, j, offset, to, slot);
      if q >= 0 { EntryIndexFits(s, to, s.sections.At(to).added[q].index, id, slot, q); }
    } else {
      UnbuiltSection(s, to);
      NoSiblingUnbuilt(s, offset, to, slot);
    }
  }

  lemma NoSiblingUnbuilt(s: State, offset: nat, to: Section, slot: MapSlot)
    requires !s.sections.At(to).built
    ensures SiblingIndex(s, LevelHeaders, offset, to, slot) == -1
  {
  }

  lemma SiblingIndexIs(s: State, j: nat, offset: nat, to: Section, slot: MapSlot)
    requires s.sections.headers.built && s.sections.At(to).built && j < |s.sections.headers.added|
    requires FindCovering(s.sections.headers.added, offset) == j && s.sections.headers.added[j].trackId != ""
    ensures var added := s.sections.At(to).added;
            var q := FindSibling(added, s.sections.headers.added[j].trackId, slot);
            SiblingIndex(s, LevelHeaders, offset, to, slot)
            == if q < 0 || added[q].index >= 0x8000_0000 then -1 else added[q].index
  {
    hide FindCovering, FindSibling;
  }

  lemma UnbuiltSection(s: State, section: Section)
    requires Inv(s) && s.history.At(section).None?
    ensures !s.sections.At(section).built
  {
    SectionBacked(s, section);
  }

  lemma EntryIndexFits(s: State, to: Section, index: int, id: string, slot: MapSlot, q: nat)
    requires s.history.At(to).Some? && IndicesFit(s, to)
    requires NamesEntry(to, s.sections.At(to), s.history.At(to).value, index, id, slot, q)
    ensures 0 <= index < 0x8000_0000
  {
    hide RetailTable, PubInRange, Serves, EnabledEntries;
  }

  // ---------------------------------------------------------------------
  // The three fields
  // ---------------------------------------------------------------------

  /** What a fix-up leaves in its field: the index, if the header holds the field and there is an index. */
  function FixedValue(s: State, header: seq<u8>, offset: nat, at: nat, to: Section, slot: MapSlot): (v: int) {
    var index := SiblingIndex(s, LevelHeaders, offset, to, slot);
    if at + 2 <= |header| && index >= 0 then index % 0x1_0000 else FieldAt(header, at)
  }

  /** Each fix-up writes its own field and leaves the other two alone, in a header of any length. */
  lemma ServedFields(s: State, header: seq<u8>, offset: nat)
    ensures var r := ServedHeader(s, header, offset);
            && FieldAt(r, 0x34) == FixedValue(s, header, offset, 0x34, LevelModels, NoSlot)
            && FieldAt(r, 0x36) == FixedValue(s, header, offset, 0x36, LevelObjectMaps, Collectables)
            && FieldAt(r, 0xBA) == FixedValue(s, header, offset, 0xBA, LevelObjectMaps, Structure)
  {
    hide SiblingIndex, Fixed, FieldAt;
    var a := FixedBy(s, header, offset, FIXUPS[0]);
    var b := FixedBy(s, a, offset, FIXUPS[1]);
    FixedField(header, 0x34, SiblingIndex(s, LevelHeaders, offset, LevelModels, NoSlot));
    FixedField(a, 0x36, SiblingIndex(s, LevelHeaders, offset, LevelObjectMaps, Collectables));
    FixedField(b, 0xBA, SiblingIndex(s, LevelHeaders, offset, LevelObjectMaps, Structure));
  }

  /** Byte `k` of a served header is changed by no fix-up but its own, which writes the index with its high byte first.
      */
  lemma ServedBytes(s: State, header: seq<u8>, offset: nat, k: nat)
    requires k < |header|
    ensures var r := ServedHeader(s, header, offset);
            var model := SiblingIndex(s, LevelHeaders, offset, LevelModels, NoSlot);
            var collectables := SiblingIndex(s, LevelHeaders, offset, LevelObjectMaps, Collectables);
            var structure := SiblingIndex(s, LevelHeaders, offset, LevelObjectMaps, Structure);
            && |r| == |header|
            && r[k] == if k == 0x34 then HighByte(header, k, model) else if k == 0x35 then LowByte(header, k, model)
                       else if k == 0x36 then HighByte(header, k, collectables)
                       else if k == 0x37 then LowByte(header, k, collectables)
                       else if k == 0xBA then HighByte(header, k, structure)
                       else if k == 0xBB then LowByte(header, k, structure)
                       else header[k]
  {
    hide SiblingIndex;
  }

  function HighByte(header: seq<u8>, k: nat, index: int): (b: u8)
    requires k < |header|
  {
    if index >= 0 && k + 1 < |header| then index / 256 % 256 else header[k]
  }

  function LowByte(header: seq<u8>, k: nat, index: int): (b: u8)
    requires k < |header|
  {
    if index >= 0 then index % 256 else header[k]
  }

  lemma FixedField(header: seq<u8>, at: nat, index: int)
    ensures FieldAt(Fixed(header, at, index), at)
         == if at + 2 <= |header| && index >= 0 then index % 0x1_0000 else FieldAt(header, at)
    ensures forall other :: 0 <= other && (other + 1 < at || at + 1 < other) ==>
      FieldAt(Fixed(header, at, index), other) == FieldAt(header, other)
  {
    if index >= 0 { SixteenBits(index); }
  }

  lemma SixteenBits(v: nat)
    ensures v / 256 % 256 * 256 + v % 256 == v % 0x1_0000
  {
    var q := v / 256;
    assert q / 256 == v / 0x1_0000;
  }

  // ---------------------------------------------------------------------
  // What a track supplies and what is published
  // ---------------------------------------------------------------------

  lemma {:induction false} EntriesOfContains(entries: seq<Entry>, section: Section, e: nat) returns (k: nat)
    requires e < |entries| && entries[e].section == section
    ensures k < |EntriesOf(entries, section)| && EntriesOf(entries, section)[k] == entries[e]
  {
    var front := entries[..|entries| - 1];
    if e < |front| { k := EntriesOfContains(front, section, e); } else { k := |EntriesOf(front, section)|; }
  }

  /** A map that an enabled track supplies is among the published object maps. */
  lemma SuppliedIsPublished(tracks: seq<Track>, t: nat, slot: MapSlot) returns (q: nat)
    requires UniqueIds(tracks) && t < |tracks| && tracks[t].enabled && Supplies(tracks[t].entries, slot)
    ensures Fills(EnabledEntries(tracks, LevelObjectMaps), q, tracks[t].id, slot)
  {
    hide EnabledEntries, EntriesOf, Within, UniqueIds;
    var e :| 0 <= e < |tracks[t].entries|
      && tracks[t].entries[e].section == LevelObjectMaps && tracks[t].entries[e].slot == slot;
    var k := EntriesOfContains(tracks[t].entries, LevelObjectMaps, e);
    q := ManifestPosition(tracks, LevelObjectMaps, t, k);
  }

  /** And a published object map is one that its own track supplies. */
  lemma PublishedIsSupplied(tracks: seq<Track>, t: nat, slot: MapSlot, q: nat)
    requires UniqueIds(tracks) && t < |tracks| && Fills(EnabledEntries(tracks, LevelObjectMaps), q, tracks[t].id, slot)
    ensures Supplies(tracks[t].entries, slot)
  {
    hide EnabledEntries, EntriesOf, Within, UniqueIds;
    var k := EntryOfTrack(tracks, LevelObjectMaps, t, q);
    EntriesOfMember(tracks[t].entries, LevelObjectMaps, k);
    var e :| 0 <= e < |tracks[t].entries| && tracks[t].entries[e] == EntriesOf(tracks[t].entries, LevelObjectMaps)[k];
    assert tracks[t].entries[e].section == LevelObjectMaps && tracks[t].entries[e].slot == slot;
  }

  // ---------------------------------------------------------------------
  // What a load delivers
  // ---------------------------------------------------------------------

  /** The offset that the game computes for header `j`. */
  function HeaderOffset(s: State, j: nat): (offset: int)
    requires HasHeader(s, j)
  {
    var pub := s.history.headers.value;
    pub.retail[pub.n] + SizeOf(OwnedBy(LevelHeaders, pub)[..j])
  }

  lemma HeaderInTable(s: State, j: nat)
    requires HasHeader(s, j)
    ensures var pub := s.history.headers.value;
            var table := Published(pub.retail, pub.n, OwnedBy(LevelHeaders, pub));
            && pub.n + j + 1 < |table| && table[pub.n + j] == HeaderOffset(s, j) >= 0
            && GameSize(table, pub.n + j) == |HeaderOf(s, j).entry.bytes|
    ensures HeaderOf(s, j).entry.bytes != [] ==> HeaderAt(s, j, HeaderOffset(s, j))
  {
    hide EnabledEntries, Published, SizeOf, Covers, AddedAt, U32;
    var pub := s.history.headers.value;
    var owned := OwnedBy(LevelHeaders, pub);
    EndIs(pub.retail, pub.n, owned);
    CustomEntry(pub.retail, pub.n, owned, j);
    CoversSpan(owned, U32(pub.retail[pub.n]), pub.n, j, HeaderOffset(s, j));
  }

  /** The header section is what its last build made of it. */
  lemma HeaderSection(s: State)
    requires Inv(s) && s.history.headers.Some?
    ensures var pub := s.history.headers.value;
            && RetailTable(pub.retail, pub.n)
            && s.sections.headers
               == SectionOf(LevelHeaders, OwnedBy(LevelHeaders, pub), U32(pub.retail[pub.n]), pub.n, pub.textures)
  {
    hide RetailTable, SectionOf, EnabledEntries, UniqueIds, Parsed;
    assert Backed(LevelHeaders, s.sections.At(LevelHeaders), s.history.At(LevelHeaders));
  }

  lemma HeaderPayload(s: State, j: nat, size: nat)
    requires Inv(s) && HasHeader(s, j) && 0 < size <= |HeaderOf(s, j).entry.bytes| && 0 <= HeaderOffset(s, j)
    ensures PayloadFor(s.sections.headers, HeaderOffset(s, j), size) == Some(HeaderOf(s, j).entry.bytes[..size])
  {
    hide Inv, HeaderAt, HeaderOffset, EnabledEntries, Published, PayloadFor, SectionOf, RetailTable, InRange, U32;
    HeaderInTable(s, j);
    HeaderSection(s);
    var pub := s.history.headers.value;
    EntryRangeServed(LevelHeaders, pub.retail, pub.n, OwnedBy(LevelHeaders, pub), pub.textures, j, 0, size);
    assert HeaderOffset(s, j) + 0 == HeaderOffset(s, j);
  }

  /** Reading the first `size` bytes of header `j`, at the offset that the game computes, delivers those bytes with
      their fix-ups. Both of the game's reads are of this kind: the whole entry, and the 196 bytes of the world scan. */
  lemma HeaderDelivered(s: State, j: nat, size: nat)
    requires Inv(s) && HasHeader(s, j) && 0 < size <= |HeaderOf(s, j).entry.bytes|
    ensures HeaderAt(s, j, HeaderOffset(s, j)) && 0 <= HeaderOffset(s, j)
    ensures Delivered(s, LevelHeaders, HeaderOffset(s, j), size)
         == Some(ServedHeader(s, HeaderOf(s, j).entry.bytes[..size], HeaderOffset(s, j)))
  {
    hide Inv, HasHeader, HeaderAt, HeaderOffset, HeaderOf, Published, PayloadFor, ServedHeader, EnabledEntries;
    HeaderInTable(s, j);
    HeaderPayload(s, j, size);
  }

  /** The size of the header read that the game makes for every level at start-up. */
  const HEADER_READ: nat := 196

  /** That read of a header which is shorter does not stop at its end: it goes on with the headers behind it, and when
      they end too soon nothing is replaced at all. */
  lemma ShortHeaderOverruns(s: State, j: nat)
    requires Inv(s) && HasHeader(s, j) && 0 < |HeaderOf(s, j).entry.bytes| < HEADER_READ
    ensures var blob, next := s.sections.headers.blob, SizeOf(OwnedBy(LevelHeaders, s.history.headers.value)[..j + 1]);
            && next <= |blob| && 0 <= HeaderOffset(s, j)
            && var rest := HeaderOf(s, j).entry.bytes + blob[next..];
               Delivered(s, LevelHeaders, HeaderOffset(s, j), HEADER_READ)
               == if HEADER_READ <= |rest| then Some(ServedHeader(s, rest[..HEADER_READ], HeaderOffset(s, j))) else None
  {
    HeaderInTable(s, j);
    SectionBacked(s, LevelHeaders);
    var pub := s.history.headers.value;
    OverrunServed(LevelHeaders, pub.retail, pub.n, OwnedBy(LevelHeaders, pub), pub.textures, j, HEADER_READ);
    hide Inv, HeaderAt, HeaderOffset, EnabledEntries, Published, PayloadFor, ServedHeader, BlobOf, AddedOf, UniqueIds,
      Parsed, RetailTable, InRange, U32, SizeOf;
  }

  /** A manifest whose only entry is a header of one byte. */
  function ShortHeader(byte: u8): (m: Manifest) {
    Manifest(1, "short", [Item("LEVEL_HEADERS", "", "header.bin", false, Some([byte]))])
  }

  /** Nothing in the parser asks for 196 bytes: such a manifest is accepted. */
  lemma ShortHeaderAccepted(byte: u8)
    ensures ManifestAccepted(ShortHeader(byte))
  {
    var m := ShortHeader(byte);
    assert ItemAccepted(m.adds[0]);
    var entries := EntriesFrom(m.adds);
    assert LastHeader(entries) == Some(entries[0]);
  }

  /** Every texture of an accepted manifest has at least the forty bytes that `load_texture` peeks at. */
  lemma AcceptedTextureIsLong(items: seq<Item>, k: nat)
    requires forall i :: 0 <= i < |items| ==> ItemAccepted(items[i])
    requires k < |EntriesOf(EntriesFrom(items), Textures3D)|
    ensures |EntriesOf(EntriesFrom(items), Textures3D)[k].bytes| >= MINIMUM_TEXTURE_PAYLOAD
  {
    hide EntriesOf;
    var entries := EntriesFrom(items);
    EntriesOfMember(entries, Textures3D, k);
    var e :| 0 <= e < |entries| && entries[e] == EntriesOf(entries, Textures3D)[k];
    assert entries[e] == EntryOf(items[e]) && ItemAccepted(items[e]);
  }

  /** So the peek at a published texture of an accepted track, at the offset that the game computes, reads that
      texture's own first forty bytes and nothing else. */
  lemma TexturePeekServed(state: SectionState, pub: Publication, p: nat, t: nat, items: seq<Item>)
    requires Backed(Textures3D, state, Some(pub)) && PubInRange(Textures3D, pub) && p < |OwnedBy(Textures3D, pub)|
    requires t < |pub.tracks| && pub.tracks[t].id == OwnedBy(Textures3D, pub)[p].id
    requires (forall i :: 0 <= i < |items| ==> ItemAccepted(items[i])) && pub.tracks[t].entries == EntriesFrom(items)
    ensures var table := Published(pub.retail, pub.n, OwnedBy(Textures3D, pub));
            && |OwnedBy(Textures3D, pub)[p].entry.bytes| >= MINIMUM_TEXTURE_PAYLOAD
            && pub.n + p + 1 < |table| && table[pub.n + p] >= 0
            && PayloadFor(state, table[pub.n + p], MINIMUM_TEXTURE_PAYLOAD)
               == Some(OwnedBy(Textures3D, pub)[p].entry.bytes[..MINIMUM_TEXTURE_PAYLOAD])
  {
    hide SectionOf, PayloadFor, Published, EnabledEntries, EntriesOf, UniqueIds, Parsed, RetailTable, InRange, U32,
      EntriesFrom, ItemAccepted;
    var k := EntryOfTrack(pub.tracks, Textures3D, t, p);
    AcceptedTextureIsLong(items, k);
    EntryRangeServed(Textures3D, pub.retail, pub.n, OwnedBy(Textures3D, pub), pub.textures, p, 0,
                     MINIMUM_TEXTURE_PAYLOAD);
  }

  /** Every contribution comes from an enabled track with its id. */
  lemma OwnerOf(tracks: seq<Track>, section: Section, p: nat) returns (t: nat)
    requires UniqueIds(tracks) && p < |EnabledEntries(tracks, section)|
    ensures t < |tracks| && tracks[t].enabled && tracks[t].id == EnabledEntries(tracks, section)[p].id
  {
    hide EnabledEntries, EntriesOf, Within, UniqueIds;
    ManifestOrder(tracks, section, p);
    var owned := EnabledEntries(tracks, section);
    t :| 0 <= t < |tracks| && Ships(tracks[t], section, owned[p].id, Within(owned[..p], owned[p].id), owned[p].entry);
  }

  /** A contribution is one of the entries of the track with its id. */
  lemma EntryOfTrack(tracks: seq<Track>, section: Section, t: nat, p: nat) returns (k: nat)
    requires UniqueIds(tracks) && t < |tracks| && p < |EnabledEntries(tracks, section)|
    requires EnabledEntries(tracks, section)[p].id == tracks[t].id
    ensures k < |EntriesOf(tracks[t].entries, section)|
    ensures EnabledEntries(tracks, section)[p].entry == EntriesOf(tracks[t].entries, section)[k]
    ensures k == Within(EnabledEntries(tracks, section)[..p], tracks[t].id)
  {
    hide EnabledEntries, EntriesOf, Within;
    var owned := EnabledEntries(tracks, section);
    ManifestOrder(tracks, section, p);
    k := Within(owned[..p], owned[p].id);
    var u :| 0 <= u < |tracks| && Ships(tracks[u], section, owned[p].id, k, owned[p].entry);
    ShipsListed(tracks[u], section, owned[p].id, k, owned[p].entry);
    assert u == t;
  }

  // ---------------------------------------------------------------------
  // Object-map fields
  // ---------------------------------------------------------------------

  /** Some enabled track with this id supplies a map for the slot. */
  predicate SuppliedBy(tracks: seq<Track>, id: string, slot: MapSlot) {
    exists t :: 0 <= t < |tracks| && SuppliesAs(tracks[t], id, slot)
  }

  predicate SuppliesAs(track: Track, id: string, slot: MapSlot) {
    track.enabled && track.id == id && Supplies(track.entries, slot)
  }

  /** The object maps were built, and at that moment this track was enabled and supplied one for the slot. */
  predicate MapOffered(s: State, id: string, slot: MapSlot) {
    s.history.objectMaps.Some? && SuppliedBy(s.history.objectMaps.value.tracks, id, slot)
  }

  /** If the object maps were built, there is at least one retail map and all indices fit the header's 16-bit fields. */
  ghost predicate MapIndicesFit(s: State) {
    s.history.objectMaps.Some? ==>
      var maps := s.history.objectMaps.value; 1 <= maps.n && maps.n + |OwnedBy(LevelObjectMaps, maps)| <= 0x1_0000
  }

  predicate MapField(at: nat, slot: MapSlot) {
    (at, slot) in {(COLLECTABLES_FIELD, Collectables), (STRUCTURE_FIELD, Structure)}
  }

  lemma OfferedIsPublished(tracks: seq<Track>, id: string, slot: MapSlot)
    requires UniqueIds(tracks)
    ensures SuppliedBy(tracks, id, slot) <==> exists q :: Fills(EnabledEntries(tracks, LevelObjectMaps), q, id, slot)
  {
    hide EnabledEntries, Supplies, UniqueIds;
    if SuppliedBy(tracks, id, slot) {
      var t :| 0 <= t < |tracks| && SuppliesAs(tracks[t], id, slot);
      var q := SuppliedIsPublished(tracks, t, slot);
    }
    if q :| Fills(EnabledEntries(tracks, LevelObjectMaps), q, id, slot) {
      var t := OwnerOf(tracks, LevelObjectMaps, q);
      PublishedIsSupplied(tracks, t, slot, q);
      assert SuppliesAs(tracks[t], id, slot);
    }
  }

  /** Fix-up finds a map for the slot exactly when the last object-map build was offered one by the header's track. */
  lemma MapFoundExactly(s: State, j: nat, offset: nat, slot: MapSlot)
    requires Inv(s) && HeaderAt(s, j, offset) && MapIndicesFit(s)
    ensures var index := SiblingIndex(s, LevelHeaders, offset, LevelObjectMaps, slot);
            && (index >= 0 <==> MapOffered(s, HeaderOf(s, j).id, slot))
            && (index >= 0 ==> 0 < index < 0x1_0000)
  {
    assert HasHeader(s, j);
    hide Inv, HeaderAt, EnabledEntries, SiblingIndex, Serves, SuppliedBy, RetailTable, PubInRange;
    var id, maps := HeaderOf(s, j).id, s.history.objectMaps;
    FixupNamesOwnEntry(s, j, offset, LevelObjectMaps, slot);
    if maps.Some? {
      MapTracksUnique(s);
      OfferedIsPublished(maps.value.tracks, id, slot);
    }
    var index := SiblingIndex(s, LevelHeaders, offset, LevelObjectMaps, slot);
    if index >= 0 {
      var q :| NamesEntry(LevelObjectMaps, s.sections.At(LevelObjectMaps), maps.value, index, id, slot, q);
      assert exists k :: Fills(EnabledEntries(maps.value.tracks, LevelObjectMaps), k, id, slot) by {
        assert Fills(EnabledEntries(maps.value.tracks, LevelObjectMaps), q, id, slot);
      }
    }
  }

  lemma MapTracksUnique(s: State)
    requires Inv(s) && s.history.objectMaps.Some?
    ensures UniqueIds(s.history.objectMaps.value.tracks)
  {
    SectionBacked(s, LevelObjectMaps);
  }

  lemma FieldOfPrefix(header: seq<u8>, size: nat, at: nat)
    requires at + 2 <= size <= |header|
    ensures FieldAt(header[..size], at) == FieldAt(header, at)
  {
  }

  lemma ServedMapField(s: State, header: seq<u8>, offset: nat, at: nat, slot: MapSlot)
    requires MapField(at, slot)
    ensures FieldAt(ServedHeader(s, header, offset), at) == FixedValue(s, header, offset, at, LevelObjectMaps, slot)
  {
    hide ServedHeader, FieldAt, FixedValue;
    ServedFields(s, header, offset);
  }

  /** Exactly, in every state: a read of any custom header, long enough to hold the field, finds an object map other
      than 0 if and only if the author wrote one or the last object-map build was offered one by the header's track. */
  lemma LoadedMapField(s: State, j: nat, size: nat, at: nat, slot: MapSlot)
    requires Inv(s) && HasHeader(s, j) && MapIndicesFit(s) && MapField(at, slot)
    requires at + 2 <= size <= |HeaderOf(s, j).entry.bytes|
    ensures 0 <= HeaderOffset(s, j)
    ensures var d := Delivered(s, LevelHeaders, HeaderOffset(s, j), size);
            && d.Some? && |d.value| == size
            && (FieldAt(d.value, at) != 0 <==>
                  FieldAt(HeaderOf(s, j).entry.bytes, at) != 0 || MapOffered(s, HeaderOf(s, j).id, slot))
  {
    hide Inv, MapIndicesFit, HasHeader, HeaderAt, HeaderOffset, HeaderOf, Delivered, ServedHeader, FieldAt,
      SiblingIndex, MapOffered;
    HeaderDelivered(s, j, size);
    MapFoundExactly(s, j, HeaderOffset(s, j), slot);
    FieldOfPrefix(HeaderOf(s, j).entry.bytes, size, at);
    ServedMapField(s, HeaderOf(s, j).entry.bytes[..size], HeaderOffset(s, j), at, slot);
  }

  // ---------------------------------------------------------------------
  // Maps and headers from the same tracks
  // ---------------------------------------------------------------------

  /** The object maps were built from the same tracks as the headers. */
  ghost predicate MapsMatch(s: State) {
    && s.history.objectMaps.Some? && s.history.headers.Some? && MapIndicesFit(s)
    && s.history.objectMaps.value.tracks == s.history.headers.value.tracks
  }

  /** Track `t` is the one that header `j` came from. */
  ghost predicate OwnerIs(s: State, j: nat, t: nat) {
    && HasHeader(s, j) && t < |s.history.headers.value.tracks|
    && s.history.headers.value.tracks[t].enabled && s.history.headers.value.tracks[t].id == HeaderOf(s, j).id
  }

  /** Then a map is on offer exactly when the header's own track supplies it. */
  lemma OfferedByOwner(s: State, j: nat, t: nat, slot: MapSlot)
    requires Inv(s) && MapsMatch(s) && OwnerIs(s, j, t)
    ensures MapOffered(s, HeaderOf(s, j).id, slot) <==> Supplies(s.history.headers.value.tracks[t].entries, slot)
  {
    UniqueTracks(s);
    hide Inv, EnabledEntries, Supplies, RetailTable, PubInRange;
    var tracks := s.history.headers.value.tracks;
    if Supplies(tracks[t].entries, slot) { assert SuppliesAs(tracks[t], HeaderOf(s, j).id, slot); }
  }

  /** The header that the parser judged, the last of its accepted track, never reaches the game with object map 0. */
  lemma JudgedHeaderHasNoZeroMap(s: State, j: nat, size: nat, t: nat, at: nat, slot: MapSlot)
    requires Inv(s) && MapsMatch(s) && OwnerIs(s, j, t) && MapField(at, slot)
    requires at + 2 <= size <= |HeaderOf(s, j).entry.bytes|
    requires HeaderSafe(s.history.headers.value.tracks[t].entries)
    requires LastHeader(s.history.headers.value.tracks[t].entries) == Some(HeaderOf(s, j).entry)
    ensures 0 <= HeaderOffset(s, j)
    ensures var d := Delivered(s, LevelHeaders, HeaderOffset(s, j), size);
            d.Some? && FieldAt(d.value, at) != 0
  {
    hide Inv, MapIndicesFit, MapOffered, HasHeader, HeaderOffset, HeaderOf, Delivered, FieldAt, Supplies, LastHeader;
    LoadedMapField(s, j, size, at, slot);
    OfferedByOwner(s, j, t, slot);
  }

  /** In particular the only header of an accepted track, since that is the one that its parser judged. */
  lemma OnlyHeaderHasNoZeroMap(s: State, j: nat, size: nat, t: nat, at: nat, slot: MapSlot)
    requires Inv(s) && MapsMatch(s) && OwnerIs(s, j, t) && MapField(at, slot)
    requires at + 2 <= size <= |HeaderOf(s, j).entry.bytes|
    requires HeaderSafe(s.history.headers.value.tracks[t].entries)
    requires |EntriesOf(s.history.headers.value.tracks[t].entries, LevelHeaders)| == 1
    ensures 0 <= HeaderOffset(s, j)
    ensures var d := Delivered(s, LevelHeaders, HeaderOffset(s, j), size);
            d.Some? && FieldAt(d.value, at) != 0
  {
    hide Inv, MapsMatch, HeaderOffset, EnabledEntries, EntriesOf, Delivered, FieldAt, HeaderSafe, RetailTable,
      PubInRange, LastHeader;
    var tracks := s.history.headers.value.tracks;
    UniqueTracks(s);
    var k := EntryOfTrack(tracks, LevelHeaders, t, j);
    LastHeaderIs(tracks[t].entries);
    JudgedHeaderHasNoZeroMap(s, j, size, t, at, slot);
  }

  lemma UniqueTracks(s: State)
    requires Inv(s) && s.history.headers.Some?
    ensures UniqueIds(s.history.headers.value.tracks)
  {
    SectionBacked(s, LevelHeaders);
  }

  lemma {:induction false} LastHeaderIs(entries: seq<Entry>)
    ensures var headers := EntriesOf(entries, LevelHeaders);
            LastHeader(entries) == if headers == [] then None else Some(headers[|headers| - 1])
  {
    if entries != [] { LastHeaderIs(entries[..|entries| - 1]); }
  }

  // ---------------------------------------------------------------------
  // A track with two headers
  // ---------------------------------------------------------------------

  /** A full-size header with one value in every byte. */
  function Filled(byte: u8): (header: seq<u8>)
    ensures |header| == HEADER_READ
  {
    seq(HEADER_READ, _ => byte)
  }

  function HeaderItem(byte: u8): (item: Item) {
    Item("LEVEL_HEADERS", "", "header.bin", false, Some(Filled(byte)))
  }

  /** No maps, a first header with object map 0 and a second one that names retail maps. */
  function TwoHeaders(): (m: Manifest) {
    Manifest(1, "two", [HeaderItem(0), HeaderItem(1)])
  }

  function TwoHeaderTrack(): (track: Track)
    ensures track.id == "two" && track.enabled
  {
    Track("two", [Entry(LevelHeaders, NoSlot, Filled(0)), Entry(LevelHeaders, NoSlot, Filled(1))], true)
  }

  function TwoHeaderRun(): (ops: seq<Op>) {
    [Scan([TwoHeaderTrack()], None),
     Build(LevelObjectMaps, Some(SAMPLE_TABLE), [TwoHeaderTrack()], None),
     Build(LevelHeaders, Some(SAMPLE_TABLE), [TwoHeaderTrack()], None)]
  }

  lemma HeaderItemAccepted(byte: u8)
    ensures ItemAccepted(HeaderItem(byte)) && EntryOf(HeaderItem(byte)) == Entry(LevelHeaders, NoSlot, Filled(byte))
  {
    hide Filled;
  }

  lemma TwoHeadersAccepted()
    ensures ManifestAccepted(TwoHeaders())
    ensures TwoHeaderTrack() == Track(TwoHeaders().id, EntriesFrom(TwoHeaders().adds), true)
  {
    HeaderItemAccepted(0);
    HeaderItemAccepted(1);
    hide ItemAccepted, EntryOf, Filled;
    var entries := EntriesFrom(TwoHeaders().adds);
    assert entries == TwoHeaderTrack().entries;
    assert LastHeader(entries) == Some(entries[1]);
    FilledWithOne();
  }

  lemma FilledWithOne()
    ensures FieldAt(Filled(1), COLLECTABLES_FIELD) == 257 == FieldAt(Filled(1), STRUCTURE_FIELD)
  {
  }

  lemma PairOfEntries(a: Entry, b: Entry, section: Section)
    ensures EntriesOf([a, b], section)
         == (if a.section == section then [a] else []) + (if b.section == section then [b] else [])
  {
    assert [a, b][..1] == [a] && [a][..0] == [];
    assert EntriesOf([a], section) == if a.section == section then [a] else [];
  }

  lemma SingleTrack(track: Track, section: Section)
    requires track.enabled
    ensures EnabledEntries([track], section) == Own(track.id, EntriesOf(track.entries, section))
  {
    hide Own, EntriesOf;
    EnabledNext([track], section, 0);
    assert [track][..1] == [track] && [track][..0] == [];
  }

  lemma TwoHeaderEntries()
    ensures var track := TwoHeaderTrack();
            && EnabledEntries([track], LevelObjectMaps) == []
            && EnabledEntries([track], LevelHeaders) == [Owned("two", track.entries[0]), Owned("two", track.entries[1])]
  {
    hide EnabledEntries, EntriesOf, Filled;
    var track := TwoHeaderTrack();
    SingleTrack(track, LevelObjectMaps);
    SingleTrack(track, LevelHeaders);
    PairOfEntries(track.entries[0], track.entries[1], LevelObjectMaps);
    PairOfEntries(track.entries[0], track.entries[1], LevelHeaders);
  }

  lemma TwoHeadersLegal()
    ensures Legal(TwoHeaderRun())
  {
    TerminatorUnique(SAMPLE_TABLE, 2);
    assert ParsedTrack(TwoHeaderTrack());
    hide Terminator, ParsedTrack;
  }

  /** The state after the run: both sections built from the one track, over the sample table. */
  lemma TwoHeadersBuilt()
    ensures var s := Run(INITIAL, TwoHeaderRun());
            var pub := Publication(SAMPLE_TABLE, 1, [TwoHeaderTrack()], UNBUILT);
            s.history.objectMaps == Some(pub) && s.history.headers == Some(pub)
  {
    var ops, track := TwoHeaderRun(), TwoHeaderTrack();
    assert Distinct([track]) == [track] by { assert [track][..0] == [] && Distinct([]) == []; }
    RunThree(INITIAL, ops[0], ops[1], ops[2]);
    var s1 := Step(INITIAL, ops[0]);
    hide Distinct, BuildStep, TwoHeaderTrack, RetailTable, BuiltState, Run;
    SampleTableBuilt(s1, LevelObjectMaps, [track]);
    BuiltRecords(s1, LevelObjectMaps, SAMPLE_TABLE, 1);
    var s2 := Step(s1, ops[1]);
    SampleTableBuilt(s2, LevelHeaders, [track]);
    BuiltRecords(s2, LevelHeaders, SAMPLE_TABLE, 1);
    assert s2.sections.At(Textures3D) == UNBUILT;
    var s3 := Step(s2, ops[2]);
    assert s3.history.At(LevelObjectMaps) == s2.history.At(LevelObjectMaps);
  }

  lemma TwoHeaderSize(owned: seq<Owned>)
    requires |owned| == 2 && |owned[0].entry.bytes| == |owned[1].entry.bytes| == HEADER_READ
    ensures SizeOf(owned) == 2 * HEADER_READ
  {
    SizeNext(owned, 1);
    SizeNext(owned, 0);
    assert owned[..0] == [] && owned[..2] == owned;
  }

  lemma TwoHeadersInRange()
    ensures var pub := Publication(SAMPLE_TABLE, 1, [TwoHeaderTrack()], UNBUILT);
            && RetailTable(SAMPLE_TABLE, 1) && PubInRange(LevelHeaders, pub) && PubInRange(LevelObjectMaps, pub)
            && OwnedBy(LevelObjectMaps, pub) == [] && |OwnedBy(LevelHeaders, pub)| == 2
            && OwnedBy(LevelHeaders, pub)[0] == Owned("two", TwoHeaderTrack().entries[0])
  {
    hide EnabledEntries, Filled;
    TwoHeaderEntries();
    var pub := Publication(SAMPLE_TABLE, 1, [TwoHeaderTrack()], UNBUILT);
    TwoHeaderSize(OwnedBy(LevelHeaders, pub));
    assert SizeOf([]) == 0;
    hide SizeOf;
  }

  /** Only the last header is judged: this accepted track's first header reaches the game with object map 0 twice. */
  lemma FirstOfTwoHeadersHasMapZero()
    ensures ManifestAccepted(TwoHeaders())
    ensures TwoHeaderTrack() == Track(TwoHeaders().id, EntriesFrom(TwoHeaders().adds), true)
    ensures Legal(TwoHeaderRun())
    ensures var s := Run(INITIAL, TwoHeaderRun());
            && HasHeader(s, 0) && 0 <= HeaderOffset(s, 0)
            && var d := Delivered(s, LevelHeaders, HeaderOffset(s, 0), HEADER_READ);
               d.Some? && FieldAt(d.value, COLLECTABLES_FIELD) == 0 && FieldAt(d.value, STRUCTURE_FIELD) == 0
  {
    TwoHeadersAccepted();
    TwoHeadersLegal();
    TwoHeadersBuilt();
    TwoHeadersInRange();
    hide Run, Legal, ManifestAccepted, TwoHeaderRun, EntriesFrom, TwoHeaders, Inv, Delivered, HeaderOffset,
      EnabledEntries, FieldAt, Filled, PubInRange, MapOffered;
    var s := Run(INITIAL, TwoHeaderRun());
    ReachableInv(TwoHeaderRun());
    NoMapsOffered(s, "two");
    ZeroHeaderDelivered(s);
  }

  /** Without a map on offer, a header of zeros reaches the game as it is. */
  lemma ZeroHeaderDelivered(s: State)
    requires Inv(s) && HasHeader(s, 0) && MapIndicesFit(s) && HeaderOf(s, 0).entry.bytes == Filled(0)
    requires forall slot :: !MapOffered(s, HeaderOf(s, 0).id, slot)
    ensures 0 <= HeaderOffset(s, 0)
    ensures var d := Delivered(s, LevelHeaders, HeaderOffset(s, 0), HEADER_READ);
            d.Some? && FieldAt(d.value, COLLECTABLES_FIELD) == 0 && FieldAt(d.value, STRUCTURE_FIELD) == 0
  {
    hide Inv, HasHeader, HeaderOf, HeaderOffset, Delivered, FieldAt, Filled, MapOffered, MapIndicesFit;
    FilledWithZero();
    LoadedMapField(s, 0, HEADER_READ, COLLECTABLES_FIELD, Collectables);
    LoadedMapField(s, 0, HEADER_READ, STRUCTURE_FIELD, Structure);
  }

  /** Maps that were not built, or built from nothing, offer none. */
  lemma NoMapsOffered(s: State, id: string)
    requires Inv(s)
    requires s.history.objectMaps.Some? ==> OwnedBy(LevelObjectMaps, s.history.objectMaps.value) == []
    ensures forall slot :: !MapOffered(s, id, slot)
  {
    hide EnabledEntries, SuppliedBy;
    if s.history.objectMaps.Some? {
      MapTracksUnique(s);
      forall slot ensures !MapOffered(s, id, slot) {
        OfferedIsPublished(s.history.objectMaps.value.tracks, id, slot);
      }
    }
  }

  lemma FilledWithZero()
    ensures FieldAt(Filled(0), COLLECTABLES_FIELD) == 0 == FieldAt(Filled(0), STRUCTURE_FIELD)
  {
  }

  // ---------------------------------------------------------------------
  // A track that was switched off when the object maps were built
  // ---------------------------------------------------------------------

  function MapItem(slot: string): (item: Item) {
    Item("LEVEL_OBJECT_MAPS", slot, "map.bin", false, Some([1]))
  }

  /** One header that leaves both fields at 0, and a map for each of them. */
  function LateMaps(): (m: Manifest) {
    Manifest(1, "late", [HeaderItem(0), MapItem("collectables"), MapItem("structure")])
  }

  function LateTrack(): (track: Track)
    ensures track.id == "late" && track.enabled
  {
    Track("late", [Entry(LevelHeaders, NoSlot, Filled(0)), Entry(LevelObjectMaps, Collectables, [1]),
                   Entry(LevelObjectMaps, Structure, [1])], true)
  }

  function LateRun(): (ops: seq<Op>) {
    [Scan([LateTrack()], None), SetEnabled("late", false),
     Build(LevelObjectMaps, Some(SAMPLE_TABLE), [LateTrack()], None), SetEnabled("late", true)]
  }

  function LateBuild(): (op: Op) {
    Build(LevelHeaders, Some(SAMPLE_TABLE), [LateTrack()], None)
  }

  lemma LateMapsAccepted()
    ensures ManifestAccepted(LateMaps())
    ensures LateTrack() == Track(LateMaps().id, EntriesFrom(LateMaps().adds), true)
  {
    HeaderItemAccepted(0);
    hide Filled;
    var m := LateMaps();
    assert ItemAccepted(m.adds[1]) && ItemAccepted(m.adds[2]);
    hide ItemAccepted;
    var entries := EntriesFrom(m.adds);
    assert entries == LateTrack().entries;
    assert entries[1].slot == Collectables && entries[2].slot == Structure;
  }

  lemma LateRunLegal()
    ensures Legal(LateRun() + [LateBuild()])
  {
    TerminatorUnique(SAMPLE_TABLE, 2);
    assert ParsedTrack(LateTrack());
    hide Terminator, ParsedTrack, LateTrack;
  }

  /** The maps are built from the disabled track. */
  lemma LateMapsBuilt()
    ensures var s := Run(INITIAL, LateRun());
            && s.history.objectMaps == Some(Publication(SAMPLE_TABLE, 1, [LateTrack().(enabled := false)], UNBUILT))
            && s.tracks == [LateTrack()] && !s.pending && s.sections.textures == UNBUILT
  {
    var ops, track := LateRun(), LateTrack();
    hide Run, Step, LateTrack, RetailTable, BuiltState;
    RunFour(INITIAL, ops[0], ops[1], ops[2], ops[3]);
    ScanAlone(INITIAL, track);
    var s1 := Step(INITIAL, ops[0]);
    SwitchAlone(s1, track, false);
    var s2 := Step(s1, ops[1]);
    SampleTableBuilt(s2, LevelObjectMaps, [track]);
    BuiltRecords(s2, LevelObjectMaps, SAMPLE_TABLE, 1);
    var s3 := Step(s2, ops[2]);
    SwitchAlone(s3, track.(enabled := false), true);
    assert s3.sections.At(Textures3D) == UNBUILT;
    assert s3.history.At(LevelObjectMaps) == s3.history.objectMaps;
  }

  lemma ScanAlone(s: State, track: Track)
    ensures Step(s, Scan([track], None)) == s.(tracks := [track], resolved := map[], pending := false)
  {
    assert [track][..0] == [] && Distinct([]) == [];
  }

  lemma SwitchAlone(s: State, track: Track, enabled: bool)
    requires s.tracks == [track]
    ensures Step(s, SetEnabled(track.id, enabled)) == s.(tracks := [track.(enabled := enabled)])
  {
    assert WithEnabled([track], track.id, enabled) == [track.(enabled := enabled)];
  }

  /** And the headers from the enabled one. */
  lemma LateRunBuilt()
    ensures var s := Run(INITIAL, LateRun() + [LateBuild()]);
            && s.history.objectMaps == Some(Publication(SAMPLE_TABLE, 1, [LateTrack().(enabled := false)], UNBUILT))
            && s.history.headers == Some(Publication(SAMPLE_TABLE, 1, [LateTrack()], UNBUILT))
  {
    hide Run, Step, LateTrack, RetailTable, BuiltState, LateRun;
    LateMapsBuilt();
    var s := Run(INITIAL, LateRun());
    RunConcat(INITIAL, LateRun(), [LateBuild()]);
    RunOne(s, LateBuild());
    SampleTableBuilt(s, LevelHeaders, [LateTrack()]);
    BuiltRecords(s, LevelHeaders, SAMPLE_TABLE, 1);
    assert Step(s, LateBuild()).history.At(LevelObjectMaps) == s.history.At(LevelObjectMaps);
  }

  lemma LateEntries()
    ensures var track := LateTrack();
            && EnabledEntries([track.(enabled := false)], LevelObjectMaps) == []
            && EnabledEntries([track], LevelHeaders) == [Owned("late", track.entries[0])]
  {
    hide EnabledEntries, EntriesOf, Filled;
    var track := LateTrack();
    NothingFromDisabled(track.(enabled := false), LevelObjectMaps);
    SingleTrack(track, LevelHeaders);
    TripleOfEntries(track.entries[0], track.entries[1], track.entries[2], LevelHeaders);
  }

  lemma SizeOfOne(owned: seq<Owned>)
    requires |owned| == 1
    ensures SizeOf(owned) == |owned[0].entry.bytes|
  {
    assert owned[..0] == [] && SizeOf([]) == 0;
  }

  lemma LateHeaderInRange()
    ensures var maps, headers := Publication(SAMPLE_TABLE, 1, [LateTrack().(enabled := false)], UNBUILT),
                                 Publication(SAMPLE_TABLE, 1, [LateTrack()], UNBUILT);
            && OwnedBy(LevelObjectMaps, maps) == []
            && RetailTable(SAMPLE_TABLE, 1) && PubInRange(LevelHeaders, headers)
            && |OwnedBy(LevelHeaders, headers)| == 1
            && OwnedBy(LevelHeaders, headers)[0] == Owned("late", LateTrack().entries[0])
  {
    hide EnabledEntries, SizeOf, Filled;
    LateEntries();
    SizeOfOne(EnabledEntries([LateTrack()], LevelHeaders));
  }

  lemma NothingFromDisabled(track: Track, section: Section)
    requires !track.enabled
    ensures EnabledEntries([track], section) == []
  {
    assert [track][..0] == [];
    assert EnabledEntries([], section) == [];
  }

  lemma TripleOfEntries(a: Entry, b: Entry, c: Entry, section: Section)
    ensures EntriesOf([a, b, c], section)
         == EntriesOf([a, b], section) + if c.section == section then [c] else []
    ensures a.section == section && b.section != section && c.section != section ==>
      EntriesOf([a, b, c], section) == [a]
  {
    assert [a, b, c][..2] == [a, b];
    PairOfEntries(a, b, section);
  }

  /** The track supplies both maps and its only header passes the parser, but the map table was built without it: the
      header reaches the game with object map 0 twice. */
  lemma LateMapsLeaveZero()
    ensures ManifestAccepted(LateMaps())
    ensures LateTrack() == Track(LateMaps().id, EntriesFrom(LateMaps().adds), true)
    ensures Legal(LateRun() + [LateBuild()])
    ensures var s := Run(INITIAL, LateRun() + [LateBuild()]);
            && HasHeader(s, 0) && 0 <= HeaderOffset(s, 0)
            && var d := Delivered(s, LevelHeaders, HeaderOffset(s, 0), HEADER_READ);
               d.Some? && FieldAt(d.value, COLLECTABLES_FIELD) == 0 && FieldAt(d.value, STRUCTURE_FIELD) == 0
  {
    LateMapsAccepted();
    LateRunLegal();
    LateRunBuilt();
    LateHeaderInRange();
    hide Run, Legal, ManifestAccepted, LateRun, LateBuild, EntriesFrom, LateMaps, Inv, Delivered, HeaderOffset,
      EnabledEntries, FieldAt, Filled, PubInRange, MapOffered;
    var ops := LateRun() + [LateBuild()];
    var s := Run(INITIAL, ops);
    ReachableInv(ops);
    NoMapsOffered(s, "late");
    ZeroHeaderDelivered(s);
  }
}
