/** The registry object behind the custom-track API, one method per operation. */
module TrackRegistry {
  import opened Basics
  import opened BitPacking
  import opened TrackData
  import opened TrackModels
  import opened TrackTables
  import opened TrackSteps

  class Registry {
    var tracks: seq<Track>
    var sections: PerSection<SectionState>
    var resolved: map<string, nat>
    var armed: string
    var rescanPending: bool
    ghost var history: PerSection<Option<Publication>>

    ghost function Value(): (s: State)
      reads this
    {
      State(tracks, sections, resolved, armed, rescanPending, history)
    }

    constructor ()
      ensures Value() == INITIAL
    {
      tracks := [];
      sections := Everywhere(UNBUILT);
      resolved := map[];
      armed := "";
      rescanPending := false;
      history := Everywhere(None);
    }

    method Scan(found: seq<Track>, saved: Option<string>)
      modifies this
      ensures Value() == ScanStep(old(Value()), found, saved)
    {
      rescanPending := false;
      tracks := [];
      resolved := map[];
      if saved.Some? {
        armed := saved.value;
      }
      for i := 0 to |found|
        invariant tracks == Distinct(found[..i])
        invariant Value().(tracks := []) == ScanStep(old(Value()), found, saved).(tracks := [])
      {
        assert found[..i + 1][..i] == found[..i];
        var clash := FindId(tracks, found[i].id);
        if !clash {
          tracks := tracks + [found[i]];
        }
      }
      assert found[..|found|] == found;
    }

    method SetEnabled(id: string, enabled: bool)
      modifies this
      ensures Value() == SetEnabledStep(old(Value()), id, enabled)
    {
      ghost var before := tracks;
      for i := 0 to |tracks|
        invariant |tracks| == |before|
        invariant forall k :: 0 <= k < |before| ==>
          tracks[k] == if k < i then WithEnabled(before, id, enabled)[k] else before[k]
        invariant Value().(tracks := []) == old(Value()).(tracks := [])
      {
        if tracks[i].id == id {
          tracks := tracks[i := tracks[i].(enabled := enabled)];
        }
      }
      assert tracks == WithEnabled(before, id, enabled);
    }

    method Arm(id: string)
      modifies this
      ensures Value() == ArmStep(old(Value()), id)
    {
      if armed != id {
        armed := id;
      }
    }

    method Reload(found: seq<Track>, saved: Option<string>)
      modifies this
      ensures Value() == ReloadStep(old(Value()), found, saved)
    {
      if sections.At(LevelHeaders).built {
        rescanPending := true;
        return;
      }
      var previous := tracks;
      Scan(found, saved);
      ghost var scanned := Value();
      for i := 0 to |tracks|
        invariant |tracks| == |scanned.tracks|
        invariant forall k :: 0 <= k < |tracks| ==>
          tracks[k] == if k < i then WithChoice(scanned.tracks[k], previous) else scanned.tracks[k]
        invariant Value().(tracks := []) == scanned.(tracks := [])
      {
        var restored := RestoreChoice(tracks[i], previous);
        tracks := tracks[i := restored];
      }
      assert tracks == WithChoices(scanned.tracks, previous);
    }

    method BuildExtendedTable(section: Section, table: Option<seq<int>>, found: seq<Track>, saved: Option<string>)
      returns (result: seq<int>)
      requires ReadableTable(table)
      modifies this
      ensures Value() == BuildStep(Rescanned(old(Value()), found, saved), section, table)
      ensures result == BuildResult(Rescanned(old(Value()), found, saved), section, table)
    {
      hide Rescanned, BuildStep, BuildResult, BuiltState, TableOf, TableAccepted, Terminator, RetailTable;
      ghost var start := Rescanned(Value(), found, saved);
      Rescan(found, saved);
      if table.None? {
        Refused(start, section, table);
        return [];
      }
      var counted := CountEntries(table.value);
      Counted(table.value, counted);
      if counted == 0 || counted >= SANITY_LIMIT {
        Refused(start, section, table);
        return [];
      }
      Built(start, section, table.value, counted);
      result := Extend(section, table.value[..counted + 1], counted - 1);
    }

    /** A rescan that was asked for earlier happens now. */
    method Rescan(found: seq<Track>, saved: Option<string>)
      modifies this
      ensures Value() == Rescanned(old(Value()), found, saved)
    {
      hide Distinct;
      if rescanPending {
        Scan(found, saved);
      }
    }

    /** The rest of the build, once the table has been counted. */
    method Extend(section: Section, retail: seq<int>, count: nat) returns (result: seq<int>)
      requires RetailTable(retail, count)
      modifies this
      ensures Value() == BuiltState(old(Value()), section, retail, count)
      ensures result == TableOf(retail, count, EnabledEntries(old(tracks), section))
    {
      assert |retail| == count + 2;
      hide RetailTable, BlobOf, AddedOf, EndsOf, EnabledEntries, ResolvedIdsOf, PerSection<SectionState>.With, U32;
      var end := U32(retail[count]);
      var entries := CollectEnabled(tracks, section);
      var textures := sections.At(Textures3D);
      var blob, added, ends := AssembleSection(section, entries, end, count, textures);
      history := history.With(section, Some(Publication(retail, count, tracks, textures)));
      sections := sections.With(section, SectionState(true, end, blob, count, added));
      if section == LevelHeaders {
        resolved := ResolveLevelIds(entries, count);
      }
      if entries == [] {
        return [];
      }
      result := retail[..count + 1] + ends + [-1];
    }

    method TrackOverrideId() returns (id: int)
      ensures id == TrackOverride(Value())
    {
      if armed == "" || armed !in resolved {
        return -1;
      }
      return resolved[armed];
    }

    method PayloadAt(section: Section, offset: nat, size: int) returns (payload: Option<seq<u8>>)
      ensures payload == PayloadFor(sections.At(section), offset, size)
    {
      var state := sections.At(section);
      if !state.built || size <= 0 || offset < state.endOffset {
        return None;
      }
      var relative := offset - state.endOffset;
      if relative + size > |state.blob| {
        return None;
      }
      return Some(state.blob[relative..relative + size]);
    }

    method Sibling(from: Section, offset: nat, to: Section, slot: MapSlot) returns (index: int)
      ensures index == SiblingIndex(Value(), from, offset, to, slot)
    {
      var source, target := sections.At(from), sections.At(to);
      if !source.built || !target.built {
        return -1;
      }
      var i := FindEntry(source.added, offset);
      if i < 0 || source.added[i].trackId == "" {
        return -1;
      }
      var j := FindOwn(target.added, source.added[i].trackId, slot);
      if j < 0 || target.added[j].index >= 0x8000_0000 {
        return -1;
      }
      return target.added[j].index;
    }
  }

  // ---------------------------------------------------------------------
  // Loops
  // ---------------------------------------------------------------------

  method FindId(tracks: seq<Track>, id: string) returns (found: bool)
    ensures found == HasId(tracks, id)
  {
    for i := 0 to |tracks|
      invariant forall k :: 0 <= k < i ==> tracks[k].id != id
    {
      if tracks[i].id == id { return true; }
    }
    return false;
  }

  method RestoreChoice(track: Track, previous: seq<Track>) returns (restored: Track)
    ensures restored == WithChoice(track, previous)
  {
    restored := track;
    for i := 0 to |previous|
      invariant restored == WithChoice(track, previous[..i])
    {
      assert previous[..i + 1][..i] == previous[..i];
      if restored.id == previous[i].id {
        restored := restored.(enabled := previous[i].enabled);
      }
    }
    assert previous[..|previous|] == previous;
  }

  method CountEntries(table: seq<int>) returns (counted: nat)
    requires Terminator(table) < |table| || |table| >= SANITY_LIMIT
    ensures counted == if Terminator(table) < SANITY_LIMIT then Terminator(table) else SANITY_LIMIT
  {
    counted := 0;
    while counted < SANITY_LIMIT && table[counted] != -1
      invariant counted <= SANITY_LIMIT && counted <= Terminator(table)
      decreases SANITY_LIMIT - counted
    {
      counted := counted + 1;
    }
  }

  lemma Counted(table: seq<int>, counted: nat)
    requires ReadableTable(Some(table))
    requires counted == if Terminator(table) < SANITY_LIMIT then Terminator(table) else SANITY_LIMIT
    ensures TableAccepted(Some(table)) <==> 0 < counted < SANITY_LIMIT
    ensures TableAccepted(Some(table)) ==> counted == Terminator(table) && counted + 1 <= |table|
  {
  }

  lemma Refused(s: State, section: Section, table: Option<seq<int>>)
    requires table.None? || !TableAccepted(table)
    ensures BuildStep(s, section, table) == s && BuildResult(s, section, table) == []
  {
  }

  lemma Built(s: State, section: Section, table: seq<int>, counted: nat)
    requires TableAccepted(Some(table)) && counted == Terminator(table) && 0 < counted < |table|
    ensures RetailTable(table[..counted + 1], counted - 1)
    ensures BuildStep(s, section, Some(table)) == BuiltState(s, section, table[..counted + 1], counted - 1)
    ensures BuildResult(s, section, Some(table))
         == TableOf(table[..counted + 1], counted - 1, EnabledEntries(s.tracks, section))
  {
    RetailPartShape(table);
    hide BuiltState, TableOf, Terminator, RetailTable, EnabledEntries;
  }

  /** The loop of `build_extended_table` over the enabled entries; offsets are 32-bit sums. */
  method AssembleSection(section: Section, entries: seq<Owned>, end: u32, count: nat, textures: SectionState)
    returns (blob: seq<u8>, added: seq<AddedEntry>, ends: seq<int>)
    ensures blob == BlobOf(section, entries, textures) && added == AddedOf(entries, end, count)
    ensures ends == EndsOf(entries, end)
  {
    blob, added, ends := [], [], [];
    var running: u32 := end;
    var seenPerTrack: map<string, nat> := map[];
    NothingAssembled(section, entries, end, count, textures);
    hide SizeOf, BlobOf, Within, Assembled, Counts, AddedOf, AddedAt, EndsOf, Seen, U32, I32;
    for ordinal := 0 to |entries|
      invariant Assembly(section, entries, end, count, textures, ordinal, blob, added, ends, running, seenPerTrack)
    {
      ExtendAssembly(section, entries, end, count, textures, ordinal, blob, added, ends, running, seenPerTrack);
      var entry := entries[ordinal];
      var within := Seen(seenPerTrack, entry.id);
      seenPerTrack := seenPerTrack[entry.id := within + 1];
      added := added + [AddedEntry(entry.id, entry.entry.slot, running, |entry.entry.bytes|, count + ordinal, within)];
      blob := AppendEntry(section, blob, entry, textures);
      running := U32(running + |entry.entry.bytes|);
      ends := ends + [I32(running)];
    }
    assert entries[..|entries|] == entries;
    assert added == AddedOf(entries, end, count) && ends == EndsOf(entries, end);
  }

  /** What the loop has done after `k` entries. */
  ghost predicate Assembly(section: Section, entries: seq<Owned>, end: u32, count: nat, textures: SectionState, k: nat,
                           blob: seq<u8>, added: seq<AddedEntry>, ends: seq<int>, running: u32, seen: map<string, nat>)
  {
    && k <= |entries|
    && running == U32(end + SizeOf(entries[..k]))
    && blob == BlobOf(section, entries[..k], textures)
    && added == AddedOf(entries, end, count)[..k] && ends == EndsOf(entries, end)[..k]
    && Counts(seen, entries[..k])
  }

  lemma NothingAssembled(section: Section, entries: seq<Owned>, end: u32, count: nat, textures: SectionState)
    ensures Assembly(section, entries, end, count, textures, 0, [], [], [], end, map[])
  {
    assert entries[..0] == [];
  }

  lemma ExtendAssembly(section: Section, entries: seq<Owned>, end: u32, count: nat, textures: SectionState, k: nat,
                       blob: seq<u8>, added: seq<AddedEntry>, ends: seq<int>, running: u32, seen: map<string, nat>)
    requires k < |entries|
    requires Assembly(section, entries, end, count, textures, k, blob, added, ends, running, seen)
    ensures var entry := entries[k];
            var within := Seen(seen, entry.id);
            var next: u32 := U32(running + |entry.entry.bytes|);
            Assembly(section, entries, end, count, textures, k + 1, blob + Assembled(section, entry, textures),
                     added + [AddedEntry(entry.id, entry.entry.slot, running, |entry.entry.bytes|, count + k, within)],
                     ends + [I32(next)], next, seen[entry.id := within + 1])
  {
    hide SizeOf, BlobOf, Within, Assembled, Counts, Seen, U32, I32, AddedOf, AddedAt, EndsOf;
    ExtendBlob(section, entries, textures, k);
    WordSum(end + SizeOf(entries[..k]), |entries[k].entry.bytes|);
    ExtendTable(entries, end, count, k);
    CountStep(seen, entries, k);
  }

  lemma WordSum(a: nat, b: nat)
    ensures U32(U32(a) + b) == U32(a + b)
  {
    assert a == a / 0x1_0000_0000 * 0x1_0000_0000 + U32(a);
    WordShift(U32(a) + b, a / 0x1_0000_0000);
  }

  lemma {:induction false} WordShift(v: nat, q: nat)
    ensures U32(v + q * 0x1_0000_0000) == U32(v)
  {
    if q > 0 { WordShift(v, q - 1); }
  }

  method ResolveLevelIds(entries: seq<Owned>, count: nat) returns (ids: map<string, nat>)
    ensures ids == ResolvedIdsOf(entries, count)
  {
    ids := map[];
    for ordinal := 0 to |entries|
      invariant ids == ResolvedIdsOf(entries[..ordinal], count)
    {
      assert entries[..ordinal + 1][..ordinal] == entries[..ordinal];
      ids := ids[entries[ordinal].id := count + ordinal];
    }
    assert entries[..|entries|] == entries;
  }

  lemma ExtendTable(entries: seq<Owned>, end: u32, count: nat, k: nat)
    requires k < |entries|
    ensures AddedOf(entries, end, count)[..k + 1] == AddedOf(entries, end, count)[..k]
      + [AddedEntry(entries[k].id, entries[k].entry.slot, U32(end + SizeOf(entries[..k])), |entries[k].entry.bytes|,
                    count + k, Within(entries[..k], entries[k].id))]
    ensures EndsOf(entries, end)[..k + 1] == EndsOf(entries, end)[..k] + [I32(U32(end + SizeOf(entries[..k + 1])))]
  {
    hide SizeOf, Within, U32, I32;
  }

  /** Appends one payload; a model's copy in the blob is rewritten, the entry's own bytes never are. */
  method AppendEntry(section: Section, blob: seq<u8>, entry: Owned, textures: SectionState) returns (result: seq<u8>)
    ensures result == blob + Assembled(section, entry, textures)
  {
    hide ResolvedModel;
    result := blob + entry.entry.bytes;
    if section == LevelModels && |entry.entry.bytes| != 0 {
      assert result[|blob|..] == entry.entry.bytes && result[..|blob|] == blob;
      result := ResolveModelTextures(result, |blob|, textures, entry.id);
    } else {
      EmptyUnchanged(section, entry, textures);
    }
  }

  /** `seen_per_track` holds how many entries each track has contributed so far. */
  ghost predicate Counts(seen: map<string, nat>, owned: seq<Owned>) {
    forall id :: Seen(seen, id) == Within(owned, id)
  }

  lemma CountStep(seen: map<string, nat>, entries: seq<Owned>, k: nat)
    requires k < |entries| && Counts(seen, entries[..k])
    ensures Seen(seen, entries[k].id) == Within(entries[..k], entries[k].id)
    ensures Counts(seen[entries[k].id := Seen(seen, entries[k].id) + 1], entries[..k + 1])
  {
    assert entries[..k + 1][..k] == entries[..k];
    var next := seen[entries[k].id := Seen(seen, entries[k].id) + 1];
    forall id ensures Seen(next, id) == Within(entries[..k + 1], id) {
      assert Seen(seen, id) == Within(entries[..k], id);
    }
  }

  lemma ExtendBlob(section: Section, entries: seq<Owned>, textures: SectionState, k: nat)
    requires k < |entries|
    ensures SizeOf(entries[..k + 1]) == SizeOf(entries[..k]) + |entries[k].entry.bytes|
    ensures BlobOf(section, entries[..k + 1], textures)
         == BlobOf(section, entries[..k], textures) + Assembled(section, entries[k], textures)
  {
    assert entries[..k + 1][..k] == entries[..k];
  }

  function Seen(seen: map<string, nat>, id: string): (n: nat) {
    if id in seen then seen[id] else 0
  }

  lemma EmptyUnchanged(section: Section, owned: Owned, textures: SectionState)
    requires (section != LevelModels || owned.entry.bytes == [])
    ensures Assembled(section, owned, textures) == owned.entry.bytes
  {
  }

  method FindEntry(added: seq<AddedEntry>, offset: nat) returns (i: int)
    ensures i == FindCovering(added, offset)
  {
    for k := 0 to |added|
      invariant forall j :: 0 <= j < k ==> !Covers(added[j], offset)
      invariant FindCovering(added, offset) == var r := FindCovering(added[k..], offset); if r < 0 then -1 else k + r
    {
      if Covers(added[k], offset) { return k; }
      assert added[k..][1..] == added[k + 1..];
    }
    return -1;
  }

  method FindOwn(added: seq<AddedEntry>, id: string, slot: MapSlot) returns (i: int)
    ensures i == FindSibling(added, id, slot)
  {
    for k := 0 to |added|
      invariant FindSibling(added, id, slot) == var r := FindSibling(added[k..], id, slot); if r < 0 then -1 else k + r
    {
      if added[k].trackId == id && added[k].slot == slot { return k; }
      assert added[k..][1..] == added[k + 1..];
    }
    return -1;
  }
}
