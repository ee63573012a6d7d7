/** What the texture ids of a served model name once the textures have been built again. */
module TrackTextures {
  import opened Basics
  import opened BitPacking
  import opened TrackData
  import opened TrackModels
  import opened TrackTables
  import opened TrackSteps
  import opened TrackRuns
  import opened TrackLinks

  // ---------------------------------------------------------------------
  // The place of a texture
  // ---------------------------------------------------------------------

  /** The position of the first track with this id, or the number of tracks. */
  function TrackAt(tracks: seq<Track>, id: string): (t: nat)
    ensures t <= |tracks|
    ensures t < |tracks| ==> tracks[t].id == id
    ensures forall i :: 0 <= i < t ==> tracks[i].id != id
  {
    if tracks == [] || tracks[0].id == id then 0
    else
      assert forall i :: 1 <= i < |tracks| ==> tracks[i] == tracks[1..][i - 1];
      1 + TrackAt(tracks[1..], id)
  }

  /** The table index of texture `k` of a track: behind the retail textures and those of the enabled tracks ahead of it;
      0 for a texture that was not published. */
  function Place(pub: Option<Publication>, id: string, k: nat): (index: nat) {
    if pub.None? then 0
    else
      var tracks := pub.value.tracks;
      var t := TrackAt(tracks, id);
      if t < |tracks| && HasTexture(tracks[t], id, k)
        then pub.value.n + Contributed(tracks[..t], Textures3D) + k else 0
  }

  lemma TrackIsAt(tracks: seq<Track>, t: nat)
    requires UniqueIds(tracks) && t < |tracks|
    ensures TrackAt(tracks, tracks[t].id) == t
  {
  }

  /** A published texture lies at its place. */
  lemma PublishedAtPlace(pub: Publication, id: string, k: nat, p: nat)
    requires UniqueIds(pub.tracks) && p < |OwnedBy(Textures3D, pub)| && OwnedBy(Textures3D, pub)[p].id == id
    requires Within(OwnedBy(Textures3D, pub)[..p], id) == k
    ensures ShipsTexture(pub.tracks, id, k) && Place(Some(pub), id, k) == pub.n + p
  {
    hide EnabledEntries, EntriesOf, Within, TrackAt;
    var owned := OwnedBy(Textures3D, pub);
    ManifestOrder(pub.tracks, Textures3D, p);
    var t :| 0 <= t < |pub.tracks| && Ships(pub.tracks[t], Textures3D, id, k, owned[p].entry);
    ShipsListed(pub.tracks[t], Textures3D, id, k, owned[p].entry);
    EntriesInOrder(pub.tracks[t].entries, Textures3D);
    assert HasTexture(pub.tracks[t], id, k);
    TrackIsAt(pub.tracks, t);
    ContributedAll(pub.tracks[..t], Textures3D);
    var q := ManifestPosition(pub.tracks, Textures3D, t, k);
    SamePosition(owned, id, p, q);
  }

  lemma SamePosition(owned: seq<Owned>, id: string, p: nat, q: nat)
    requires p < |owned| && q < |owned| && owned[p].id == id && owned[q].id == id
    requires Within(owned[..p], id) == Within(owned[..q], id)
    ensures p == q
  {
    if p < q { WithinGrows(owned, p, q); }
    if q < p { WithinGrows(owned, q, p); }
  }

  /** An index names a track's own texture `k`, or none where none was published, if and only if it is the place. */
  lemma OwnTextureExactly(state: SectionState, pub: Option<Publication>, id: string, k: nat, v: int)
    requires Backed(Textures3D, state, pub) && id != "" && k < CUSTOM_ID_COUNT
    requires pub.Some? ==> PubInRange(Textures3D, pub.value)
    ensures OwnTextureOrNone(state, pub, id, k, v) <==> v == Place(pub, id, k)
    ensures NewId(state, id, CUSTOM_ID_BASE + k) == Place(pub, id, k)
  {
    hide NewId, Place, Serves, EnabledEntries, UniqueIds, Parsed, SectionOf, RetailTable, PubInRange, ShipsTexture,
      Ships, Within;
    var w := NewId(state, id, CUSTOM_ID_BASE + k);
    OwnTextureResolved(state, pub, id, k);
    OnlyThePlace(state, pub, id, k, w);
    if OwnTextureOrNone(state, pub, id, k, v) { OnlyThePlace(state, pub, id, k, v); }
  }

  lemma OnlyThePlace(state: SectionState, pub: Option<Publication>, id: string, k: nat, v: int)
    requires Backed(Textures3D, state, pub) && OwnTextureOrNone(state, pub, id, k, v)
    ensures v == Place(pub, id, k)
  {
    if pub.Some? {
      hide Serves, EnabledEntries, EntriesOf, UniqueIds, Parsed, SectionOf, RetailTable, TrackAt, Within;
      if p, t :| OwnTextureAt(pub.value, state, id, k, v, p, t) {
        PublishedAtPlace(pub.value, id, k, p);
      }
    }
  }

  // ---------------------------------------------------------------------
  // Over a run
  // ---------------------------------------------------------------------

  /** The models keep the textures that they were built against until they are built again. */
  lemma {:induction false} ModelsStay(s: State, ops: seq<Op>)
    requires forall i :: 0 <= i < |ops| ==> !Builds(ops[i], LevelModels)
    ensures Run(s, ops).history.models == s.history.models
    decreases |ops|
  {
    if ops != [] {
      hide Step;
      StepKeepsModels(s, ops[0]);
      ModelsStay(Step(s, ops[0]), ops[1..]);
    }
  }

  lemma StepKeepsModels(s: State, op: Op)
    requires !Builds(op, LevelModels)
    ensures Step(s, op).history.models == s.history.models
  {
    hide EnabledEntries, SectionOf, Distinct, ResolvedIdsOf, TableAccepted, RetailTable, RetailPart;
  }

  lemma ModelBuildTakes(s: State, build: Op)
    requires Builds(build, LevelModels) && TableAccepted(build.table)
    ensures var r := Step(s, build);
            && r.history.models.Some? && r.history.models.value.textures == s.sections.textures
  {
    hide EnabledEntries, SectionOf, Distinct, ResolvedIdsOf, RetailTable, RetailPart;
  }

  /** If the section was built, the table is within range. */
  ghost predicate TableInRange(s: State, section: Section) {
    s.history.At(section).Some? ==>
      var pub := s.history.At(section).value; RetailTable(pub.retail, pub.n) && PubInRange(section, pub)
  }

  /** Texture `e` of model `j` of the last model build has a custom id. */
  predicate HasCustomId(s: State, j: nat, e: nat) {
    && s.history.models.Some? && j < |OwnedBy(LevelModels, s.history.models.value)|
    && var m := OwnedBy(LevelModels, s.history.models.value)[j].entry.bytes;
       Resolvable(m) && e < TextureCount(m) && CustomId(IdOf(m, e))
  }

  /** The id that stands there when the model is served. */
  function ServedId(s: State, j: nat, e: nat): (v: u32)
    requires HasCustomId(s, j, e)
  {
    var pub := s.history.models.value;
    var owned := OwnedBy(LevelModels, pub)[j];
    Be32(Assembled(LevelModels, owned, pub.textures), IdAt(owned.entry.bytes, e))
  }

  function ModelOwner(s: State, j: nat, e: nat): (id: string)
    requires HasCustomId(s, j, e)
  {
    OwnedBy(LevelModels, s.history.models.value)[j].id
  }

  /** Which of its track's textures the author meant. */
  function Ordinal(s: State, j: nat, e: nat): (k: nat)
    requires HasCustomId(s, j, e)
    ensures k < CUSTOM_ID_COUNT
  {
    IdOf(OwnedBy(LevelModels, s.history.models.value)[j].entry.bytes, e) - CUSTOM_ID_BASE
  }

  /** An index among the published textures serves the texture there, whichever track owns it. */
  ghost predicate IndexServes(s: State, v: nat) {
    s.history.textures.Some? ==>
      var pub := s.history.textures.value;
      RetailTable(pub.retail, pub.n)
      && (pub.n <= v < pub.n + |OwnedBy(Textures3D, pub)| ==> Serves(Textures3D, s.sections.textures, pub, v - pub.n))
  }

  lemma IndexServesTexture(s: State, v: nat)
    requires Inv(s) && TableInRange(s, Textures3D)
    ensures IndexServes(s, v)
  {
    hide Inv, EnabledEntries, PubInRange, Serves, RetailTable, Backed, TableInRange;
    TexturesBacked(s);
    if s.history.textures.Some? {
      var pub := s.history.textures.value;
      if pub.n <= v < pub.n + |OwnedBy(Textures3D, pub)| {
        BackedServes(Textures3D, s.sections.textures, pub, v - pub.n);
      }
    }
  }

  lemma ServedIdIs(s: State, j: nat, e: nat)
    requires Inv(s) && HasCustomId(s, j, e)
    ensures ServedId(s, j, e)
         == NewId(s.history.models.value.textures, ModelOwner(s, j, e), CUSTOM_ID_BASE + Ordinal(s, j, e))
    ensures ModelOwner(s, j, e) != ""
  {
    hide Inv, EnabledEntries, Resolvable, NewId, ResolvedModel, Be32, IdAt, TextureCount;
    var pub := s.history.models.value;
    ModelNamed(s, j);
    var owned := OwnedBy(LevelModels, pub)[j];
    ResolvedIds(owned.entry.bytes, pub.textures, owned.id, e);
  }

  lemma ModelNamed(s: State, j: nat)
    requires Inv(s) && s.history.models.Some? && j < |OwnedBy(LevelModels, s.history.models.value)|
    ensures OwnedBy(LevelModels, s.history.models.value)[j].id != ""
  {
    SectionBacked(s, LevelModels);
    hide Inv, EnabledEntries, UniqueIds, Parsed, RetailTable, SectionOf;
    OwnedIsParsed(s.history.models.value.tracks, LevelModels, j);
  }

  /** Take any run, a model build in it and any further operations that build no models. A custom id of a served model
      is the place that its texture had when the models were built. It names the track's own texture now if and only if
      that place has not moved: the same number of retail textures and of textures of enabled tracks ahead, or neither
      time published. Otherwise it serves whatever texture lies there. */
  lemma ServedIdAfterRebuild(before: seq<Op>, build: Op, ops: seq<Op>, j: nat, e: nat)
    requires Legal(before) && Allowed(build) && Builds(build, LevelModels) && TableAccepted(build.table)
    requires Legal(ops) && forall i :: 0 <= i < |ops| ==> !Builds(ops[i], LevelModels)
    requires var s := Run(Step(Run(INITIAL, before), build), ops);
             HasCustomId(s, j, e) && TableInRange(s, Textures3D) && TableInRange(Run(INITIAL, before), Textures3D)
    ensures var built, s := Run(INITIAL, before), Run(Step(Run(INITIAL, before), build), ops);
            var id, k := ModelOwner(s, j, e), Ordinal(s, j, e);
            && ServedId(s, j, e) == Place(built.history.textures, id, k) && IndexServes(s, ServedId(s, j, e))
            && Backed(Textures3D, s.sections.textures, s.history.textures)
            && (OwnTextureOrNone(s.sections.textures, s.history.textures, id, k, ServedId(s, j, e))
                <==> Place(built.history.textures, id, k) == Place(s.history.textures, id, k))
  {
    hide Inv, Step, Run, TableAccepted, HasCustomId, ServedId, ModelOwner, Ordinal, Place, OwnTextureOrNone, NewId,
      Backed, PubInRange, RetailTable, Allowed, Legal, IndexServes;
    var built, s := Run(INITIAL, before), Run(Step(Run(INITIAL, before), build), ops);
    ReachableInv(before);
    StepKeepsInv(built, build);
    RunKeepsInv(Step(built, build), ops);
    ModelBuildTakes(built, build);
    ModelsStay(Step(built, build), ops);
    ModelsHeld(s, j, e);
    ServedIdIs(s, j, e);
    var id, k := ModelOwner(s, j, e), Ordinal(s, j, e);
    IndexServesTexture(s, ServedId(s, j, e));
    TexturesBacked(built);
    TexturesBacked(s);
    OwnTextureExactly(built.sections.textures, built.history.textures, id, k, ServedId(s, j, e));
    OwnTextureExactly(s.sections.textures, s.history.textures, id, k, ServedId(s, j, e));
  }

  lemma ModelsHeld(s: State, j: nat, e: nat)
    requires HasCustomId(s, j, e)
    ensures s.history.models.Some?
  {
  }

  lemma TexturesBacked(s: State)
    requires Inv(s) && TableInRange(s, Textures3D)
    ensures Backed(Textures3D, s.sections.textures, s.history.textures)
    ensures s.history.textures.Some? ==>
      var pub := s.history.textures.value; RetailTable(pub.retail, pub.n) && PubInRange(Textures3D, pub)
  {
    SectionBacked(s, Textures3D);
    hide Inv, Backed, RetailTable, PubInRange;
  }

  // ---------------------------------------------------------------------
  // A texture rebuild that moves a place
  // ---------------------------------------------------------------------

  /** A model in a stored block of 36 bytes whose one texture is the first of its own track. */
  function SmallModel(): (m: seq<u8>)
    ensures |m| == 46
  {
    seq(46, i => if i == 4 then 0x09 else if i == 6 then 36 else if i == 8 then 0xFF - 36 else if i == 9 then 0xFF
                 else if i == 13 then 28 else if i == 35 then 1 else if i == 40 then 0x70 else 0)
  }

  lemma SmallModelResolvable()
    ensures Resolvable(SmallModel()) && TextureCount(SmallModel()) == 1 && IdOf(SmallModel(), 0) == CUSTOM_ID_BASE
  {
  }

  function SmallTexture(byte: u8): (entry: Entry)
    ensures entry.section == Textures3D && |entry.bytes| == 48
  {
    Entry(Textures3D, NoSlot, seq(48, _ => byte))
  }

  function First(): (track: Track)
    ensures track.id == "first" && track.enabled && |track.entries| == 1
  {
    Track("first", [SmallTexture(1)], true)
  }

  function Second(): (track: Track)
    ensures track.id == "second" && track.enabled && |track.entries| == 2
  {
    Track("second", [SmallTexture(2), Entry(LevelModels, NoSlot, SmallModel())], true)
  }

  function BuildOf(section: Section): (op: Op) {
    Build(section, Some(SAMPLE_TABLE), [First(), Second()], None)
  }

  /** Textures are built while the first track is switched off. */
  function Alone(): (ops: seq<Op>) {
    [Scan([First(), Second()], None), SetEnabled("first", false), BuildOf(Textures3D)]
  }

  /** After the models, it is switched on and the textures are built again. */
  function Joined(): (ops: seq<Op>) {
    [SetEnabled("first", true), BuildOf(Textures3D)]
  }

  lemma MovedRunLegal()
    ensures Legal(Alone()) && Allowed(BuildOf(LevelModels)) && Legal(Joined())
  {
    TerminatorUnique(SAMPLE_TABLE, 2);
    assert ParsedTrack(First()) && ParsedTrack(Second());
    hide Terminator, ParsedTrack, First, Second;
  }

  lemma BothDistinct(a: Track, b: Track)
    requires a.id != b.id
    ensures Distinct([a, b]) == [a, b]
  {
    assert [a, b][..1] == [a] && [a][..0] == [];
    assert Distinct([]) == [] && Distinct([a]) == [a];
  }

  lemma ScanBoth(s: State)
    ensures Step(s, Alone()[0]) == s.(tracks := [First(), Second()], resolved := map[], pending := false)
  {
    hide First, Second, Distinct;
    BothDistinct(First(), Second());
  }

  lemma SwitchFirst(s: State, on: bool, enabled: bool)
    requires s.tracks == [First().(enabled := on), Second()]
    ensures Step(s, SetEnabled("first", enabled)) == s.(tracks := [First().(enabled := enabled), Second()])
  {
    hide First, Second;
    assert WithEnabled(s.tracks, "first", enabled) == [First().(enabled := enabled), Second()];
  }

  lemma BuildSample(s: State, section: Section)
    requires !s.pending
    ensures var r := Step(s, BuildOf(section));
            && r.tracks == s.tracks && r.pending == s.pending
            && r.history.At(section) == Some(Publication(SAMPLE_TABLE, 1, s.tracks, s.sections.textures))
            && forall other: Section :: other != section ==> r.history.At(other) == s.history.At(other)
  {
    hide Step, BuiltState, RetailTable, First, Second;
    SampleTableBuilt(s, section, [First(), Second()]);
    BuiltRecords(s, section, SAMPLE_TABLE, 1);
  }

  lemma AloneBuilt()
    ensures var s := Run(INITIAL, Alone());
            && !s.pending && s.tracks == [First().(enabled := false), Second()]
            && s.history.textures.Some? && s.history.textures.value.retail == SAMPLE_TABLE
            && s.history.textures.value.n == 1
            && s.history.textures.value.tracks == s.tracks
  {
    hide Run, Step, First, Second, RetailTable;
    var ops := Alone();
    RunThree(INITIAL, ops[0], ops[1], ops[2]);
    ScanBoth(INITIAL);
    var s1 := Step(INITIAL, ops[0]);
    SwitchFirst(s1, true, false);
    var s2 := Step(s1, ops[1]);
    BuildSample(s2, Textures3D);
    var s3 := Step(s2, ops[2]);
    assert s3.history.At(Textures3D) == s3.history.textures;
  }

  lemma JoinedBuilt(s: State)
    requires !s.pending && s.tracks == [First().(enabled := false), Second()]
    ensures var r := Run(Step(s, BuildOf(LevelModels)), Joined());
            && r.history.textures.Some? && r.history.textures.value.retail == SAMPLE_TABLE
            && r.history.textures.value.n == 1
            && r.history.textures.value.tracks == [First(), Second()]
            && r.history.models.Some? && r.history.models.value.tracks == s.tracks
  {
    hide Run, Step, First, Second, RetailTable;
    BuildSample(s, LevelModels);
    var s1 := Step(s, BuildOf(LevelModels));
    var ops := Joined();
    RunPair(s1, ops[0], ops[1]);
    SwitchFirst(s1, false, true);
    var s2 := Step(s1, ops[0]);
    BuildSample(s2, Textures3D);
    var r := Step(s2, ops[1]);
    assert s1.history.At(LevelModels) == s1.history.models && r.history.At(LevelModels) == r.history.models;
    assert r.history.At(Textures3D) == r.history.textures;
  }

  lemma EntriesOfBoth()
    ensures EntriesOf(First().entries, Textures3D) == [SmallTexture(1)]
    ensures EntriesOf(Second().entries, Textures3D) == [SmallTexture(2)]
    ensures EntriesOf(Second().entries, LevelModels) == [Second().entries[1]]
    ensures EntriesOf(First().entries, LevelModels) == []
  {
    hide SmallTexture, SmallModel;
    var a, b := First().entries, Second().entries;
    assert a[..0] == [] && b[..1] == [b[0]] && b[..1][..0] == [];
    assert EntriesOf([b[0]], Textures3D) == [b[0]] && EntriesOf([b[0]], LevelModels) == [];
  }

  lemma EnabledPair(a: Track, b: Track, section: Section)
    requires b.enabled
    ensures EnabledEntries([a, b][..1], section) == if a.enabled then Own(a.id, EntriesOf(a.entries, section)) else []
    ensures EnabledEntries([a, b], section)
         == (if a.enabled then Own(a.id, EntriesOf(a.entries, section)) else [])
            + Own(b.id, EntriesOf(b.entries, section))
  {
    hide Own, EntriesOf, EnabledEntries;
    NothingEnabled([a, b], section);
    EnabledNext([a, b], section, 0);
    EnabledNext([a, b], section, 1);
    assert [a, b][..2] == [a, b];
  }

  /** The contributions with the first track off and on. */
  lemma Contributions()
    ensures var off, on := [First().(enabled := false), Second()], [First(), Second()];
            && EnabledEntries(off, Textures3D) == [Owned("second", SmallTexture(2))]
            && EnabledEntries(on, Textures3D) == [Owned("first", SmallTexture(1)), Owned("second", SmallTexture(2))]
            && EnabledEntries(off, LevelModels) == [Owned("second", Second().entries[1])]
            && EnabledEntries(off[..1], Textures3D) == []
            && EnabledEntries(on[..1], Textures3D) == [Owned("first", SmallTexture(1))]
  {
    hide EnabledEntries, EntriesOf, First, Second, SmallTexture;
    EntriesOfBoth();
    EnabledPair(First().(enabled := false), Second(), Textures3D);
    EnabledPair(First(), Second(), Textures3D);
    EnabledPair(First().(enabled := false), Second(), LevelModels);
  }

  /** The place of the second track's texture: 1 when it is alone, 2 when the first track is there. */
  lemma PlaceMoves(alone: Publication, joined: Publication)
    requires alone.n == 1 && alone.tracks == [First().(enabled := false), Second()]
    requires joined.n == 1 && joined.tracks == [First(), Second()]
    ensures Place(Some(alone), "second", 0) == 1 && Place(Some(joined), "second", 0) == 2
  {
    hide EnabledEntries, EntriesOf, First, Second, Contributed, Ahead;
    EntriesOfBoth();
    Contributions();
    ContributedAll(alone.tracks[..1], Textures3D);
    ContributedAll(joined.tracks[..1], Textures3D);
    EntriesInOrder(Second().entries, Textures3D);
    assert UniqueIds(alone.tracks) && UniqueIds(joined.tracks);
    TrackIsAt(alone.tracks, 1);
    TrackIsAt(joined.tracks, 1);
  }

  lemma MovedInRange(pub: Publication)
    requires pub.retail == SAMPLE_TABLE && pub.n == 1
    requires pub.tracks == [First().(enabled := false), Second()] || pub.tracks == [First(), Second()]
    ensures RetailTable(pub.retail, pub.n) && PubInRange(Textures3D, pub)
  {
    hide EnabledEntries, First, Second, SizeOf, SmallTexture;
    Contributions();
    SizeAtMost(OwnedBy(Textures3D, pub));
  }

  lemma SizeAtMost(owned: seq<Owned>)
    requires 1 <= |owned| <= 2 && forall i :: 0 <= i < |owned| ==> |owned[i].entry.bytes| == 48
    ensures SizeOf(owned) <= 96
  {
    assert owned[..0] == [] && SizeOf([]) == 0;
    if |owned| == 2 { assert owned[..1][..0] == []; }
  }

  function Moved(): (s: State) {
    Run(Step(Run(INITIAL, Alone()), BuildOf(LevelModels)), Joined())
  }

  lemma MovedRun()
    ensures var before, s := Run(INITIAL, Alone()), Moved();
            && TableInRange(before, Textures3D) && TableInRange(s, Textures3D)
            && Place(before.history.textures, "second", 0) == 1
            && s.history.textures.Some? && s.history.textures.value.n == 1
            && s.history.textures.value.tracks == [First(), Second()]
            && s.history.models.Some? && s.history.models.value.tracks == [First().(enabled := false), Second()]
  {
    hide Run, Step, First, Second, RetailTable, PubInRange, EnabledEntries, Place, Alone, BuildOf, Joined;
    AloneBuilt();
    JoinedBuilt(Run(INITIAL, Alone()));
    var before, after := Run(INITIAL, Alone()).history.textures.value, Moved().history.textures.value;
    MovedInRange(before);
    MovedInRange(after);
    PlaceMoves(before, after);
  }

  /** The model of the second track was linked to its own texture, at index 1. After the rebuild it is still served with
      that index, which now belongs to the first track. */
  lemma RebuildMovesTexture()
    ensures Legal(Alone()) && Allowed(BuildOf(LevelModels)) && Legal(Joined())
    ensures var s := Moved();
            && HasCustomId(s, 0, 0) && ModelOwner(s, 0, 0) == "second" && ServedId(s, 0, 0) == 1
            && s.history.textures.Some? && s.history.textures.value.n == 1
            && var owned := OwnedBy(Textures3D, s.history.textures.value);
               owned != [] && owned[0] == Owned("first", SmallTexture(1))
  {
    MovedRunLegal();
    MovedRun();
    Contributions();
    hide Run, Step, First, Second, Legal, Allowed, TableInRange, EnabledEntries, Place, ServedId, HasCustomId,
      ModelOwner, Ordinal, SmallTexture, OwnTextureOrNone, Backed;
    var s := Moved();
    SecondHasCustomId(s);
    SampleAccepted();
    ServedIdAfterRebuild(Alone(), BuildOf(LevelModels), Joined(), 0, 0);
  }

  lemma SecondHasCustomId(s: State)
    requires s.history.models.Some? && s.history.models.value.tracks == [First().(enabled := false), Second()]
    ensures HasCustomId(s, 0, 0) && ModelOwner(s, 0, 0) == "second" && Ordinal(s, 0, 0) == 0
  {
    hide First, Second, EnabledEntries, Resolvable, SmallModel, SmallTexture, IdOf, TextureCount;
    Contributions();
    SmallModelResolvable();
    SecondHasModel();
  }

  lemma SecondHasModel()
    ensures Second().entries[1].bytes == SmallModel()
  {
  }

  lemma SampleAccepted()
    ensures TableAccepted(Some(SAMPLE_TABLE))
  {
    TerminatorUnique(SAMPLE_TABLE, 2);
  }
}
