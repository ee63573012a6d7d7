/** Cross-links between sections: level ids, model textures and header fields all
    name an entry of the same track. */
module TrackLinks {
  import opened Basics
  import opened BitPacking
  import opened TrackData
  import opened TrackModels
  import opened TrackTables
  import opened TrackSteps
  import opened TrackRuns

  // ---------------------------------------------------------------------
  // Entries and their tracks
  // ---------------------------------------------------------------------

  lemma {:induction false} EntriesOfMember(entries: seq<Entry>, section: Section, k: nat)
    requires k < |EntriesOf(entries, section)|
    ensures EntriesOf(entries, section)[k] in entries && EntriesOf(entries, section)[k].section == section
  {
    var front := entries[..|entries| - 1];
    if k < |EntriesOf(front, section)| { EntriesOfMember(front, section, k); }
  }

  /** Every contribution has a name and a payload. */
  lemma OwnedIsParsed(tracks: seq<Track>, section: Section, p: nat)
    requires UniqueIds(tracks) && Parsed(tracks) && p < |EnabledEntries(tracks, section)|
    ensures var o := EnabledEntries(tracks, section)[p];
            o.id != "" && o.entry.bytes != [] && o.entry.section == section
  {
    hide EnabledEntries, Within, EntriesOf;
    var owned := EnabledEntries(tracks, section);
    ManifestOrder(tracks, section, p);
    var k := Within(owned[..p], owned[p].id);
    var t :| 0 <= t < |tracks| && Ships(tracks[t], section, owned[p].id, k, owned[p].entry);
    assert ParsedTrack(tracks[t]);
  }

  /** Offsets below 2^31 and indices that fit a signed word, in the table that this publication made. */
  predicate PubInRange(section: Section, pub: Publication)
    requires RetailTable(pub.retail, pub.n)
  {
    InRange(pub.retail, pub.n, OwnedBy(section, pub)) && pub.n + |OwnedBy(section, pub)| <= 0x8000_0000
  }

  /** The table index of entry `p` of a backed section leads to exactly that entry's assembled bytes. */
  predicate Serves(section: Section, state: SectionState, pub: Publication, p: nat)
    requires RetailTable(pub.retail, pub.n) && p < |OwnedBy(section, pub)|
  {
    var table := Published(pub.retail, pub.n, OwnedBy(section, pub));
    && pub.n + p + 1 < |table| && table[pub.n + p] >= 0
    && PayloadFor(state, table[pub.n + p], GameSize(table, pub.n + p))
       == Some(Assembled(section, OwnedBy(section, pub)[p], pub.textures))
    && (section != LevelModels ==>
          Assembled(section, OwnedBy(section, pub)[p], pub.textures) == OwnedBy(section, pub)[p].entry.bytes)
  }

  lemma BackedServes(section: Section, state: SectionState, pub: Publication, p: nat)
    requires Backed(section, state, Some(pub)) && PubInRange(section, pub) && p < |OwnedBy(section, pub)|
    ensures Serves(section, state, pub, p)
  {
    hide SectionOf, PayloadFor, Published, Assembled, EnabledEntries, UniqueIds, Parsed, RetailTable, InRange, U32;
    OwnedIsParsed(pub.tracks, section, p);
    CustomEntryServed(section, pub.retail, pub.n, OwnedBy(section, pub), pub.textures, p);
  }

  lemma SectionBacked(s: State, section: Section)
    requires Inv(s)
    ensures Backed(section, s.sections.At(section), s.history.At(section))
  {
    hide Backed;
  }

  // ---------------------------------------------------------------------
  // Level ids
  // ---------------------------------------------------------------------

  /** A level id names the last header of its track. */
  lemma {:induction false} LastResolved(owned: seq<Owned>, n: nat, id: string) returns (j: nat)
    requires id in ResolvedIdsOf(owned, n)
    ensures j < |owned| && owned[j].id == id && ResolvedIdsOf(owned, n)[id] == n + j
    ensures forall k :: j < k < |owned| ==> owned[k].id != id
  {
    var front := owned[..|owned| - 1];
    if owned[|owned| - 1].id == id {
      j := |owned| - 1;
    } else {
      j := LastResolved(front, n, id);
      assert forall k :: j < k < |front| ==> owned[k] == front[k];
    }
  }

  /** In every reachable state a resolved level id is the index of a header of that very track, its last one, and that
      header is served through the table that the build returned. */
  lemma LevelIdNamesOwnHeader(s: State, id: string) returns (j: nat)
    requires Inv(s) && id in s.resolved
    requires s.history.headers.Some? ==>
      var pub := s.history.headers.value; RetailTable(pub.retail, pub.n) && PubInRange(LevelHeaders, pub)
    ensures s.history.headers.Some? && Backed(LevelHeaders, s.sections.headers, s.history.headers)
    ensures var pub := s.history.headers.value;
            && j < |OwnedBy(LevelHeaders, pub)| && OwnedBy(LevelHeaders, pub)[j].id == id
            && s.resolved[id] == pub.n + j && Serves(LevelHeaders, s.sections.headers, pub, j)
            && forall k :: j < k < |OwnedBy(LevelHeaders, pub)| ==> OwnedBy(LevelHeaders, pub)[k].id != id
  {
    hide Backed, EnabledEntries, ResolvedIdsOf, Serves, RetailTable, InRange;
    assert Backed(LevelHeaders, s.sections.At(LevelHeaders), s.history.At(LevelHeaders));
    var pub := s.history.headers.value;
    j := LastResolved(OwnedBy(LevelHeaders, pub), pub.n, id);
    BackedServes(LevelHeaders, s.sections.headers, pub, j);
  }

  // ---------------------------------------------------------------------
  // Model textures, end to end
  // ---------------------------------------------------------------------

  lemma AddedMatches(owned: seq<Owned>, end: u32, n: nat, p: nat, id: string, k: nat)
    requires p < |owned|
    ensures Matches(AddedOf(owned, end, n)[p], id, k) <==> owned[p].id == id && Within(owned[..p], id) == k
    ensures AddedOf(owned, end, n)[p].index == n + p
  {
  }

  /** Some enabled track with this id ships more than `k` textures. */
  predicate ShipsTexture(tracks: seq<Track>, id: string, k: nat) {
    exists t :: 0 <= t < |tracks| && HasTexture(tracks[t], id, k)
  }

  predicate HasTexture(track: Track, id: string, k: nat) {
    track.enabled && track.id == id && k < Ahead(track.entries, Textures3D, |track.entries|)
  }

  /** Either `v` serves the `k`-th texture that the track `id` had when textures were published,
      or `v` is 0 and that track had no such texture. */
  ghost predicate OwnTextureOrNone(state: SectionState, pub: Option<Publication>, id: string, k: nat, v: int)
    requires Backed(Textures3D, state, pub)
  {
    || (v == 0 && (pub.Some? ==> !ShipsTexture(pub.value.tracks, id, k)))
    || (pub.Some? && exists p, t :: OwnTextureAt(pub.value, state, id, k, v, p, t))
  }

  /** The id that stands for texture `k` of a track, once resolved against a published texture table:
      the index of that track's own `k`-th texture, or 0 when the track published no such texture. */
  lemma OwnTextureResolved(state: SectionState, pub: Option<Publication>, id: string, k: nat)
    requires Backed(Textures3D, state, pub) && id != "" && k < CUSTOM_ID_COUNT
    requires pub.Some? ==> PubInRange(Textures3D, pub.value)
    ensures OwnTextureOrNone(state, pub, id, k, NewId(state, id, CUSTOM_ID_BASE + k))
  {
    var v := NewId(state, id, CUSTOM_ID_BASE + k);
    if pub.Some? {
      var owned := OwnedBy(Textures3D, pub.value);
      hide EnabledEntries, Serves, EntriesOf, Within, UniqueIds, Parsed, Assembled, BlobOf, Ships, InRange, U32;
      var index := OwnTextureIndex(state, id, k);
      if index >= 0 {
        var p :| 0 <= p < |state.added| && Matches(state.added[p], id, k) && state.added[p].index == index;
        AddedMatches(owned, state.endOffset, pub.value.n, p, id, k);
        BackedServes(Textures3D, state, pub.value, p);
        ManifestOrder(pub.value.tracks, Textures3D, p);
        var t :| 0 <= t < |pub.value.tracks| && Ships(pub.value.tracks[t], Textures3D, id, k, owned[p].entry);
        assert OwnTextureAt(pub.value, state, id, k, v, p, t);
      } else {
        NoTextureShipped(state, pub.value, id, k);
      }
    }
  }

  /** Index `v` is that of published texture `p`, which track `id` owns and which is served byte for byte as the `k`-th
      texture that track `t`, whose id this is, ships. */
  predicate OwnTextureAt(pub: Publication, state: SectionState, id: string, k: nat, v: int, p: nat, t: nat)
    requires RetailTable(pub.retail, pub.n)
  {
    && p < |OwnedBy(Textures3D, pub)| && v == pub.n + p && OwnedBy(Textures3D, pub)[p].id == id
    && Within(OwnedBy(Textures3D, pub)[..p], id) == k
    && t < |pub.tracks| && Ships(pub.tracks[t], Textures3D, id, k, OwnedBy(Textures3D, pub)[p].entry)
    && Serves(Textures3D, state, pub, p)
  }

  lemma NoTextureShipped(state: SectionState, pub: Publication, id: string, k: nat)
    requires Backed(Textures3D, state, Some(pub)) && FindTexture(state.added, id, k) == -1
    ensures !ShipsTexture(pub.tracks, id, k)
  {
    hide EnabledEntries, EntriesOf, Within, Parsed, BlobOf, U32;
    forall t | 0 <= t < |pub.tracks| && HasTexture(pub.tracks[t], id, k)
      ensures false
    {
      EntriesInOrder(pub.tracks[t].entries, Textures3D);
      var p := ManifestPosition(pub.tracks, Textures3D, t, k);
      AddedMatches(OwnedBy(Textures3D, pub), state.endOffset, pub.n, p, id, k);
    }
  }

  /** The models were built against the texture table that is still published. */
  predicate Linked(s: State) {
    s.history.models.Some? && s.history.models.value.textures == s.sections.textures
  }

  lemma StepKeepsLink(s: State, op: Op)
    requires !Builds(op, Textures3D)
    requires Linked(s) || (Builds(op, LevelModels) && TableAccepted(op.table))
    ensures Linked(Step(s, op))
  {
    hide EnabledEntries, SectionOf, Distinct, RetailTable, ResolvedIdsOf;
  }

  lemma {:induction false} RunKeepsLink(s: State, ops: seq<Op>)
    requires Linked(s) && forall i :: 0 <= i < |ops| ==> !Builds(ops[i], Textures3D)
    ensures Linked(Run(s, ops))
    decreases |ops|
  {
    hide Linked, Step;
    if ops != [] {
      StepKeepsLink(s, ops[0]);
      RunKeepsLink(Step(s, ops[0]), ops[1..]);
    }
  }

  /** Once a model table is built, models and textures stay linked through any run that does not rebuild the textures.
      */
  lemma ModelBuildLinks(before: seq<Op>, build: Op, ops: seq<Op>)
    requires Legal(before) && Allowed(build) && Builds(build, LevelModels) && TableAccepted(build.table)
    requires Legal(ops) && forall i :: 0 <= i < |ops| ==> !Builds(ops[i], Textures3D)
    ensures var s := Run(Step(Run(INITIAL, before), build), ops);
            Inv(s) && Linked(s)
  {
    hide Inv, Linked, Step, TableAccepted, Run;
    var s := Run(INITIAL, before);
    ReachableInv(before);
    StepKeepsLink(s, build);
    StepKeepsInv(s, build);
    RunKeepsLink(Step(s, build), ops);
    RunKeepsInv(Step(s, build), ops);
  }

  /** End to end: a model served by the last model build, against the texture table that is still published,
      carries for each custom id the index that serves its own track's texture of that ordinal, or 0. */
  lemma ModelTexturesServed(s: State, j: nat, e: nat)
    requires Inv(s) && Linked(s)
    requires j < |OwnedBy(LevelModels, s.history.models.value)|
    requires forall section: Section :: section in {LevelModels, Textures3D} && s.history.At(section).Some? ==>
      var pub := s.history.At(section).value; RetailTable(pub.retail, pub.n) && PubInRange(section, pub)
    requires var m := OwnedBy(LevelModels, s.history.models.value)[j].entry.bytes;
             Resolvable(m) && e < TextureCount(m) && CustomId(IdOf(m, e))
    ensures Backed(LevelModels, s.sections.models, s.history.models)
    ensures Backed(Textures3D, s.sections.textures, s.history.textures)
    ensures Serves(LevelModels, s.sections.models, s.history.models.value, j)
    ensures var pub := s.history.models.value;
            var owned := OwnedBy(LevelModels, pub)[j];
            var served := Assembled(LevelModels, owned, pub.textures);
            var k := IdOf(owned.entry.bytes, e) - CUSTOM_ID_BASE;
            OwnTextureOrNone(s.sections.textures, s.history.textures, owned.id, k,
                             Be32(served, IdAt(owned.entry.bytes, e)))
  {
    hide Inv, EnabledEntries, Serves, OwnTextureOrNone, EntriesOf, Resolvable, NewId, ResolvedModel, UniqueIds, Parsed,
      RetailTable, SectionOf, Be32, IdAt, TextureCount, InRange;
    SectionBacked(s, LevelModels);
    SectionBacked(s, Textures3D);
    var pub := s.history.models.value;
    var owned := OwnedBy(LevelModels, pub)[j];
    OwnedIsParsed(pub.tracks, LevelModels, j);
    BackedServes(LevelModels, s.sections.models, pub, j);
    ResolvedIds(owned.entry.bytes, pub.textures, owned.id, e);
    OwnTextureResolved(s.sections.textures, s.history.textures, owned.id, IdOf(owned.entry.bytes, e) - CUSTOM_ID_BASE);
  }
}
