/** What holds over every run of scan, enable, reload, arm and build. */
module TrackRuns {
  import opened Basics
  import opened TrackData
  import opened TrackTables
  import opened TrackSteps

  datatype Op =
    | Scan(found: seq<Track>, saved: Option<string>)
    | SetEnabled(id: string, enabled: bool)
    | Reload(found: seq<Track>, saved: Option<string>)
    | Arm(id: string)
    | Build(section: Section, table: Option<seq<int>>, found: seq<Track>, saved: Option<string>)

  /** What every track in the registry has: a name, and payloads that are not empty. */
  predicate Parsed(tracks: seq<Track>) {
    forall t :: 0 <= t < |tracks| ==> ParsedTrack(tracks[t])
  }

  predicate ParsedTrack(track: Track) {
    track.id != "" && forall e :: 0 <= e < |track.entries| ==> track.entries[e].bytes != []
  }

  /** What a scan reads: no manifest holds an enable flag, so every track comes in enabled. */
  predicate JustParsed(found: seq<Track>) {
    Parsed(found) && forall t :: 0 <= t < |found| ==> found[t].enabled
  }

  predicate Allowed(op: Op) {
    match op
    case Scan(found, _) => JustParsed(found)
    case Reload(found, _) => JustParsed(found)
    case Build(_, table, found, _) => JustParsed(found) && ReadableTable(table)
    case _ => true
  }

  function Step(s: State, op: Op): (r: State) {
    match op
    case Scan(found, saved) => ScanStep(s, found, saved)
    case SetEnabled(id, enabled) => SetEnabledStep(s, id, enabled)
    case Reload(found, saved) => ReloadStep(s, found, saved)
    case Arm(id) => ArmStep(s, id)
    case Build(section, table, found, saved) => BuildStep(Rescanned(s, found, saved), section, table)
  }

  predicate Legal(ops: seq<Op>) {
    forall i :: 0 <= i < |ops| ==> Allowed(ops[i])
  }

  function Run(s: State, ops: seq<Op>): (r: State)
    decreases |ops|
  {
    if ops == [] then s else Run(Step(s, ops[0]), ops[1..])
  }

  // ---------------------------------------------------------------------
  // The invariant
  // ---------------------------------------------------------------------

  function OwnedBy(section: Section, p: Publication): (owned: seq<Owned>) {
    EnabledEntries(p.tracks, section)
  }

  /** A section's state is exactly what its last build made of the tracks of that moment. */
  predicate Backed(section: Section, state: SectionState, p: Option<Publication>) {
    if p.None? then state == UNBUILT
    else
      && RetailTable(p.value.retail, p.value.n)
      && UniqueIds(p.value.tracks) && Parsed(p.value.tracks)
      && state
         == SectionOf(section, OwnedBy(section, p.value), U32(p.value.retail[p.value.n]), p.value.n, p.value.textures)
  }

  /** Resolved level ids come from the last header build. */
  predicate ResolvedBacked(s: State) {
    forall id :: id in s.resolved ==>
      && s.history.headers.Some?
      && var ids := ResolvedIdsOf(OwnedBy(LevelHeaders, s.history.headers.value), s.history.headers.value.n);
         id in ids && ids[id] == s.resolved[id]
  }

  ghost predicate Inv(s: State) {
    && UniqueIds(s.tracks) && Parsed(s.tracks)
    && (forall section: Section :: Backed(section, s.sections.At(section), s.history.At(section)))
    && ResolvedBacked(s)
  }

  lemma {:induction false} DistinctParsed(found: seq<Track>)
    requires JustParsed(found)
    ensures JustParsed(Distinct(found))
  {
    hide Distinct;
    var tracks := Distinct(found);
    forall t | 0 <= t < |tracks| ensures ParsedTrack(tracks[t]) && tracks[t].enabled {
      assert tracks[t] in found;
      var k :| 0 <= k < |found| && found[k] == tracks[t];
    }
  }

  lemma ScanKeepsInv(s: State, found: seq<Track>, saved: Option<string>)
    requires Inv(s) && JustParsed(found)
    ensures Inv(ScanStep(s, found, saved))
  {
    DistinctParsed(found);
    hide Backed, Distinct, Parsed, UniqueIds;
  }

  /** Replacing enable flags keeps everything that the invariant says about tracks. */
  lemma FlagsKeepTracks(a: seq<Track>, b: seq<Track>)
    requires |a| == |b| && UniqueIds(a) && Parsed(a)
    requires forall t :: 0 <= t < |a| ==> b[t].id == a[t].id && b[t].entries == a[t].entries
    ensures UniqueIds(b) && Parsed(b)
  {
    forall t | 0 <= t < |b| ensures ParsedTrack(b[t]) { assert ParsedTrack(a[t]); }
  }

  lemma BuildKeepsInv(s: State, section: Section, table: Option<seq<int>>)
    requires Inv(s)
    ensures Inv(BuildStep(s, section, table))
  {
    hide Inv, BuiltState, RetailTable, RetailPart;
    if TableAccepted(table) {
      RetailPartShape(table.value);
      BuiltKeepsInv(s, section, RetailPart(table.value), Terminator(table.value) - 1);
    }
  }

  lemma BuiltKeepsInv(s: State, section: Section, retail: seq<int>, n: nat)
    requires Inv(s) && RetailTable(retail, n)
    ensures Inv(BuiltState(s, section, retail, n))
  {
    hide SectionOf, RetailTable, UniqueIds, Parsed, EnabledEntries, ResolvedIdsOf;
    var r := BuiltState(s, section, retail, n);
    forall other: Section ensures Backed(other, r.sections.At(other), r.history.At(other)) {
      if other != section { assert Backed(other, s.sections.At(other), s.history.At(other)); }
    }
    assert ResolvedBacked(r);
  }

  lemma StepKeepsInv(s: State, op: Op)
    requires Inv(s) && Allowed(op)
    ensures Inv(Step(s, op))
  {
    hide Inv, BuildStep, ScanStep, JustParsed;
    match op
    case Scan(found, saved) => ScanKeepsInv(s, found, saved);
    case SetEnabled(id, enabled) => TracksKeepInv(s, WithEnabled(s.tracks, id, enabled));
    case Reload(found, saved) => ReloadKeepsInv(s, found, saved);
    case Arm(id) => OtherFieldsKeepInv(s, id, s.pending);
    case Build(section, table, found, saved) =>
      if s.pending { ScanKeepsInv(s, found, saved); }
      BuildKeepsInv(Rescanned(s, found, saved), section, table);
  }

  lemma TracksKeepInv(s: State, tracks: seq<Track>)
    requires Inv(s) && |tracks| == |s.tracks|
    requires forall t :: 0 <= t < |tracks| ==>
      tracks[t].id == s.tracks[t].id && tracks[t].entries == s.tracks[t].entries
    ensures Inv(s.(tracks := tracks))
  {
    FlagsKeepTracks(s.tracks, tracks);
    hide UniqueIds, Parsed, Backed;
  }

  lemma OtherFieldsKeepInv(s: State, armed: string, pending: bool)
    requires Inv(s)
    ensures Inv(s.(armed := armed)) && Inv(s.(pending := pending))
  {
    hide UniqueIds, Parsed, Backed;
  }

  lemma ReloadKeepsInv(s: State, found: seq<Track>, saved: Option<string>)
    requires Inv(s) && JustParsed(found)
    ensures Inv(ReloadStep(s, found, saved))
  {
    hide Inv, JustParsed;
    OtherFieldsKeepInv(s, s.armed, true);
    ScanKeepsInv(s, found, saved);
    var scanned := ScanStep(s, found, saved);
    TracksKeepInv(scanned, WithChoices(scanned.tracks, s.tracks));
  }

  lemma {:induction false} RunKeepsInv(s: State, ops: seq<Op>)
    requires Inv(s) && Legal(ops)
    ensures Inv(Run(s, ops))
    decreases |ops|
  {
    hide Inv, Step, Allowed;
    if ops != [] {
      StepKeepsInv(s, ops[0]);
      RunKeepsInv(Step(s, ops[0]), ops[1..]);
    }
  }

  /** Every state that a run reaches from the start satisfies the invariant. */
  lemma ReachableInv(ops: seq<Op>)
    requires Legal(ops)
    ensures Inv(Run(INITIAL, ops))
  {
    RunKeepsInv(INITIAL, ops);
  }

  // ---------------------------------------------------------------------
  // Stability
  // ---------------------------------------------------------------------

  predicate Builds(op: Op, section: Section) {
    op.Build? && op.section == section
  }

  lemma StepKeepsSection(s: State, op: Op, section: Section)
    requires !Builds(op, section)
    ensures Step(s, op).sections.At(section) == s.sections.At(section)
  {
    hide EnabledEntries, SectionOf, Distinct, ResolvedIdsOf, TableAccepted, RetailTable;
  }

  /** What a section serves changes at that section's own build and nowhere else in a run. */
  lemma {:induction false} PayloadsStable(s: State, ops: seq<Op>, section: Section, offset: nat, size: int)
    requires forall i :: 0 <= i < |ops| ==> !Builds(ops[i], section)
    ensures Run(s, ops).sections.At(section) == s.sections.At(section)
    ensures PayloadFor(Run(s, ops).sections.At(section), offset, size)
         == PayloadFor(s.sections.At(section), offset, size)
    decreases |ops|
  {
    hide Step;
    if ops != [] {
      StepKeepsSection(s, ops[0], section);
      PayloadsStable(Step(s, ops[0]), ops[1..], section, offset, size);
    }
  }

  // ---------------------------------------------------------------------
  // Reloads and enable choices
  // ---------------------------------------------------------------------

  /** The choice kept for an id is that of the track with this id. */
  lemma {:induction false} ChoiceOf(tracks: seq<Track>, i: nat)
    requires UniqueIds(tracks) && i < |tracks|
    ensures Choice(tracks, tracks[i].id) == Some(tracks[i].enabled)
  {
    if i < |tracks| - 1 {
      var front := tracks[..|tracks| - 1];
      assert front[i] == tracks[i];
      ChoiceOf(front, i);
    }
  }

  lemma {:induction false} NoChoice(tracks: seq<Track>, id: string)
    requires !HasId(tracks, id)
    ensures Choice(tracks, id) == None
  {
    if tracks != [] {
      var front := tracks[..|tracks| - 1];
      assert tracks[|tracks| - 1].id != id;
      assert forall i :: 0 <= i < |front| ==> front[i] == tracks[i];
      NoChoice(front, id);
    }
  }

  /** An immediate reload keeps every enable choice, by id, and brings new tracks in enabled. */
  lemma ReloadKeepsChoices(s: State, found: seq<Track>, saved: Option<string>, k: nat)
    requires Inv(s) && JustParsed(found) && !s.sections.headers.built && k < |Distinct(found)|
    ensures var r := ReloadStep(s, found, saved).tracks;
            && |r| == |Distinct(found)| && r[k].id == Distinct(found)[k].id
            && r[k].entries == Distinct(found)[k].entries
            && (forall i :: 0 <= i < |s.tracks| && s.tracks[i].id == r[k].id ==> r[k].enabled == s.tracks[i].enabled)
            && (!HasId(s.tracks, r[k].id) ==> r[k].enabled)
  {
    hide Distinct, Parsed;
    var r := ReloadStep(s, found, saved).tracks;
    DistinctParsed(found);
    forall i | 0 <= i < |s.tracks| && s.tracks[i].id == r[k].id ensures r[k].enabled == s.tracks[i].enabled {
      ChoiceOf(s.tracks, i);
    }
    if !HasId(s.tracks, r[k].id) { NoChoice(s.tracks, r[k].id); }
  }

  /** A run of reloads, enable choices and armed tracks. */
  predicate Between(ops: seq<Op>) {
    forall i :: 0 <= i < |ops| ==> !ops[i].Scan? && !ops[i].Build?
  }

  predicate Reloads(ops: seq<Op>) {
    exists i :: 0 <= i < |ops| && ops[i].Reload?
  }

  function WithoutReloads(ops: seq<Op>): (r: seq<Op>) {
    if ops == [] then [] else (if ops[0].Reload? then [] else [ops[0]]) + WithoutReloads(ops[1..])
  }

  /** Nothing but a build looks at the pending mark. */
  lemma {:induction false} PendingUnread(s: State, ops: seq<Op>, pending: bool)
    requires Between(ops)
    ensures Run(s.(pending := pending), WithoutReloads(ops)) == Run(s, WithoutReloads(ops)).(pending := pending)
    ensures Run(s, WithoutReloads(ops)).pending == s.pending
    decreases |ops|
  {
    if ops != [] {
      if ops[0].Reload? {
        assert WithoutReloads(ops) == WithoutReloads(ops[1..]);
        PendingUnread(s, ops[1..], pending);
      } else {
        assert WithoutReloads(ops)[1..] == WithoutReloads(ops[1..]);
        assert Step(s.(pending := pending), ops[0]) == Step(s, ops[0]).(pending := pending);
        PendingUnread(Step(s, ops[0]), ops[1..], pending);
      }
    }
  }

  /** Once the header table exists, the reloads of any stretch without a build change nothing but the pending mark:
      the state is the one that the same stretch without them reaches. */
  lemma {:induction false} ReloadsDefer(s: State, ops: seq<Op>)
    requires s.sections.headers.built && Between(ops)
    ensures Run(s, ops) == Run(s, WithoutReloads(ops)).(pending := s.pending || Reloads(ops))
    decreases |ops|
  {
    if ops == [] {
    } else {
      var rest := ops[1..];
      assert Reloads(ops) <==> ops[0].Reload? || Reloads(rest) by { ReloadsSplit(ops); }
      if ops[0].Reload? {
        assert WithoutReloads(ops) == WithoutReloads(rest);
        ReloadsDefer(s.(pending := true), rest);
        PendingUnread(s, rest, true);
      } else {
        assert WithoutReloads(ops)[1..] == WithoutReloads(rest);
        ReloadsDefer(Step(s, ops[0]), rest);
      }
    }
  }

  lemma ReloadsSplit(ops: seq<Op>)
    requires ops != []
    ensures Reloads(ops) <==> ops[0].Reload? || Reloads(ops[1..])
  {
    if Reloads(ops) && !ops[0].Reload? {
      var i :| 0 <= i < |ops| && ops[i].Reload?;
      assert ops[1..][i - 1].Reload?;
    }
    if Reloads(ops[1..]) {
      var i :| 0 <= i < |ops[1..]| && ops[1..][i].Reload?;
      assert ops[i + 1].Reload?;
    }
  }

  /** What a build leaves of the track list, whether its table is accepted or refused. */
  lemma TracksAfterBuild(s: State, build: Op)
    requires build.Build?
    ensures Step(s, build).tracks == if s.pending then Distinct(build.found) else s.tracks
    ensures !Step(s, build).pending
  {
    hide EnabledEntries, SectionOf, Distinct, ResolvedIdsOf, TableAccepted, RetailTable;
  }

  /** With the header table built, take any stretch without scans and builds, and then the next build, refused tables
      included. A track known before and after it keeps its enable choice if and only if it was enabled at that moment
      or no reload was waiting: a deferred rescan brings every disabled track back enabled. */
  lemma NextBuildKeepsChoice(s: State, ops: seq<Op>, build: Op, i: nat, j: nat)
    requires Inv(s) && s.sections.headers.built && Legal(ops) && Between(ops) && build.Build? && Allowed(build)
    requires i < |Run(s, ops).tracks| && j < |Step(Run(s, ops), build).tracks|
    requires Run(s, ops).tracks[i].id == Step(Run(s, ops), build).tracks[j].id
    ensures var before, after := Run(s, ops).tracks[i], Step(Run(s, ops), build).tracks[j];
            after.enabled == before.enabled <==> before.enabled || !(s.pending || Reloads(ops))
  {
    hide Step, Run, Distinct, Parsed, ReadableTable, Between, Backed, Reloads;
    var before := Run(s, ops);
    ReloadsDefer(s, ops);
    RunKeepsInv(s, ops);
    TracksAfterBuild(before, build);
    DistinctParsed(build.found);
  }

  /** A track with a single one-byte name. */
  const SAMPLE: Track := Track("sample", [Entry(LevelNames, NoSlot, [1])], true)

  const SAMPLE_TABLE: seq<int> := [0, 4, -1]

  /** Headers are built, the track is switched off and a reload is asked for. */
  function SwitchedOff(): (ops: seq<Op>) {
    [Scan([SAMPLE], None), Build(LevelHeaders, Some(SAMPLE_TABLE), [SAMPLE], None), SetEnabled(SAMPLE.id, false),
     Reload([SAMPLE], None)]
  }

  /** The build that follows. */
  const SAMPLE_BUILD: Op := Build(LevelHeaders, Some(SAMPLE_TABLE), [SAMPLE], None)

  lemma SampleIsLegal()
    ensures Legal(SwitchedOff()) && Allowed(SAMPLE_BUILD)
  {
    TerminatorUnique(SAMPLE_TABLE, 2);
    assert ParsedTrack(SAMPLE);
    hide Terminator, ParsedTrack;
  }

  /** It switches the track on again. */
  lemma DeferredReloadForgetsChoice()
    ensures Legal(SwitchedOff()) && Allowed(SAMPLE_BUILD)
    ensures var s := Run(INITIAL, SwitchedOff());
            s.sections.headers.built && s.tracks == [SAMPLE.(enabled := false)]
            && Step(s, SAMPLE_BUILD).tracks == [SAMPLE]
  {
    SampleIsLegal();
    SampleAlone();
    var ops := SwitchedOff();
    hide Legal, Allowed, Distinct, BuildStep, Run;
    var s1 := Step(INITIAL, ops[0]);
    var s2 := Step(s1, ops[1]);
    SampleBuilt(s1);
    var s3 := Step(s2, ops[2]);
    assert s3.tracks == [SAMPLE.(enabled := false)];
    RunFour(INITIAL, ops[0], ops[1], ops[2], ops[3]);
    TracksAfterBuild(Step(s3, ops[3]), SAMPLE_BUILD);
  }

  lemma SampleAlone()
    ensures Distinct([SAMPLE]) == [SAMPLE]
  {
    assert [SAMPLE][..0] == [];
    assert Distinct([]) == [];
  }

  /** The sample table has one entry, up to offset 4. */
  lemma SampleTableBuilt(s: State, section: Section, found: seq<Track>)
    requires !s.pending
    ensures RetailTable(SAMPLE_TABLE, 1)
    ensures Step(s, Build(section, Some(SAMPLE_TABLE), found, None)) == BuiltState(s, section, SAMPLE_TABLE, 1)
  {
    TerminatorUnique(SAMPLE_TABLE, 2);
    hide BuiltState, Terminator;
    assert RetailPart(SAMPLE_TABLE) == SAMPLE_TABLE;
  }

  lemma SampleBuilt(s: State)
    requires s.tracks == [SAMPLE] && !s.pending
    ensures var r := Step(s, SAMPLE_BUILD);
            r.sections.headers.built && r.tracks == s.tracks
  {
    SampleTableBuilt(s, LevelHeaders, [SAMPLE]);
    hide Step, RetailTable, EnabledEntries, BlobOf, AddedOf, ResolvedIdsOf;
  }

  /** What a build records of itself, and what it leaves alone. */
  lemma BuiltRecords(s: State, section: Section, retail: seq<int>, n: nat)
    requires RetailTable(retail, n)
    ensures var r := BuiltState(s, section, retail, n);
            && r.tracks == s.tracks && r.pending == s.pending
            && r.history.At(section) == Some(Publication(retail, n, s.tracks, s.sections.textures))
            && (forall other: Section :: other != section ==>
                  r.history.At(other) == s.history.At(other) && r.sections.At(other) == s.sections.At(other))
  {
    hide SectionOf, EnabledEntries, ResolvedIdsOf, RetailTable;
  }

  lemma {:induction false} RunConcat(s: State, a: seq<Op>, b: seq<Op>)
    ensures Run(s, a + b) == Run(Run(s, a), b)
    decreases |a|
  {
    hide Step;
    if a == [] {
      assert a + b == b;
    } else {
      assert (a + b)[1..] == a[1..] + b;
      RunConcat(Step(s, a[0]), a[1..], b);
    }
  }

  lemma RunOne(s: State, op: Op)
    ensures Run(s, [op]) == Step(s, op)
  {
    hide Step;
    assert [op][1..] == [];
  }

  lemma RunPair(s: State, a: Op, b: Op)
    ensures Run(s, [a, b]) == Step(Step(s, a), b)
  {
    hide Step;
    assert [a, b][1..] == [b] && [b][1..] == [];
    assert Run(s, [a, b]) == Run(Step(s, a), [b]);
  }

  lemma RunThree(s: State, a: Op, b: Op, c: Op)
    ensures Run(s, [a, b, c]) == Step(Step(Step(s, a), b), c)
  {
    hide Step;
    assert [a, b, c][1..] == [b, c] && [b, c][1..] == [c] && [c][1..] == [];
    assert Run(s, [a, b, c]) == Run(Step(s, a), [b, c]);
    assert Run(Step(s, a), [b, c]) == Run(Step(Step(s, a), b), [c]);
  }

  lemma RunFour(s: State, a: Op, b: Op, c: Op, d: Op)
    ensures Run(s, [a, b, c, d]) == Step(Step(Step(Step(s, a), b), c), d)
  {
    hide Step;
    assert [a, b, c, d][1..] == [b, c, d] && [b, c, d][1..] == [c, d] && [c, d][1..] == [d] && [d][1..] == [];
    assert Run(s, [a, b, c, d]) == Run(Step(s, a), [b, c, d]);
    assert Run(Step(s, a), [b, c, d]) == Run(Step(Step(s, a), b), [c, d]);
    var t := Step(Step(s, a), b);
    assert Run(t, [c, d]) == Run(Step(t, c), [d]);
    assert Run(Step(t, c), [d]) == Run(Step(Step(t, c), d), []);
  }

  // ---------------------------------------------------------------------
  // Building again
  // ---------------------------------------------------------------------

  /** Building again from the same tracks and table serves the same bytes: the rewrite is never cumulative. */
  lemma RebuildSame(s: State, section: Section, table: Option<seq<int>>)
    ensures BuildStep(BuildStep(s, section, table), section, table).sections == BuildStep(s, section, table).sections
    ensures BuildResult(BuildStep(s, section, table), section, table) == BuildResult(s, section, table)
  {
    if TableAccepted(table) {
      RetailPartShape(table.value);
      hide EnabledEntries, ResolvedIdsOf, TableOf, AddedOf, RetailTable;
      var retail, n := RetailPart(table.value), Terminator(table.value) - 1;
      var once := BuildStep(s, section, table);
      assert once == BuiltState(s, section, retail, n);
      var owned := EnabledEntries(s.tracks, section);
      if section != LevelModels {
        BlobIgnoresTextures(section, owned, s.sections.textures, once.sections.textures);
      }
    }
  }

  lemma {:induction false} BlobIgnoresTextures(section: Section, owned: seq<Owned>, a: SectionState, b: SectionState)
    requires section != LevelModels
    ensures BlobOf(section, owned, a) == BlobOf(section, owned, b)
  {
    if owned != [] { BlobIgnoresTextures(section, owned[..|owned| - 1], a, b); }
  }
}
