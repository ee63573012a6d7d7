/** The custom-track registry as a state machine: scan, enable, reload, arm and build. */
module TrackSteps {
  import opened Basics
  import opened TrackData
  import opened TrackTables

  /** One value per section. */
  datatype PerSection<T> = PerSection(headers: T, objectMaps: T, names: T, models: T, textures: T) {
    function At(section: Section): (v: T) {
      match section
      case LevelHeaders => headers
      case LevelObjectMaps => objectMaps
      case LevelNames => names
      case LevelModels => models
      case Textures3D => textures
    }

    function With(section: Section, v: T): (r: PerSection<T>)
      ensures r.At(section) == v
      ensures forall other: Section :: other != section ==> r.At(other) == At(other)
    {
      match section
      case LevelHeaders => this.(headers := v)
      case LevelObjectMaps => this.(objectMaps := v)
      case LevelNames => this.(names := v)
      case LevelModels => this.(models := v)
      case Textures3D => this.(textures := v)
    }
  }

  function Everywhere<T>(v: T): (r: PerSection<T>) {
    PerSection(v, v, v, v, v)
  }

  /** What a section was last built from. */
  datatype Publication = Publication(retail: seq<int>, n: nat, tracks: seq<Track>, textures: SectionState)

  /** `history` records the last build of each section; no step reads it. */
  datatype State = State(
    tracks: seq<Track>, sections: PerSection<SectionState>, resolved: map<string, nat>, armed: string, pending: bool,
    history: PerSection<Option<Publication>>)

  const INITIAL: State := State([], Everywhere(UNBUILT), map[], "", false, Everywhere(None))

  // ---------------------------------------------------------------------
  // Scanning
  // ---------------------------------------------------------------------

  predicate HasId(tracks: seq<Track>, id: string) {
    exists i :: 0 <= i < |tracks| && tracks[i].id == id
  }

  /** Keeps the first track of each id, in the order in which the directories list them. */
  function Distinct(found: seq<Track>): (tracks: seq<Track>)
    ensures UniqueIds(tracks)
    ensures forall i :: 0 <= i < |tracks| ==> tracks[i] in found
  {
    if found == [] then []
    else
      var front, last := Distinct(found[..|found| - 1]), found[|found| - 1];
      if HasId(front, last.id) then front else front + [last]
  }

  /** `scan_locked`: `found` is what the directories hold and `saved` the stored armed track, if any. */
  function ScanStep(s: State, found: seq<Track>, saved: Option<string>): (r: State) {
    s.(tracks := Distinct(found), resolved := map[], pending := false,
       armed := if saved.Some? then saved.value else s.armed)
  }

  function WithEnabled(tracks: seq<Track>, id: string, enabled: bool): (r: seq<Track>)
    ensures |r| == |tracks|
  {
    seq(|tracks|, i requires 0 <= i < |tracks| =>
      if tracks[i].id == id then tracks[i].(enabled := enabled) else tracks[i])
  }

  function SetEnabledStep(s: State, id: string, enabled: bool): (r: State) {
    s.(tracks := WithEnabled(s.tracks, id, enabled))
  }

  function ArmStep(s: State, id: string): (r: State) {
    s.(armed := id)
  }

  /** The choice that a list of tracks holds for an id: the last one, as the restoring loop leaves it. */
  function Choice(tracks: seq<Track>, id: string): (c: Option<bool>) {
    if tracks == [] then None
    else if tracks[|tracks| - 1].id == id then Some(tracks[|tracks| - 1].enabled)
    else Choice(tracks[..|tracks| - 1], id)
  }

  function WithChoice(track: Track, previous: seq<Track>): (r: Track) {
    var c := Choice(previous, track.id);
    if c.Some? then track.(enabled := c.value) else track
  }

  function WithChoices(tracks: seq<Track>, previous: seq<Track>): (r: seq<Track>)
    ensures |r| == |tracks|
  {
    seq(|tracks|, i requires 0 <= i < |tracks| => WithChoice(tracks[i], previous))
  }

  /** Deferred once the header table exists; otherwise immediate, with the enable choices kept. */
  function ReloadStep(s: State, found: seq<Track>, saved: Option<string>): (r: State) {
    if s.sections.At(LevelHeaders).built then s.(pending := true)
    else
      var scanned := ScanStep(s, found, saved);
      scanned.(tracks := WithChoices(scanned.tracks, s.tracks))
  }

  // ---------------------------------------------------------------------
  // Building a table
  // ---------------------------------------------------------------------

  /** A deferred rescan happens at the next build, and restores no choices. */
  function Rescanned(s: State, found: seq<Track>, saved: Option<string>): (r: State) {
    if s.pending then ScanStep(s, found, saved) else s
  }

  /** Level ids by track: a later header of the same track wins. */
  function ResolvedIdsOf(owned: seq<Owned>, n: nat): (ids: map<string, nat>) {
    if owned == [] then map[]
    else ResolvedIdsOf(owned[..|owned| - 1], n)[owned[|owned| - 1].id := n + |owned| - 1]
  }

  /** A null table, one that starts with its terminator and one without terminator are refused. */
  predicate TableAccepted(table: Option<seq<int>>) {
    table.Some? && 0 < Terminator(table.value) < SANITY_LIMIT && Terminator(table.value) < |table.value|
  }

  /** The part of the table up to its terminator. */
  function RetailPart(table: seq<int>): (retail: seq<int>)
    requires TableAccepted(Some(table))
  {
    table[..Terminator(table) + 1]
  }

  /** What a caller owes: readable memory up to a terminator or the limit. */
  predicate ReadableTable(table: Option<seq<int>>) {
    table.Some? ==> Terminator(table.value) < |table.value| || |table.value| >= SANITY_LIMIT
  }

  function BuiltState(s: State, section: Section, retail: seq<int>, n: nat): (r: State)
    requires RetailTable(retail, n)
  {
    var owned := EnabledEntries(s.tracks, section);
    var textures := s.sections.At(Textures3D);
    s.(sections := s.sections.With(section, SectionOf(section, owned, U32(retail[n]), n, textures)),
       resolved := if section == LevelHeaders then ResolvedIdsOf(owned, n) else s.resolved,
       history := s.history.With(section, Some(Publication(retail, n, s.tracks, textures))))
  }

  lemma RetailPartShape(table: seq<int>)
    requires TableAccepted(Some(table))
    ensures RetailTable(RetailPart(table), Terminator(table) - 1)
  {
  }

  function BuildStep(s: State, section: Section, table: Option<seq<int>>): (r: State) {
    if !TableAccepted(table) then s
    else
      RetailPartShape(table.value);
      BuiltState(s, section, RetailPart(table.value), Terminator(table.value) - 1)
  }

  /** The table handed back: empty when nothing is added or the input is refused. */
  function BuildResult(s: State, section: Section, table: Option<seq<int>>): (result: seq<int>) {
    if !TableAccepted(table) then []
    else
      RetailPartShape(table.value);
      TableOf(RetailPart(table.value), Terminator(table.value) - 1, EnabledEntries(s.tracks, section))
  }

  // ---------------------------------------------------------------------
  // Queries
  // ---------------------------------------------------------------------

  predicate Covers(added: AddedEntry, offset: nat) {
    added.offset <= offset < U32(added.offset + added.size)
  }

  /** The first entry that covers the offset, or -1. */
  function FindCovering(added: seq<AddedEntry>, offset: nat): (i: int)
    ensures -1 <= i < |added|
    ensures i >= 0 ==> Covers(added[i], offset)
    ensures i == -1 ==> forall j :: 0 <= j < |added| ==> !Covers(added[j], offset)
    ensures forall j :: 0 <= j < i ==> !Covers(added[j], offset)
  {
    if added == [] then -1
    else if Covers(added[0], offset) then 0
    else
      assert forall j :: 1 <= j < |added| ==> added[j] == added[1..][j - 1];
      var i := FindCovering(added[1..], offset);
      if i < 0 then -1 else i + 1
  }

  /** The first entry of this track and slot, or -1. */
  function FindSibling(added: seq<AddedEntry>, id: string, slot: MapSlot): (i: int)
    ensures -1 <= i < |added|
    ensures i >= 0 ==> added[i].trackId == id && added[i].slot == slot
    ensures i == -1 ==> forall j :: 0 <= j < |added| ==> added[j].trackId != id || added[j].slot != slot
    ensures forall j :: 0 <= j < i ==> added[j].trackId != id || added[j].slot != slot
  {
    if added == [] then -1
    else if added[0].trackId == id && added[0].slot == slot then 0
    else
      assert forall j :: 1 <= j < |added| ==> added[j] == added[1..][j - 1];
      var i := FindSibling(added[1..], id, slot);
      if i < 0 then -1 else i + 1
  }

  /** The index of the entry for `slot` that the track of the entry at `offset` has in section `to`, or -1. It is handed
      over as a signed word, so one above its range counts as none. */
  function SiblingIndex(s: State, from: Section, offset: nat, to: Section, slot: MapSlot): (index: int)
    ensures index >= -1
  {
    var source, target := s.sections.At(from), s.sections.At(to);
    if !source.built || !target.built then -1
    else
      var i := FindCovering(source.added, offset);
      if i < 0 || source.added[i].trackId == "" then -1
      else
        var j := FindSibling(target.added, source.added[i].trackId, slot);
        if j < 0 || target.added[j].index >= 0x8000_0000 then -1 else target.added[j].index
  }

  /** The level id that the armed track resolves to, or -1. */
  function TrackOverride(s: State): (id: int) {
    if s.armed == "" || s.armed !in s.resolved then -1 else s.resolved[s.armed]
  }

  // ---------------------------------------------------------------------
  // What the steps do, in terms of lists and tables alone
  // ---------------------------------------------------------------------

  /** No track ahead of position `i` has its id. */
  predicate IsFirst(found: seq<Track>, i: nat)
    requires i < |found|
  {
    forall d :: 0 <= d < i ==> found[d].id != found[i].id
  }

  function Firsts(found: seq<Track>, n: nat): (k: nat)
    requires n <= |found|
  {
    if n == 0 then 0 else Firsts(found, n - 1) + if IsFirst(found, n - 1) then 1 else 0
  }

  lemma {:induction false} FirstsOfPrefix(found: seq<Track>, n: nat, m: nat)
    requires n <= m <= |found|
    ensures Firsts(found[..m], n) == Firsts(found, n)
  {
    if n > 0 {
      FirstsOfPrefix(found, n - 1, m);
      assert IsFirst(found[..m], n - 1) <==> IsFirst(found, n - 1);
    }
  }

  lemma {:induction false} DistinctHas(found: seq<Track>, id: string)
    ensures HasId(Distinct(found), id) <==> HasId(found, id)
  {
    if found != [] {
      var n := |found| - 1;
      DistinctHas(found[..n], id);
      var front, tracks := Distinct(found[..n]), Distinct(found);
      assert HasId(front + [found[n]], id) <==> HasId(front, id) || found[n].id == id by {
        if HasId(front, id) {
          var i :| 0 <= i < |front| && front[i].id == id;
          assert (front + [found[n]])[i].id == id;
        }
        assert (front + [found[n]])[|front|] == found[n];
      }
      assert HasId(found, id) <==> HasId(found[..n], id) || found[n].id == id by {
        if HasId(found[..n], id) {
          var i :| 0 <= i < n && found[..n][i].id == id;
          assert found[i].id == id;
        }
        if HasId(found, id) && found[n].id != id {
          var i :| 0 <= i < |found| && found[i].id == id;
          assert found[..n][i].id == id;
        }
      }
    }
  }

  lemma FirstMeansNew(found: seq<Track>)
    requires found != []
    ensures var n := |found| - 1;
            IsFirst(found, n) <==> !HasId(Distinct(found[..n]), found[n].id)
  {
    hide Distinct;
    var n := |found| - 1;
    DistinctHas(found[..n], found[n].id);
    assert forall d :: 0 <= d < n ==> found[..n][d] == found[d];
  }

  lemma DistinctNext(found: seq<Track>)
    requires found != []
    ensures var front := Distinct(found[..|found| - 1]);
            Distinct(found) == if HasId(front, found[|found| - 1].id) then front else front + [found[|found| - 1]]
  {
  }

  /** Track `i` of the listing stands behind the kept tracks ahead of it. */
  predicate KeptAt(found: seq<Track>, tracks: seq<Track>, i: nat)
    requires i < |found|
  {
    Firsts(found, i) < |tracks| && tracks[Firsts(found, i)] == found[i]
  }

  lemma FirstsNext(found: seq<Track>, n: nat)
    requires n < |found|
    ensures Firsts(found, n + 1) == Firsts(found, n) + if IsFirst(found, n) then 1 else 0
  {
  }

  lemma {:induction false} DistinctCount(found: seq<Track>)
    ensures |Distinct(found)| == Firsts(found, |found|)
  {
    if found == [] {
    } else {
      hide Distinct, IsFirst, HasId, Firsts;
      var n := |found| - 1;
      DistinctCount(found[..n]);
      FirstMeansNew(found);
      DistinctNext(found);
      FirstsOfPrefix(found, n, n);
      FirstsNext(found, n);
    }
  }

  /** A scan keeps exactly the first track of each id, in listing order. */
  lemma {:induction false} DistinctExactly(found: seq<Track>)
    ensures |Distinct(found)| == Firsts(found, |found|)
    ensures forall i :: 0 <= i < |found| && IsFirst(found, i) ==> KeptAt(found, Distinct(found), i)
  {
    hide Distinct, IsFirst, HasId, KeptAt, Firsts;
    DistinctCount(found);
    if found != [] {
      var n := |found| - 1;
      DistinctExactly(found[..n]);
      FirstsOfPrefix(found, n, n);
      forall i | 0 <= i < |found| && IsFirst(found, i) ensures KeptAt(found, Distinct(found), i) {
        if i < n { FirstOfPrefix(found, i, n); }
        KeptStep(found, i);
      }
    }
  }

  lemma KeptStep(found: seq<Track>, i: nat)
    requires i < |found| && IsFirst(found, i)
    requires |Distinct(found[..|found| - 1])| == Firsts(found, |found| - 1)
    requires i < |found| - 1 ==> KeptAt(found[..|found| - 1], Distinct(found[..|found| - 1]), i)
    ensures KeptAt(found, Distinct(found), i)
  {
    hide Distinct, IsFirst, HasId, Firsts;
    var n := |found| - 1;
    FirstMeansNew(found);
    DistinctNext(found);
    FirstsOfPrefix(found, i, n);
  }

  lemma FirstOfPrefix(found: seq<Track>, i: nat, n: nat)
    requires i < n <= |found|
    ensures IsFirst(found[..n], i) <==> IsFirst(found, i)
  {
  }

  /** And what else it does: the saved armed id is taken over if there is one, nothing is resolved or pending, and what
      was built stays. */
  lemma ScanExactly(s: State, found: seq<Track>, saved: Option<string>)
    ensures var r := ScanStep(s, found, saved);
            && (saved.Some? ==> r.armed == saved.value) && (saved.None? ==> r.armed == s.armed)
            && r.resolved == map[] && !r.pending && r.sections == s.sections && r.history == s.history
            && |r.tracks| == Firsts(found, |found|)
            && forall i :: 0 <= i < |found| && IsFirst(found, i) ==> KeptAt(found, r.tracks, i)
  {
    hide Distinct, Firsts, IsFirst, KeptAt;
    DistinctExactly(found);
  }

  /** A switch sets the flag of the tracks with this id and changes nothing else. */
  lemma SwitchExactly(s: State, id: string, enabled: bool)
    ensures var r := SetEnabledStep(s, id, enabled);
            && r.(tracks := s.tracks) == s && |r.tracks| == |s.tracks|
            && forall i :: 0 <= i < |s.tracks| ==>
                 && r.tracks[i].id == s.tracks[i].id && r.tracks[i].entries == s.tracks[i].entries
                 && r.tracks[i].enabled == if s.tracks[i].id == id then enabled else s.tracks[i].enabled
  {
  }

  /** A table is accepted exactly when its first terminator lies behind at least one word and within 4096. */
  lemma AcceptedExactly(table: seq<int>)
    ensures TableAccepted(Some(table)) <==>
      exists n :: 0 < n < 4096 && n < |table| && table[n] == -1 && forall i :: 0 <= i < n ==> table[i] != -1
  {
    if n :| 0 < n < 4096 && n < |table| && table[n] == -1 && forall i :: 0 <= i < n ==> table[i] != -1 {
      TerminatorUnique(table, n);
    }
    hide Terminator;
  }

  /** Exactly the tracks that contribute a header get a level id. */
  lemma {:induction false} ResolvedExactly(owned: seq<Owned>, n: nat, id: string)
    ensures id in ResolvedIdsOf(owned, n) <==> exists j :: 0 <= j < |owned| && owned[j].id == id
  {
    if owned != [] {
      var m := |owned| - 1;
      ResolvedExactly(owned[..m], n, id);
      assert forall j :: 0 <= j < m ==> owned[..m][j] == owned[j];
    }
  }

  /** After an accepted header build, exactly the enabled tracks with a header have a level id; every other build leaves
      the level ids alone. */
  lemma BuildResolves(s: State, section: Section, table: seq<int>, id: string)
    requires TableAccepted(Some(table))
    ensures section != LevelHeaders ==> BuildStep(s, section, Some(table)).resolved == s.resolved
    ensures section == LevelHeaders ==>
      (id in BuildStep(s, section, Some(table)).resolved <==>
         exists t, e :: 0 <= t < |s.tracks| && 0 <= e < |s.tracks[t].entries|
                        && s.tracks[t].enabled && s.tracks[t].id == id
                        && s.tracks[t].entries[e].section == LevelHeaders)
  {
    hide EnabledEntries, SectionOf, RetailPart, ResolvedIdsOf, Contributed, Ahead, RetailTable;
    if section == LevelHeaders {
      var owned, n := EnabledEntries(s.tracks, section), Terminator(table) - 1;
      ResolvedExactly(owned, n, id);
      if j :| 0 <= j < |owned| && owned[j].id == id {
        var t, e := EnabledListed(s.tracks, section, j);
      }
      if t, e :| 0 <= t < |s.tracks| && 0 <= e < |s.tracks[t].entries|
                 && s.tracks[t].enabled && s.tracks[t].id == id && s.tracks[t].entries[e].section == LevelHeaders {
        EnabledInOrder(s.tracks, section, t, e);
      }
    }
  }

  /** An immediate reload does to everything but the enable flags what a scan does. */
  lemma ReloadExactly(s: State, found: seq<Track>, saved: Option<string>)
    requires !s.sections.headers.built
    ensures var r := ReloadStep(s, found, saved);
            && (saved.Some? ==> r.armed == saved.value) && (saved.None? ==> r.armed == s.armed)
            && r.resolved == map[] && !r.pending && r.sections == s.sections && r.history == s.history
            && |r.tracks| == |Distinct(found)|
            && forall i :: 0 <= i < |r.tracks| ==>
                 r.tracks[i].id == Distinct(found)[i].id && r.tracks[i].entries == Distinct(found)[i].entries
  {
    hide Distinct, Choice;
  }
}
