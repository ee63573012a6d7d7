/** The registry together with what the game has in memory: which custom levels the game itself can reach, over every
    run of registry calls and table loads. */
module TrackGame {
  import opened Basics
  import opened TrackData
  import opened TrackTables
  import opened TrackSteps
  import opened TrackRuns
  import opened TrackLinks
  import opened TrackParsing
  import opened TrackHooks
  import opened TrackTableLoads
  import opened TrackHeaders

  /** `read` is the memory that the last load of a section's table left the game to read, if it found a table there, and
      `published` says whether that is the table of the last build. */
  datatype World = World(registry: State, read: PerSection<Option<seq<int>>>, published: PerSection<bool>)

  const START: World := World(INITIAL, Everywhere(None), Everywhere(false))

  /** A call of the registry, or a table load as the hooks see it. */
  datatype Event =
    | Call(op: Op)
    | LoadTable(section: Section, here: seq<int>, behind: Option<seq<int>>, found: seq<Track>, saved: Option<string>)

  predicate EventAllowed(e: Event) {
    match e
    case Call(op) => !op.Build? && Allowed(op)
    case LoadTable(_, here, _, found, _) => JustParsed(found) && ReadableTable(Some(here))
  }

  function Loaded(w: World, section: Section, here: seq<int>, behind: Option<seq<int>>, found: seq<Track>,
                  saved: Option<string>): (r: World)
  {
    if !Terminated(here) then
      w.(read := w.read.With(section, None), published := w.published.With(section, false))
    else
      var table, start := Some(TableFrom(here)), Rescanned(w.registry, found, saved);
      var extended := BuildResult(start, section, table);
      World(BuildStep(start, section, table), w.read.With(section, Some(Reads(extended, here, behind))),
            w.published.With(section, TableAccepted(table) && (extended == [] || behind.Some?)))
  }

  function Happens(w: World, e: Event): (r: World) {
    match e
    case Call(op) => w.(registry := Step(w.registry, op))
    case LoadTable(section, here, behind, found, saved) => Loaded(w, section, here, behind, found, saved)
  }

  function Play(w: World, events: seq<Event>): (r: World) {
    if events == [] then w else Happens(Play(w, events[..|events| - 1]), events[|events| - 1])
  }

  // ---------------------------------------------------------------------
  // What the game's memory holds
  // ---------------------------------------------------------------------

  /** Memory starts with the table that this publication made. */
  predicate Holds(read: seq<int>, section: Section, pub: Publication)
    requires RetailTable(pub.retail, pub.n)
  {
    Published(pub.retail, pub.n, OwnedBy(section, pub)) <= read
  }

  /** A published table is in memory; otherwise the game counts no more than the retail entries. */
  ghost predicate TableInv(w: World, section: Section) {
    var read, pub := w.read.At(section), w.registry.history.At(section);
    && (pub.Some? ==> RetailTable(pub.value.retail, pub.value.n))
    && (w.published.At(section) ==> pub.Some? && read.Some? && Holds(read.value, section, pub.value))
    && (!w.published.At(section) && read.Some? && pub.Some? ==> GameCount(read.value) <= pub.value.n)
  }

  ghost predicate WorldInv(w: World) {
    Inv(w.registry) && forall section: Section :: TableInv(w, section)
  }

  lemma CallKeepsTables(w: World, op: Op, section: Section)
    requires TableInv(w, section) && !op.Build?
    ensures TableInv(Happens(w, Call(op)), section)
  {
    hide Distinct, Holds, RetailTable, Terminator;
    assert Step(w.registry, op).history == w.registry.history;
  }

  /** What the build makes of a table that is accepted. */
  lemma AcceptedBuild(s: State, section: Section, here: seq<int>)
    requires Terminated(here) && Terminator(here) > 0
    ensures var table, n := TableFrom(here), Terminator(here) - 1;
            && TableAccepted(Some(table)) && RetailTable(table, n) && GameCount(here) == n && table <= here
            && BuildStep(s, section, Some(table)) == BuiltState(s, section, table, n)
            && BuildResult(s, section, Some(table)) == TableOf(table, n, EnabledEntries(s.tracks, section))
  {
    TableIsRead(here);
    hide BuiltState, TableOf, Terminator, EnabledEntries;
    var table := TableFrom(here);
    assert RetailPart(table) == table;
    RetailPartShape(table);
  }

  lemma AcceptedLoad(w: World, section: Section, here: seq<int>, behind: Option<seq<int>>, found: seq<Track>,
                     saved: Option<string>)
    requires Terminated(here) && Terminator(here) > 0
    ensures TableInv(Loaded(w, section, here, behind, found, saved), section)
  {
    hide Rescanned, BuildStep, BuildResult, BuiltState, TableAccepted, Terminator, RetailTable, EnabledEntries, TableOf,
      TableFrom, GameCount, Reads, Published, PerSection<bool>.With;
    var table, n, start := TableFrom(here), Terminator(here) - 1, Rescanned(w.registry, found, saved);
    AcceptedBuild(start, section, here);
    BuiltRecords(start, section, table, n);
    AcceptedReads(table, n, EnabledEntries(start.tracks, section), here, behind);
  }

  /** What the game reads after an accepted build: the build's own table, or no more than the retail one. */
  lemma AcceptedReads(table: seq<int>, n: nat, owned: seq<Owned>, here: seq<int>, behind: Option<seq<int>>)
    requires RetailTable(table, n) && table <= here && GameCount(here) == n
    ensures var extended := TableOf(table, n, owned);
            var read := Reads(extended, here, behind);
            if extended == [] || behind.Some? then Published(table, n, owned) <= read else GameCount(read) <= n
  {
    hide EndsOf, Terminator, RetailTable, U32;
  }

  /** A table that starts with its terminator is refused: the registry keeps what it had, and the game counts nothing.
      */
  lemma RefusedLoad(w: World, section: Section, here: seq<int>, behind: Option<seq<int>>, found: seq<Track>,
                    saved: Option<string>)
    requires TableInv(w, section) && Terminated(here) && Terminator(here) == 0
    ensures TableInv(Loaded(w, section, here, behind, found, saved), section)
  {
    TableIsRead(here);
    hide EnabledEntries, BuiltState, Terminator, RetailTable, Distinct, Holds;
  }

  /** The other sections do not notice. */
  lemma LoadKeepsOthers(w: World, section: Section, here: seq<int>, behind: Option<seq<int>>, found: seq<Track>,
                        saved: Option<string>, other: Section)
    requires TableInv(w, other) && other != section
    ensures TableInv(Loaded(w, section, here, behind, found, saved), other)
  {
    hide Rescanned, BuildStep, BuildResult, TableAccepted, Terminator, RetailTable, Holds, Reads, TableFrom, GameCount,
      PerSection<bool>.With, PerSection<bool>.At;
    RescanKeepsHistory(w.registry, found, saved);
    if Terminated(here) {
      BuildKeepsHistory(Rescanned(w.registry, found, saved), section, Some(TableFrom(here)), other);
    }
  }

  lemma RescanKeepsHistory(s: State, found: seq<Track>, saved: Option<string>)
    ensures Rescanned(s, found, saved).history == s.history
  {
    hide Distinct;
  }

  lemma BuildKeepsHistory(s: State, section: Section, table: Option<seq<int>>, other: Section)
    requires other != section
    ensures BuildStep(s, section, table).history.At(other) == s.history.At(other)
  {
    hide EnabledEntries, SectionOf, ResolvedIdsOf, TableAccepted, RetailTable, RetailPart;
  }

  lemma LoadKeepsTables(w: World, section: Section, here: seq<int>, behind: Option<seq<int>>, found: seq<Track>,
                        saved: Option<string>, other: Section)
    requires TableInv(w, other)
    ensures TableInv(Loaded(w, section, here, behind, found, saved), other)
  {
    if other != section {
      LoadKeepsOthers(w, section, here, behind, found, saved, other);
    } else if !Terminated(here) {
      hide Holds, RetailTable, Terminator;
    } else if Terminator(here) > 0 {
      AcceptedLoad(w, section, here, behind, found, saved);
    } else {
      RefusedLoad(w, section, here, behind, found, saved);
    }
  }

  lemma LoadKeepsInv(w: World, e: Event)
    requires Inv(w.registry) && e.LoadTable? && EventAllowed(e)
    ensures Inv(Happens(w, e).registry)
  {
    hide Inv, JustParsed, BuildStep, BuildResult, Terminator, Rescanned, Reads, TableFrom, TableAccepted;
    if Terminated(e.here) {
      TableIsRead(e.here);
      StepKeepsInv(w.registry, Build(e.section, Some(TableFrom(e.here)), e.found, e.saved));
    }
  }

  lemma EventKeepsInv(w: World, e: Event)
    requires WorldInv(w) && EventAllowed(e)
    ensures WorldInv(Happens(w, e))
  {
    hide Inv, TableInv, Step, Allowed, Loaded;
    match e
    case Call(op) =>
      StepKeepsInv(w.registry, op);
      forall section: Section ensures TableInv(Happens(w, e), section) { CallKeepsTables(w, op, section); }
    case LoadTable(section, here, behind, found, saved) =>
      LoadKeepsInv(w, e);
      forall other: Section ensures TableInv(Happens(w, e), other) {
        LoadKeepsTables(w, section, here, behind, found, saved, other);
      }
  }

  predicate AllAllowed(events: seq<Event>) {
    forall i :: 0 <= i < |events| ==> EventAllowed(events[i])
  }

  lemma {:induction false} PlayKeepsInv(events: seq<Event>)
    requires AllAllowed(events)
    ensures WorldInv(Play(START, events))
  {
    hide Happens, EventAllowed;
    if events == [] {
    } else {
      hide WorldInv;
      var front := events[..|events| - 1];
      PlayKeepsInv(front);
      EventKeepsInv(Play(START, front), events[|events| - 1]);
    }
  }

  /** A world that some run of allowed events leads to. */
  ghost predicate Reached(w: World) {
    exists events :: AllAllowed(events) && w == Play(START, events)
  }

  lemma ReachedInv(w: World)
    requires Reached(w)
    ensures WorldInv(w)
  {
    hide WorldInv, AllAllowed, Play;
    var events :| AllAllowed(events) && w == Play(START, events);
    PlayKeepsInv(events);
  }

  // ---------------------------------------------------------------------
  // Which levels the game can reach
  // ---------------------------------------------------------------------

  /** What the game counts in a table that memory starts with. */
  lemma GameCountsHeld(read: seq<int>, retail: seq<int>, n: nat, owned: seq<Owned>)
    requires RetailTable(retail, n) && InRange(retail, n, owned) && Published(retail, n, owned) <= read
    ensures GameCount(read) == n + |owned|
    ensures |Published(retail, n, owned)| == n + |owned| + 2 <= |read|
    ensures forall i :: 0 <= i < n + |owned| + 2 ==> read[i] == Published(retail, n, owned)[i]
  {
    var table := Published(retail, n, owned);
    PublishedCount(retail, n, owned);
    PublishedAt(retail, n, owned, 0);
    hide Published, RetailTable, InRange;
    assert forall i :: 0 <= i < |table| ==> read[i] == table[i];
    TerminatorUnique(read, n + |owned| + 1);
  }

  /** The last header table that was built is within range. */
  ghost predicate HeadersInRange(s: State) {
    s.history.headers.Some? ==>
      var pub := s.history.headers.value; RetailTable(pub.retail, pub.n) && PubInRange(LevelHeaders, pub)
  }

  /** The header that the armed track's level id names. */
  lemma ArmedHeader(s: State) returns (j: nat)
    requires Inv(s) && HeadersInRange(s) && TrackOverride(s) != -1
    ensures HasHeader(s, j) && HeaderOf(s, j).id == s.armed && TrackOverride(s) == s.history.headers.value.n + j
    ensures forall k :: j < k < |OwnedBy(LevelHeaders, s.history.headers.value)| ==>
      OwnedBy(LevelHeaders, s.history.headers.value)[k].id != s.armed
  {
    hide Backed, EnabledEntries, ResolvedIdsOf, RetailTable, PubInRange;
    assert s.armed in s.resolved;
    var pub := s.history.headers.value;
    j := LastResolved(OwnedBy(LevelHeaders, pub), pub.n, s.armed);
  }

  /** The armed track has a level id, and the game has a header table in memory. */
  ghost predicate ArmedLevel(w: World) {
    HeadersInRange(w.registry) && TrackOverride(w.registry) != -1 && w.read.headers.Some?
  }

  /** Over every run, the level id of the armed track is one that the game's own count admits if and only if the last
      header table reached the game. When its pool refused the longer table the id lies beyond the count. */
  lemma LevelIdReachable(w: World)
    requires Reached(w) && ArmedLevel(w)
    ensures TrackOverride(w.registry) < GameCount(w.read.headers.value) <==> w.published.headers
  {
    ReachedInv(w);
    assert TableInv(w, LevelHeaders);
    hide Reached, WorldInv, Inv, GameCount, EnabledEntries, RetailTable, InRange, TrackOverride, Published;
    var j := ArmedHeader(w.registry);
    if w.published.headers {
      var pub := w.registry.history.headers.value;
      GameCountsHeld(w.read.headers.value, pub.retail, pub.n, OwnedBy(LevelHeaders, pub));
    }
  }

  /** Level `id` of the table in memory is header `j`: the game's own load of it, offset and size from that table,
      delivers the header with its fix-ups. */
  ghost predicate GameLoads(s: State, read: seq<int>, id: int, j: nat)
    requires HasHeader(s, j)
  {
    && 0 <= id && id + 1 < |read| && 0 <= read[id] == HeaderOffset(s, j)
    && Delivered(s, LevelHeaders, read[id], GameSize(read, id))
       == Some(ServedHeader(s, HeaderOf(s, j).entry.bytes, read[id]))
  }

  lemma HeldHeaderLoads(s: State, read: seq<int>, j: nat)
    requires Inv(s) && HasHeader(s, j) && Holds(read, LevelHeaders, s.history.headers.value)
    ensures GameLoads(s, read, s.history.headers.value.n + j, j)
  {
    hide Inv, EnabledEntries, RetailTable, InRange, Published, Delivered, ServedHeader, HeaderOffset, HeaderAt;
    var pub := s.history.headers.value;
    GameCountsHeld(read, pub.retail, pub.n, OwnedBy(LevelHeaders, pub));
    HeaderInTable(s, j);
    var header := HeaderOf(s, j).entry.bytes;
    HeaderNotEmpty(s, j);
    HeaderDelivered(s, j, |header|);
    assert header[..|header|] == header;
  }

  lemma HeaderNotEmpty(s: State, j: nat)
    requires Inv(s) && HasHeader(s, j)
    ensures HeaderOf(s, j).entry.bytes != []
  {
    SectionBacked(s, LevelHeaders);
    hide Inv, EnabledEntries, UniqueIds, Parsed, RetailTable, PubInRange, SectionOf;
    OwnedIsParsed(s.history.headers.value.tracks, LevelHeaders, j);
  }

  /** The header that a track's level id names is the last one of that track, the one that its parser judged. */
  lemma LastOfTrack(s: State, j: nat, t: nat)
    requires Inv(s) && OwnerIs(s, j, t)
    requires forall k :: j < k < |OwnedBy(LevelHeaders, s.history.headers.value)| ==>
      OwnedBy(LevelHeaders, s.history.headers.value)[k].id != HeaderOf(s, j).id
    ensures LastHeader(s.history.headers.value.tracks[t].entries) == Some(HeaderOf(s, j).entry)
  {
    UniqueTracks(s);
    var tracks := s.history.headers.value.tracks;
    hide Inv, EnabledEntries, RetailTable, PubInRange, LastHeader, EntriesOf, Within;
    LastEntryOfTrack(tracks, t, j);
    LastHeaderIs(tracks[t].entries);
  }

  lemma LastEntryOfTrack(tracks: seq<Track>, t: nat, j: nat)
    requires UniqueIds(tracks) && t < |tracks| && tracks[t].enabled && j < |EnabledEntries(tracks, LevelHeaders)|
    requires var owned := EnabledEntries(tracks, LevelHeaders);
             owned[j].id == tracks[t].id && forall k :: j < k < |owned| ==> owned[k].id != tracks[t].id
    ensures var headers := EntriesOf(tracks[t].entries, LevelHeaders);
            headers != [] && headers[|headers| - 1] == EnabledEntries(tracks, LevelHeaders)[j].entry
  {
    hide EnabledEntries, EntriesOf, Within;
    var owned, headers := EnabledEntries(tracks, LevelHeaders), EntriesOf(tracks[t].entries, LevelHeaders);
    var k := EntryOfTrack(tracks, LevelHeaders, t, j);
    var p := ManifestPosition(tracks, LevelHeaders, t, |headers| - 1);
    if p < j {
      WithinGrows(owned, p, j);
    }
  }

  /** Header `j` is the last one of the track that it came from. */
  ghost predicate LastOfOwner(s: State, j: nat) {
    forall t: nat :: OwnerIs(s, j, t) ==>
      LastHeader(s.history.headers.value.tracks[t].entries) == Some(HeaderOf(s, j).entry)
  }

  /** And then the game's own load of that level delivers a header of the armed track: its last one, which is the one
      that the parser judged. */
  lemma LevelIdLoadsOwnHeader(w: World) returns (j: nat)
    requires Reached(w) && ArmedLevel(w) && w.published.headers
    ensures HasHeader(w.registry, j) && HeaderOf(w.registry, j).id == w.registry.armed
    ensures GameLoads(w.registry, w.read.headers.value, TrackOverride(w.registry), j)
    ensures LastOfOwner(w.registry, j)
  {
    ReachedInv(w);
    assert TableInv(w, LevelHeaders);
    hide Reached, WorldInv, Inv, TrackOverride, Holds, HeadersInRange, EnabledEntries, GameLoads, RetailTable,
      PubInRange, LastHeader;
    j := ArmedHeader(w.registry);
    HeldHeaderLoads(w.registry, w.read.headers.value, j);
    forall t: nat | OwnerIs(w.registry, j, t)
      ensures LastHeader(w.registry.history.headers.value.tracks[t].entries) == Some(HeaderOf(w.registry, j).entry)
    {
      LastOfTrack(w.registry, j, t);
    }
  }

  // ---------------------------------------------------------------------
  // The object maps of the armed level
  // ---------------------------------------------------------------------

  /** A load of the object-map table that the build accepts. */
  predicate LoadsMaps(e: Event) {
    e.LoadTable? && e.section == LevelObjectMaps && Terminated(e.here) && Terminator(e.here) > 0
  }

  /** The tracks of the moment when the object-map table was last loaded. */
  function MapTracks(events: seq<Event>): (tracks: Option<seq<Track>>) {
    if events == [] then None
    else
      var front, last := events[..|events| - 1], events[|events| - 1];
      if LoadsMaps(last) then Some(Rescanned(Play(START, front).registry, last.found, last.saved).tracks)
      else MapTracks(front)
  }

  lemma MapLoadRecords(w: World, e: Event)
    requires LoadsMaps(e)
    ensures var maps := Happens(w, e).registry.history.objectMaps;
            maps.Some? && maps.value.tracks == Rescanned(w.registry, e.found, e.saved).tracks
  {
    hide Rescanned, BuildStep, BuildResult, BuiltState, TableAccepted, Terminator, RetailTable, EnabledEntries, TableOf,
      TableFrom, GameCount, Reads, Published, PerSection<bool>.With;
    var start := Rescanned(w.registry, e.found, e.saved);
    AcceptedBuild(start, LevelObjectMaps, e.here);
    BuiltRecords(start, LevelObjectMaps, TableFrom(e.here), Terminator(e.here) - 1);
    var s := BuildStep(start, LevelObjectMaps, Some(TableFrom(e.here)));
    assert s.history.At(LevelObjectMaps) == s.history.objectMaps;
  }

  lemma OtherEventsKeepMaps(w: World, e: Event)
    requires EventAllowed(e) && !LoadsMaps(e)
    ensures Happens(w, e).registry.history.objectMaps == w.registry.history.objectMaps
  {
    if e.Call? {
      hide Distinct, JustParsed;
    } else if Terminated(e.here) {
      TableIsRead(e.here);
      RescanKeepsHistory(w.registry, e.found, e.saved);
      var start := Rescanned(w.registry, e.found, e.saved);
      hide Rescanned, EnabledEntries, BuiltState, Terminator, RetailTable, BuildResult, Reads, JustParsed,
        ReadableTable, PerSection<bool>.With;
      if e.section != LevelObjectMaps {
        BuildKeepsHistory(start, e.section, Some(TableFrom(e.here)), LevelObjectMaps);
      }
      assert BuildStep(start, e.section, Some(TableFrom(e.here))).history.At(LevelObjectMaps)
        == start.history.At(LevelObjectMaps);
    }
  }

  /** The registry's object maps are those of the last load. */
  lemma {:induction false} MapTracksRecorded(events: seq<Event>)
    requires AllAllowed(events)
    ensures var maps := Play(START, events).registry.history.objectMaps;
            MapTracks(events) == if maps.Some? then Some(maps.value.tracks) else None
  {
    hide Happens, EventAllowed, LoadsMaps, Rescanned;
    if events != [] {
      var front, last := events[..|events| - 1], events[|events| - 1];
      MapTracksRecorded(front);
      if LoadsMaps(last) {
        MapLoadRecords(Play(START, front), last);
      } else {
        OtherEventsKeepMaps(Play(START, front), last);
      }
    }
  }

  /** When the object-map table was last loaded, this track was enabled and supplied a map for the slot. */
  predicate OfferedAtLoad(events: seq<Event>, id: string, slot: MapSlot) {
    MapTracks(events).Some? && SuppliedBy(MapTracks(events).value, id, slot)
  }

  lemma OfferedMeansOffered(events: seq<Event>, id: string, slot: MapSlot)
    requires AllAllowed(events)
    ensures MapOffered(Play(START, events).registry, id, slot) <==> OfferedAtLoad(events, id, slot)
  {
    hide Play, MapTracks, SuppliedBy, AllAllowed;
    MapTracksRecorded(events);
  }

  /** The game loads level `id` with its own arithmetic and finds `v` in the header field at `at`. */
  ghost predicate GameFinds(w: World, id: int, at: nat, v: int) {
    && w.read.headers.Some? && 0 <= id && id + 1 < |w.read.headers.value| && 0 <= w.read.headers.value[id]
    && var d := Delivered(w.registry, LevelHeaders, w.read.headers.value[id], GameSize(w.read.headers.value, id));
       d.Some? && FieldAt(d.value, at) == v
  }

  /** Exactly, over every run: the level of the armed track reaches the game with an object map other than 0 if and only
      if its last header has one, or the track was enabled and supplied one when the object-map table was last loaded.
      */
  lemma ArmedLevelMapField(events: seq<Event>, at: nat, slot: MapSlot) returns (j: nat, v: int)
    requires AllAllowed(events) && ArmedLevel(Play(START, events)) && Play(START, events).published.headers
    requires MapIndicesFit(Play(START, events).registry) && MapField(at, slot)
    ensures var w := Play(START, events);
            && HasHeader(w.registry, j) && HeaderOf(w.registry, j).id == w.registry.armed && LastOfOwner(w.registry, j)
            && (at + 2 <= |HeaderOf(w.registry, j).entry.bytes| ==>
                  && GameFinds(w, TrackOverride(w.registry), at, v)
                  && (v != 0 <==> FieldAt(HeaderOf(w.registry, j).entry.bytes, at) != 0
                                  || OfferedAtLoad(events, w.registry.armed, slot)))
  {
    var w := Play(START, events);
    assert Reached(w);
    ReachedInv(w);
    hide Reached, Play, AllAllowed, Inv, TrackOverride, HeadersInRange, HasHeader, HeaderOf, MapIndicesFit, Delivered,
      FieldAt, ServedHeader, HeaderOffset, HeaderAt, MapOffered, OfferedAtLoad, LastOfOwner;
    j := LevelIdLoadsOwnHeader(w);
    v := 0;
    var header := HeaderOf(w.registry, j).entry.bytes;
    if at + 2 <= |header| {
      LoadedMapField(w.registry, j, |header|, at, slot);
      OfferedMeansOffered(events, w.registry.armed, slot);
      HeaderDelivered(w.registry, j, |header|);
      assert header[..|header|] == header;
      v := FieldAt(ServedHeader(w.registry, header, HeaderOffset(w.registry, j)), at);
    }
  }

  /** So with maps from the same tracks, the level of an accepted track never has object map 0, however many headers the
      track has. */
  lemma ArmedLevelHasNoZeroMap(events: seq<Event>, t: nat, at: nat, slot: MapSlot) returns (j: nat, v: int)
    requires AllAllowed(events) && ArmedLevel(Play(START, events)) && Play(START, events).published.headers
    requires MapsMatch(Play(START, events).registry) && MapField(at, slot)
    requires t < |Play(START, events).registry.history.headers.value.tracks|
    requires var track := Play(START, events).registry.history.headers.value.tracks[t];
             track.enabled && track.id == Play(START, events).registry.armed && HeaderSafe(track.entries)
    ensures var w := Play(START, events);
            && HasHeader(w.registry, j)
            && (at + 2 <= |HeaderOf(w.registry, j).entry.bytes| ==>
                  GameFinds(w, TrackOverride(w.registry), at, v) && v != 0)
  {
    var w := Play(START, events);
    assert Reached(w);
    ReachedInv(w);
    hide Reached, Play, AllAllowed, Inv, TrackOverride, HeadersInRange, HasHeader, HeaderOf, MapIndicesFit, FieldAt,
      MapOffered, OfferedAtLoad, GameFinds, LastHeader, Supplies;
    j, v := ArmedLevelMapField(events, at, slot);
    assert OwnerIs(w.registry, j, t);
    OfferedByOwner(w.registry, j, t, slot);
    OfferedMeansOffered(events, w.registry.armed, slot);
  }

  // ---------------------------------------------------------------------
  // A pool that refuses
  // ---------------------------------------------------------------------

  /** The pool has no room for the longer header table, and the track is armed. */
  function RefusedPool(): (events: seq<Event>) {
    [Call(Scan([TwoHeaderTrack()], None)), LoadTable(LevelHeaders, SAMPLE_TABLE, None, [TwoHeaderTrack()], None),
     Call(Arm("two"))]
  }

  /** The level id is resolved although the game's own count stops short of it. */
  lemma RefusedPoolKeepsLevelId()
    ensures AllAllowed(RefusedPool())
    ensures var w := Play(START, RefusedPool());
            && TrackOverride(w.registry) == 2 && !w.published.headers
            && w.read.headers.Some? && GameCount(w.read.headers.value) == 1
  {
    var events := RefusedPool();
    assert AllAllowed(events) by { TwoHeadersLegal(); RefusedPoolAllowed(); }
    var w1 := Happens(START, events[0]);
    assert w1.registry.tracks == [TwoHeaderTrack()] && !w1.registry.pending by {
      assert [TwoHeaderTrack()][..0] == [] && Distinct([]) == [];
    }
    RefusedPoolLoaded(w1);
    hide Happens, TwoHeaderTrack;
    PlayThree(START, events[0], events[1], events[2]);
    ArmTwo(Happens(w1, events[1]));
  }

  lemma RefusedPoolAllowed()
    requires Legal(TwoHeaderRun())
    ensures AllAllowed(RefusedPool())
  {
    hide JustParsed, ReadableTable;
    assert Allowed(TwoHeaderRun()[0]) && Allowed(TwoHeaderRun()[1]);
  }

  lemma RefusedPoolLoaded(w: World)
    requires w.registry.tracks == [TwoHeaderTrack()] && !w.registry.pending
    ensures var r := Happens(w, RefusedPool()[1]);
            && r.registry.resolved == map["two" := 2] && !r.published.headers
            && r.read.headers == Some(SAMPLE_TABLE) && GameCount(SAMPLE_TABLE) == 1
  {
    hide BuildStep, BuildResult, EnabledEntries, ResolvedIdsOf, SectionOf, TwoHeaderTrack, EndsOf, Terminator;
    TerminatorUnique(SAMPLE_TABLE, 2);
    AcceptedBuild(w.registry, LevelHeaders, SAMPLE_TABLE);
    assert TableFrom(SAMPLE_TABLE) == SAMPLE_TABLE;
    TwoHeaderIds();
  }

  lemma TwoHeaderIds()
    ensures EnabledEntries([TwoHeaderTrack()], LevelHeaders) != []
    ensures ResolvedIdsOf(EnabledEntries([TwoHeaderTrack()], LevelHeaders), 1) == map["two" := 2]
  {
    hide EnabledEntries, TwoHeaderTrack;
    TwoHeaderEntries();
    var owned := EnabledEntries([TwoHeaderTrack()], LevelHeaders);
    assert owned[..1] == [owned[0]] && owned[..1][..0] == [];
    assert ResolvedIdsOf(owned[..1], 1) == map["two" := 1];
  }

  lemma ArmTwo(w: World)
    requires w.registry.resolved == map["two" := 2]
    ensures var r := Happens(w, Call(Arm("two")));
            TrackOverride(r.registry) == 2 && r.published == w.published && r.read == w.read
  {
  }

  lemma PlayThree(w: World, a: Event, b: Event, c: Event)
    ensures Play(w, [a, b, c]) == Happens(Happens(Happens(w, a), b), c)
  {
    hide Happens;
    assert [a, b, c][..2] == [a, b] && [a, b][..1] == [a] && [a][..0] == [];
    assert Play(w, [a, b, c]) == Happens(Play(w, [a, b]), c);
    assert Play(w, [a, b]) == Happens(Play(w, [a]), b);
  }

  // ---------------------------------------------------------------------
  // Headers before object maps
  // ---------------------------------------------------------------------

  /** The header table is loaded and published before the object-map table, and the track is armed. */
  function HeadersFirst(): (events: seq<Event>) {
    [Call(Scan([LateTrack()], None)), LoadTable(LevelHeaders, SAMPLE_TABLE, Some([]), [LateTrack()], None),
     Call(Arm("late"))]
  }

  lemma HeadersFirstAllowed()
    ensures AllAllowed(HeadersFirst())
  {
    LateRunLegal();
    hide JustParsed, ReadableTable;
    assert Allowed((LateRun() + [LateBuild()])[0]) && Allowed((LateRun() + [LateBuild()])[4]);
  }

  lemma HeadersFirstLoaded(w: World)
    requires w.registry.tracks == [LateTrack()] && !w.registry.pending && w.registry.sections.textures == UNBUILT
    ensures var r := Happens(w, HeadersFirst()[1]);
            && r.registry.resolved == map["late" := 1] && r.published.headers && r.read.headers.Some?
            && r.registry.history.headers == Some(Publication(SAMPLE_TABLE, 1, [LateTrack()], UNBUILT))
            && r.registry.history.objectMaps == w.registry.history.objectMaps
  {
    LateIds();
    hide BuildStep, BuildResult, EnabledEntries, ResolvedIdsOf, SectionOf, LateTrack, Terminator;
    TerminatorUnique(SAMPLE_TABLE, 2);
    AcceptedBuild(w.registry, LevelHeaders, SAMPLE_TABLE);
    assert TableFrom(SAMPLE_TABLE) == SAMPLE_TABLE;
  }

  lemma LateIds()
    ensures ResolvedIdsOf(EnabledEntries([LateTrack()], LevelHeaders), 1) == map["late" := 1]
  {
    hide EnabledEntries, LateTrack;
    LateEntries();
    var owned := EnabledEntries([LateTrack()], LevelHeaders);
    assert owned[..0] == [] && ResolvedIdsOf([], 1) == map[];
  }

  lemma HeadersFirstPlayed()
    ensures var w := Play(START, HeadersFirst());
            && w.registry.resolved == map["late" := 1] && w.registry.armed == "late"
            && w.published.headers && w.read.headers.Some?
            && w.registry.history.headers == Some(Publication(SAMPLE_TABLE, 1, [LateTrack()], UNBUILT))
            && w.registry.history.objectMaps == None
  {
    var events := HeadersFirst();
    hide Happens, LateTrack;
    PlayThree(START, events[0], events[1], events[2]);
    var w1 := Happens(START, events[0]);
    assert w1.registry == Step(INITIAL, Scan([LateTrack()], None)) by { CallSteps(START, Scan([LateTrack()], None)); }
    ScanAlone(INITIAL, LateTrack());
    HeadersFirstLoaded(w1);
    var w2 := Happens(w1, events[1]);
    CallSteps(w2, Arm("late"));
  }

  lemma CallSteps(w: World, op: Op)
    ensures Happens(w, Call(op)) == w.(registry := Step(w.registry, op))
  {
    hide Step;
  }

  /** The armed level of an accepted track that supplies both maps then reaches the game with object map 0 twice. */
  lemma HeadersFirstLeaveZero()
    ensures ManifestAccepted(LateMaps()) && LateTrack() == Track(LateMaps().id, EntriesFrom(LateMaps().adds), true)
    ensures AllAllowed(HeadersFirst())
    ensures var w := Play(START, HeadersFirst());
            && w.registry.armed == "late" && TrackOverride(w.registry) == 1 && w.published.headers
            && GameFinds(w, 1, COLLECTABLES_FIELD, 0) && GameFinds(w, 1, STRUCTURE_FIELD, 0)
  {
    LateMapsAccepted();
    HeadersFirstAllowed();
    HeadersFirstPlayed();
    LateHeaderInRange();
    FilledWithZero();
    hide ManifestAccepted, LateMaps, EntriesFrom, AllAllowed, HeadersFirst, Play, PubInRange, RetailTable,
      EnabledEntries, FieldAt, Filled, GameFinds, MapTracks, LastOfOwner, SuppliedBy;
    MapTracksRecorded(HeadersFirst());
    var j, v := ArmedLevelMapField(HeadersFirst(), COLLECTABLES_FIELD, Collectables);
    var i, u := ArmedLevelMapField(HeadersFirst(), STRUCTURE_FIELD, Structure);
  }
}
