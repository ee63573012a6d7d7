/** Custom tracks, the sections they add to and the state of an extended section. */
module TrackData {
  import opened BitPacking

  datatype Section = LevelHeaders | LevelObjectMaps | LevelNames | LevelModels | Textures3D

  datatype MapSlot = NoSlot | Structure | Collectables

  datatype Entry = Entry(section: Section, slot: MapSlot, bytes: seq<u8>)

  datatype Track = Track(id: string, entries: seq<Entry>, enabled: bool)

  /** An entry together with the id of the track that ships it. */
  datatype Owned = Owned(id: string, entry: Entry)

  datatype AddedEntry = AddedEntry(trackId: string, slot: MapSlot, offset: nat, size: nat, index: nat, withinTrack: nat)

  datatype SectionState = SectionState(
    built: bool, endOffset: nat, blob: seq<u8>, retailCount: nat, added: seq<AddedEntry>)

  const UNBUILT: SectionState := SectionState(false, 0, [], 0, [])

  // ---------------------------------------------------------------------
  // The entries that enabled tracks contribute
  // ---------------------------------------------------------------------

  /** The entries of one track in one section, in manifest order. */
  function EntriesOf(entries: seq<Entry>, section: Section): (r: seq<Entry>) {
    if entries == [] then []
    else
      var last := entries[|entries| - 1];
      EntriesOf(entries[..|entries| - 1], section) + (if last.section == section then [last] else [])
  }

  /** The positions ahead of `e` whose entries go into this section. */
  function Earlier(entries: seq<Entry>, section: Section, e: nat): (s: set<nat>)
    requires e <= |entries|
  {
    set d: nat | d < e && entries[d].section == section
  }

  /** How many of a track's entries ahead of position `e` go into this section. */
  function Ahead(entries: seq<Entry>, section: Section, e: nat): (n: nat)
    requires e <= |entries|
  {
    |Earlier(entries, section, e)|
  }

  lemma EarlierNext(entries: seq<Entry>, section: Section, e: nat)
    requires e < |entries|
    ensures e !in Earlier(entries, section, e)
    ensures Earlier(entries, section, e + 1)
         == Earlier(entries, section, e) + if entries[e].section == section then {e} else {}
  {
  }

  lemma AheadNext(entries: seq<Entry>, section: Section, e: nat)
    requires e < |entries|
    ensures Ahead(entries, section, e + 1)
         == Ahead(entries, section, e) + if entries[e].section == section then 1 else 0
  {
    hide Earlier;
    EarlierNext(entries, section, e);
  }

  lemma {:induction false} AheadGrows(entries: seq<Entry>, section: Section, d: nat, e: nat)
    requires d <= e <= |entries|
    ensures Ahead(entries, section, d) <= Ahead(entries, section, e)
    ensures d < e && entries[d].section == section ==> Ahead(entries, section, d) < Ahead(entries, section, e)
    decreases e
  {
    hide Ahead;
    if d < e {
      AheadNext(entries, section, e - 1);
      if d < e - 1 { AheadGrows(entries, section, d, e - 1); }
    }
  }

  lemma NothingAhead(entries: seq<Entry>, section: Section)
    ensures Ahead(entries, section, 0) == 0
  {
  }

  lemma AheadOfPrefix(entries: seq<Entry>, section: Section, e: nat, n: nat)
    requires e <= n <= |entries|
    ensures Ahead(entries[..n], section, e) == Ahead(entries, section, e)
  {
    assert Earlier(entries[..n], section, e) == Earlier(entries, section, e);
  }

  /** Manifest order: an entry of the section stands where its number of predecessors says, and as many are listed as
      there are. */
  lemma {:induction false} EntriesInOrder(entries: seq<Entry>, section: Section)
    ensures |EntriesOf(entries, section)| == Ahead(entries, section, |entries|)
    ensures forall e :: 0 <= e < |entries| && entries[e].section == section ==>
      Ahead(entries, section, e) < |EntriesOf(entries, section)|
      && EntriesOf(entries, section)[Ahead(entries, section, e)] == entries[e]
  {
    hide Ahead;
    if entries == [] {
      NothingAhead(entries, section);
    } else {
      var n := |entries| - 1;
      EntriesInOrder(entries[..n], section);
      AheadNext(entries, section, n);
      AheadOfPrefix(entries, section, n, n);
      forall e | 0 <= e < |entries| && entries[e].section == section
        ensures Ahead(entries, section, e) < |EntriesOf(entries, section)|
        ensures EntriesOf(entries, section)[Ahead(entries, section, e)] == entries[e]
      {
        AheadOfPrefix(entries, section, e, n);
        if e < n { assert entries[..n][e] == entries[e]; }
      }
    }
  }

  /** And nothing else is listed. */
  lemma {:induction false} ListedEntry(entries: seq<Entry>, section: Section, k: nat) returns (e: nat)
    requires k < |EntriesOf(entries, section)|
    ensures e < |entries| && entries[e].section == section && Ahead(entries, section, e) == k
    ensures EntriesOf(entries, section)[k] == entries[e]
  {
    hide Ahead;
    var n := |entries| - 1;
    if k < |EntriesOf(entries[..n], section)| {
      e := ListedEntry(entries[..n], section, k);
      AheadOfPrefix(entries, section, e, n);
    } else {
      e := n;
      EntriesInOrder(entries[..n], section);
      AheadOfPrefix(entries, section, n, n);
    }
  }

  function Own(id: string, entries: seq<Entry>): (r: seq<Owned>)
    ensures |r| == |entries|
  {
    seq(|entries|, i requires 0 <= i < |entries| => Owned(id, entries[i]))
  }

  function Contribution(track: Track, section: Section): (r: seq<Owned>) {
    if track.enabled then Own(track.id, EntriesOf(track.entries, section)) else []
  }

  /** Track order as scanned, then manifest order within a track. */
  function EnabledEntries(tracks: seq<Track>, section: Section): (r: seq<Owned>) {
    if tracks == [] then []
    else EnabledEntries(tracks[..|tracks| - 1], section) + Contribution(tracks[|tracks| - 1], section)
  }

  lemma EnabledNext(tracks: seq<Track>, section: Section, t: nat)
    requires t < |tracks|
    ensures EnabledEntries(tracks[..t + 1], section)
         == if tracks[t].enabled
            then EnabledEntries(tracks[..t], section) + Own(tracks[t].id, EntriesOf(tracks[t].entries, section))
            else EnabledEntries(tracks[..t], section)
  {
    hide Own, EntriesOf;
    assert tracks[..t + 1][..t] == tracks[..t];
  }

  /** The two nested loops of `enabled_entries`; each entry carries its owner along. */
  method CollectEnabled(tracks: seq<Track>, section: Section) returns (result: seq<Owned>)
    ensures result == EnabledEntries(tracks, section)
  {
    hide EnabledEntries, EntriesOf, Own;
    result := [];
    NothingEnabled(tracks, section);
    for t := 0 to |tracks|
      invariant result == EnabledEntries(tracks[..t], section)
    {
      EnabledNext(tracks, section, t);
      if tracks[t].enabled {
        var entries := CollectTrack(tracks[t], section);
        result := result + entries;
      }
    }
    assert tracks[..|tracks|] == tracks;
  }

  lemma NothingEnabled(tracks: seq<Track>, section: Section)
    ensures EnabledEntries(tracks[..0], section) == []
  {
  }

  method CollectTrack(track: Track, section: Section) returns (result: seq<Owned>)
    ensures result == Own(track.id, EntriesOf(track.entries, section))
  {
    result := [];
    for e := 0 to |track.entries|
      invariant result == Own(track.id, EntriesOf(track.entries[..e], section))
    {
      assert track.entries[..e + 1][..e] == track.entries[..e];
      OwnAppend(track.id, EntriesOf(track.entries[..e], section), track.entries[e]);
      if track.entries[e].section == section {
        result := result + [Owned(track.id, track.entries[e])];
      }
    }
    assert track.entries[..|track.entries|] == track.entries;
  }

  lemma OwnAppend(id: string, entries: seq<Entry>, entry: Entry)
    ensures Own(id, entries + [entry]) == Own(id, entries) + [Owned(id, entry)]
    ensures Own(id, entries + []) == Own(id, entries)
  {
    assert entries + [] == entries;
  }

  predicate UniqueIds(tracks: seq<Track>) {
    forall i, j :: 0 <= i < j < |tracks| ==> tracks[i].id != tracks[j].id
  }

  /** How many of the first `j` entries belong to the same track as entry `j`. */
  function Within(owned: seq<Owned>, id: string): (n: nat)
    ensures n <= |owned|
  {
    if owned == [] then 0
    else Within(owned[..|owned| - 1], id) + (if owned[|owned| - 1].id == id then 1 else 0)
  }

  lemma {:induction false} WithinConcat(a: seq<Owned>, b: seq<Owned>, id: string)
    ensures Within(a + b, id) == Within(a, id) + Within(b, id)
  {
    if b == [] {
      assert a + b == a;
    } else {
      assert (a + b)[..|a + b| - 1] == a + b[..|b| - 1];
      WithinConcat(a, b[..|b| - 1], id);
    }
  }

  lemma {:induction false} WithinGrows(owned: seq<Owned>, p: nat, j: nat)
    requires p < j <= |owned|
    ensures Within(owned[..j], owned[p].id) > Within(owned[..p], owned[p].id)
    decreases j
  {
    assert owned[..j][..j - 1] == owned[..j - 1];
    if p < j - 1 { WithinGrows(owned, p, j - 1); }
  }

  lemma {:induction false} WithinOwn(id: string, entries: seq<Entry>, other: string)
    ensures Within(Own(id, entries), other) == if id == other then |entries| else 0
  {
    if entries != [] {
      assert Own(id, entries)[..|entries| - 1] == Own(id, entries[..|entries| - 1]);
      WithinOwn(id, entries[..|entries| - 1], other);
    }
  }

  lemma {:induction false} WithinAbsent(tracks: seq<Track>, section: Section, id: string)
    requires forall t :: 0 <= t < |tracks| ==> tracks[t].id != id
    ensures Within(EnabledEntries(tracks, section), id) == 0
  {
    if tracks != [] {
      var last := tracks[|tracks| - 1];
      WithinAbsent(tracks[..|tracks| - 1], section, id);
      WithinConcat(EnabledEntries(tracks[..|tracks| - 1], section), Contribution(last, section), id);
      WithinOwn(last.id, EntriesOf(last.entries, section), id);
    }
  }

  /** The enabled track with this id lists `entry` in its manifest behind exactly `k` others of the section. */
  predicate Ships(track: Track, section: Section, id: string, k: nat, entry: Entry) {
    track.enabled && track.id == id
    && exists e :: 0 <= e < |track.entries| && StandsAt(track.entries, section, k, entry, e)
  }

  predicate StandsAt(entries: seq<Entry>, section: Section, k: nat, entry: Entry, e: nat)
    requires e < |entries|
  {
    entries[e] == entry && entry.section == section && Ahead(entries, section, e) == k
  }

  lemma ShipsListed(track: Track, section: Section, id: string, k: nat, entry: Entry)
    ensures Ships(track, section, id, k, entry)
       <==> track.enabled && track.id == id && k < |EntriesOf(track.entries, section)|
            && entry == EntriesOf(track.entries, section)[k]
  {
    hide EntriesOf, Ahead;
    EntriesInOrder(track.entries, section);
    if k < |EntriesOf(track.entries, section)| && entry == EntriesOf(track.entries, section)[k] {
      var e := ListedEntry(track.entries, section, k);
      assert StandsAt(track.entries, section, k, entry, e);
    }
  }

  /** With unique ids, an entry's position among its track's contributions is its manifest position. */
  lemma {:induction false} ManifestOrder(tracks: seq<Track>, section: Section, p: nat)
    requires UniqueIds(tracks) && p < |EnabledEntries(tracks, section)|
    ensures var owned := EnabledEntries(tracks, section);
            exists t :: 0 <= t < |tracks|
              && Ships(tracks[t], section, owned[p].id, Within(owned[..p], owned[p].id), owned[p].entry)
  {
    hide Ships, EntriesOf, Within;
    var front, last := tracks[..|tracks| - 1], tracks[|tracks| - 1];
    var a, b := EnabledEntries(front, section), Contribution(last, section);
    var owned := EnabledEntries(tracks, section);
    assert owned == a + b;
    if p < |a| {
      ManifestOrder(front, section, p);
      assert owned[..p] == a[..p];
      var t :| 0 <= t < |front|
        && Ships(front[t], section, a[p].id, Within(a[..p], a[p].id), a[p].entry);
      assert tracks[t] == front[t];
    } else {
      assert owned[..p] == a + b[..p - |a|];
      LastTrackOrder(front, last, section, p - |a|);
      assert tracks[|tracks| - 1] == last;
    }
  }

  /** The last track's contributions are counted from its own first one. */
  lemma WithinLast(front: seq<Track>, last: Track, section: Section, q: nat)
    requires q < |Contribution(last, section)| && forall t :: 0 <= t < |front| ==> front[t].id != last.id
    ensures Within(EnabledEntries(front, section) + Contribution(last, section)[..q], last.id) == q
  {
    hide EnabledEntries, EntriesOf;
    var a, b := EnabledEntries(front, section), Contribution(last, section);
    WithinConcat(a, b[..q], last.id);
    WithinAbsent(front, section, last.id);
    assert b[..q] == Own(last.id, EntriesOf(last.entries, section)[..q]);
    WithinOwn(last.id, EntriesOf(last.entries, section)[..q], last.id);
  }

  lemma LastTrackOrder(front: seq<Track>, last: Track, section: Section, q: nat)
    requires q < |Contribution(last, section)| && forall t :: 0 <= t < |front| ==> front[t].id != last.id
    ensures var a, b := EnabledEntries(front, section), Contribution(last, section);
            b[q].id == last.id && Ships(last, section, last.id, Within(a + b[..q], last.id), b[q].entry)
  {
    hide EnabledEntries, EntriesOf, Within, Ships;
    WithinLast(front, last, section, q);
    ShipsListed(last, section, last.id, q, EntriesOf(last.entries, section)[q]);
  }

  /** And the other way round: the `k`-th entry of an enabled track is one of the contributions, behind all those of the
      tracks ahead of it. */
  lemma {:induction false} ManifestPosition(tracks: seq<Track>, section: Section, t: nat, k: nat) returns (p: nat)
    requires UniqueIds(tracks) && t < |tracks| && tracks[t].enabled && k < |EntriesOf(tracks[t].entries, section)|
    ensures var owned := EnabledEntries(tracks, section);
            p < |owned| && owned[p] == Owned(tracks[t].id, EntriesOf(tracks[t].entries, section)[k])
            && Within(owned[..p], tracks[t].id) == k
    ensures p == |EnabledEntries(tracks[..t], section)| + k
  {
    hide EntriesOf, Within, EnabledEntries, Own;
    var n := |tracks| - 1;
    var a, owned := EnabledEntries(tracks[..n], section), EnabledEntries(tracks, section);
    EnabledSplit(tracks, section);
    if t < n {
      p := ManifestPosition(tracks[..n], section, t, k);
      assert tracks[..n][..t] == tracks[..t];
      assert owned[..p] == a[..p];
    } else {
      p := |a| + k;
      LastPosition(tracks, section, k);
    }
  }

  lemma EnabledSplit(tracks: seq<Track>, section: Section)
    requires tracks != []
    ensures EnabledEntries(tracks, section)
         == EnabledEntries(tracks[..|tracks| - 1], section) + Contribution(tracks[|tracks| - 1], section)
  {
  }

  lemma LastPosition(tracks: seq<Track>, section: Section, k: nat)
    requires UniqueIds(tracks) && tracks != [] && tracks[|tracks| - 1].enabled
    requires k < |EntriesOf(tracks[|tracks| - 1].entries, section)|
    ensures var last, owned := tracks[|tracks| - 1], EnabledEntries(tracks, section);
            var p := |EnabledEntries(tracks[..|tracks| - 1], section)| + k;
            p < |owned| && owned[p] == Owned(last.id, EntriesOf(last.entries, section)[k])
            && Within(owned[..p], last.id) == k
  {
    hide EntriesOf, Within, EnabledEntries;
    var n := |tracks| - 1;
    EnabledSplit(tracks, section);
    var a, b := EnabledEntries(tracks[..n], section), Contribution(tracks[n], section);
    assert (a + b)[..|a| + k] == a + b[..k];
    WithinLast(tracks[..n], tracks[n], section, k);
  }

  // ---------------------------------------------------------------------
  // The order of all contributions
  // ---------------------------------------------------------------------

  /** How many entries all enabled tracks contribute. */
  function Contributed(tracks: seq<Track>, section: Section): (n: nat) {
    if tracks == [] then 0
    else
      var last := tracks[|tracks| - 1];
      Contributed(tracks[..|tracks| - 1], section)
      + if last.enabled then Ahead(last.entries, section, |last.entries|) else 0
  }

  lemma {:induction false} ContributedAll(tracks: seq<Track>, section: Section)
    ensures |EnabledEntries(tracks, section)| == Contributed(tracks, section)
  {
    hide EntriesOf, Ahead;
    if tracks != [] {
      ContributedAll(tracks[..|tracks| - 1], section);
      EntriesInOrder(tracks[|tracks| - 1].entries, section);
    }
  }

  /** Track order, then manifest order: an entry of an enabled track stands behind everything that the enabled tracks
      ahead contribute and behind its own predecessors. */
  lemma {:induction false} EnabledInOrder(tracks: seq<Track>, section: Section, t: nat, e: nat)
    requires t < |tracks| && tracks[t].enabled && e < |tracks[t].entries| && tracks[t].entries[e].section == section
    ensures var p := Contributed(tracks[..t], section) + Ahead(tracks[t].entries, section, e);
            p < |EnabledEntries(tracks, section)|
            && EnabledEntries(tracks, section)[p] == Owned(tracks[t].id, tracks[t].entries[e])
  {
    hide EntriesOf, Ahead, Contributed;
    var front, last := tracks[..|tracks| - 1], tracks[|tracks| - 1];
    if t < |front| {
      assert front[..t] == tracks[..t];
      EnabledInOrder(front, section, t, e);
    } else {
      assert tracks[..t] == front;
      ContributedAll(front, section);
      EntriesInOrder(last.entries, section);
    }
  }

  /** And nothing else is contributed. */
  lemma {:induction false} EnabledListed(tracks: seq<Track>, section: Section, p: nat) returns (t: nat, e: nat)
    requires p < |EnabledEntries(tracks, section)|
    ensures t < |tracks| && tracks[t].enabled && e < |tracks[t].entries| && tracks[t].entries[e].section == section
    ensures p == Contributed(tracks[..t], section) + Ahead(tracks[t].entries, section, e)
    ensures EnabledEntries(tracks, section)[p] == Owned(tracks[t].id, tracks[t].entries[e])
  {
    hide EntriesOf, Ahead, Contributed;
    var front, last := tracks[..|tracks| - 1], tracks[|tracks| - 1];
    if p < |EnabledEntries(front, section)| {
      t, e := EnabledListed(front, section, p);
      assert front[..t] == tracks[..t];
    } else {
      t := |front|;
      ContributedAll(front, section);
      assert tracks[..t] == front;
      e := ListedEntry(last.entries, section, p - |EnabledEntries(front, section)|);
    }
  }
}
