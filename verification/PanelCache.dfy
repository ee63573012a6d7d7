/** The launcher's cache of rasterised panels: eight entries, keyed by the exact vertices. */
module PanelCache {
  import opened Basics

  const SLOTS: nat := 8
  const MAX_VERTICES: nat := 4096
  const MIN_PIXELS: nat := 100_000
  const MAX_PIXELS: nat := 4 * 1024 * 1024
  const PIXEL_BUDGET: nat := 16 * 1024 * 1024
  const MAX_COORDINATE: real := 16384.0

  type Texture = nat

  datatype Coordinate = Finite(value: real) | NonFinite

  /** A vertex; `rest` stands for its other bytes, so that equality is equality of all bytes. */
  datatype Vertex = Vertex(x: Coordinate, y: Coordinate, rest: int)

  datatype Rect = Rect(x: int, y: int, w: int, h: int)

  datatype Entry = Entry(texture: Option<Texture>, vertices: seq<Vertex>, bounds: Rect, lastFrame: nat, attempted: bool)

  const EMPTY: Entry := Entry(None, [], Rect(0, 0, 0, 0), 0, false)

  // ---------------------------------------------------------------------
  // Bounds
  // ---------------------------------------------------------------------

  predicate AllFinite(vertices: seq<Vertex>) {
    forall i :: 0 <= i < |vertices| ==> vertices[i].x.Finite? && vertices[i].y.Finite?
  }

  predicate BoundedBy(vertices: seq<Vertex>, left: real, top: real, right: real, bottom: real)
    requires AllFinite(vertices)
  {
    forall i :: 0 <= i < |vertices| ==>
      left <= vertices[i].x.value <= right && top <= vertices[i].y.value <= bottom
  }

  function MinOf(a: real, b: real): (r: real) { if b < a then b else a }

  function MaxOf(a: real, b: real): (r: real) { if a < b then b else a }

  datatype Box = Box(left: real, top: real, right: real, bottom: real)

  /** The tight box around a mesh. */
  function BoxOf(vertices: seq<Vertex>): (b: Box)
    requires vertices != [] && AllFinite(vertices)
    ensures BoundedBy(vertices, b.left, b.top, b.right, b.bottom)
  {
    var last := vertices[|vertices| - 1];
    if |vertices| == 1 then Box(last.x.value, last.y.value, last.x.value, last.y.value)
    else
      var b := BoxOf(vertices[..|vertices| - 1]);
      assert forall i :: 0 <= i < |vertices| - 1 ==> vertices[i] == vertices[..|vertices| - 1][i];
      Box(MinOf(b.left, last.x.value), MinOf(b.top, last.y.value),
          MaxOf(b.right, last.x.value), MaxOf(b.bottom, last.y.value))
  }

  function Ceil(x: real): (n: int) {
    -((-x).Floor)
  }

  function RectOf(b: Box): (r: Rect) {
    Rect(b.left.Floor, b.top.Floor, Ceil(b.right) - b.left.Floor, Ceil(b.bottom) - b.top.Floor)
  }

  /** The bounds of a mesh that may be cached at all. */
  function Bounds(vertices: seq<Vertex>): (r: Option<Rect>) {
    if vertices == [] || |vertices| > MAX_VERTICES || !AllFinite(vertices) then None
    else
      var b := BoxOf(vertices);
      if b.left < 0.0 || b.top < 0.0 || b.right > MAX_COORDINATE || b.bottom > MAX_COORDINATE then None
      else
        var rect := RectOf(b);
        if rect.w * rect.h < MIN_PIXELS || rect.w * rect.h > MAX_PIXELS then None else Some(rect)
  }

  method ComputeBounds(vertices: seq<Vertex>) returns (bounds: Option<Rect>)
    ensures bounds == Bounds(vertices)
  {
    if vertices == [] || |vertices| > MAX_VERTICES || !vertices[0].x.Finite? || !vertices[0].y.Finite? {
      return None;
    }
    var box := Box(vertices[0].x.value, vertices[0].y.value, vertices[0].x.value, vertices[0].y.value);
    for i := 1 to |vertices|
      invariant AllFinite(vertices[..i]) && box == BoxOf(vertices[..i])
    {
      if !vertices[i].x.Finite? || !vertices[i].y.Finite? {
        return None;
      }
      assert vertices[..i + 1][..i] == vertices[..i];
      assert AllFinite(vertices[..i + 1]);
      box := Box(MinOf(box.left, vertices[i].x.value), MinOf(box.top, vertices[i].y.value),
                 MaxOf(box.right, vertices[i].x.value), MaxOf(box.bottom, vertices[i].y.value));
    }
    assert vertices[..|vertices|] == vertices;
    if box.left < 0.0 || box.top < 0.0 || box.right > MAX_COORDINATE || box.bottom > MAX_COORDINATE {
      return None;
    }
    var rect := RectOf(box);
    var pixels := rect.w * rect.h;
    if pixels < MIN_PIXELS || pixels > MAX_PIXELS {
      return None;
    }
    return Some(rect);
  }

  // ---------------------------------------------------------------------
  // One lookup
  // ---------------------------------------------------------------------

  /** `created` remembers what every texture was rasterised from; `destroyed` which are gone. */
  datatype Cache = Cache(
    entries: seq<Entry>, frame: nat, hits: nat, builds: nat,
    created: map<Texture, seq<Vertex>>, destroyed: set<Texture>)

  function Area(r: Rect): (n: int) {
    r.w * r.h
  }

  /** Pixels held by textured entries. */
  function Held(entries: seq<Entry>): (n: int) {
    if entries == [] then 0
    else
      var last := entries[|entries| - 1];
      Held(entries[..|entries| - 1]) + if last.texture.Some? then Area(last.bounds) else 0
  }

  /** The first entry with these vertices, or the number of entries. */
  function Match(entries: seq<Entry>, vertices: seq<Vertex>): (i: nat)
    ensures i <= |entries|
    ensures i < |entries| ==> entries[i].vertices == vertices
    ensures forall j :: 0 <= j < i ==> entries[j].vertices != vertices
  {
    if entries == [] || entries[0].vertices == vertices then 0
    else
      assert forall j :: 1 <= j < |entries| ==> entries[j] == entries[1..][j - 1];
      1 + Match(entries[1..], vertices)
  }

  /** `std::min_element` by last use: the first least recently used entry. */
  function Oldest(entries: seq<Entry>): (i: nat)
    requires entries != []
    ensures i < |entries|
    ensures forall j :: 0 <= j < |entries| ==> entries[i].lastFrame <= entries[j].lastFrame
    ensures forall j :: 0 <= j < i ==> entries[i].lastFrame < entries[j].lastFrame
  {
    if |entries| == 1 then 0
    else
      var front := entries[..|entries| - 1];
      assert forall j :: 0 <= j < |front| ==> front[j] == entries[j];
      var i := Oldest(front);
      if entries[|entries| - 1].lastFrame < entries[i].lastFrame then |entries| - 1 else i
  }

  /** Touches a known entry; on its second consecutive frame a rasterisation is attempted once, within budget. */
  function Touched(c: Cache, i: nat, bounds: Rect, made: Option<Texture>): (r: Cache)
    requires i < |c.entries|
  {
    var e := c.entries[i];
    if !e.attempted && e.lastFrame + 1 >= c.frame then
      var texture := if Area(bounds) + Held(c.entries) <= PIXEL_BUDGET then made else e.texture;
      var built := texture.Some? && !e.texture.Some?;
      c.(entries := c.entries[i := e.(lastFrame := c.frame, attempted := true, texture := texture)],
         builds := c.builds + if texture.Some? then 1 else 0,
         created := if built then c.created[texture.value := e.vertices] else c.created)
    else c.(entries := c.entries[i := e.(lastFrame := c.frame)])
  }

  /** Counts the hit when the touched entry has a texture. */
  function Reported(c: Cache, i: nat): (r: (Cache, Option<nat>))
    requires i < |c.entries|
  {
    if c.entries[i].texture.Some? then (c.(hits := c.hits + 1), Some(i)) else (c, None)
  }

  /** Replaces the least recently used entry, unless this frame already uses it. */
  function Inserted(c: Cache, vertices: seq<Vertex>, bounds: Rect): (r: Cache)
    requires c.entries != []
  {
    var i := Oldest(c.entries);
    var e := c.entries[i];
    if e.lastFrame == c.frame then c
    else
      c.(entries := c.entries[i := Entry(None, vertices, bounds, c.frame, false)],
         destroyed := if e.texture.Some? then c.destroyed + {e.texture.value} else c.destroyed)
  }

  /** `made` is what rasterising these vertices would give, should it be asked for. */
  function Find(c: Cache, vertices: seq<Vertex>, made: Option<Texture>): (r: (Cache, Option<nat>))
    requires c.entries != []
  {
    var bounds := Bounds(vertices);
    if bounds.None? then (c, None)
    else
      var i := Match(c.entries, vertices);
      if i < |c.entries| then Reported(Touched(c, i, bounds.value, made), i)
      else (Inserted(c, vertices, bounds.value), None)
  }

  function Textures(entries: seq<Entry>): (t: set<Texture>) {
    set e | e in entries && e.texture.Some? :: e.texture.value
  }

  lemma NoTextures(entries: seq<Entry>)
    ensures Textures(entries[..0]) == {}
  {
  }

  lemma TexturesNext(entries: seq<Entry>, i: nat)
    requires i < |entries|
    ensures Textures(entries[..i + 1])
         == Textures(entries[..i]) + if entries[i].texture.Some? then {entries[i].texture.value} else {}
  {
    assert entries[..i + 1] == entries[..i] + [entries[i]];
  }

  function Cleared(c: Cache): (r: Cache) {
    c.(entries := seq(|c.entries|, _ => EMPTY), destroyed := c.destroyed + Textures(c.entries))
  }

  // ---------------------------------------------------------------------
  // The invariant
  // ---------------------------------------------------------------------

  /** Live keys are distinct. */
  predicate UniqueKeys(entries: seq<Entry>) {
    forall i, j :: 0 <= i < j < |entries| && entries[i].vertices != [] ==> entries[i].vertices != entries[j].vertices
  }

  predicate EntryGood(c: Cache, e: Entry) {
    && e.lastFrame <= c.frame
    && (e.vertices != [] ==> Bounds(e.vertices) == Some(e.bounds))
    && (e.texture.Some? ==>
          && e.attempted && e.vertices != []
          && e.texture.value in c.created && e.texture.value !in c.destroyed
          && c.created[e.texture.value] == e.vertices)
  }

  /** A texture belongs to the entry that holds it. */
  predicate OneOwner(entries: seq<Entry>) {
    forall i, j :: 0 <= i < j < |entries| && entries[i].texture.Some? ==> entries[i].texture != entries[j].texture
  }

  predicate Owned(entries: seq<Entry>, t: Texture) {
    exists i :: 0 <= i < |entries| && entries[i].texture == Some(t)
  }

  /** No texture leaks: each is held by an entry or has been destroyed. */
  predicate NoLeak(c: Cache) {
    forall t :: t in c.created ==> t in c.destroyed || Owned(c.entries, t)
  }

  predicate Inv(c: Cache) {
    && |c.entries| == SLOTS
    && (forall i :: 0 <= i < |c.entries| ==> EntryGood(c, c.entries[i]))
    && UniqueKeys(c.entries) && OneOwner(c.entries) && NoLeak(c)
    && (forall t :: t in c.destroyed ==> t in c.created)
    && Held(c.entries) <= PIXEL_BUDGET
  }

  lemma {:induction false} HeldUpdate(entries: seq<Entry>, i: nat, e: Entry)
    requires i < |entries|
    ensures Held(entries[i := e]) == Held(entries) - (if entries[i].texture.Some? then Area(entries[i].bounds) else 0)
                                   + (if e.texture.Some? then Area(e.bounds) else 0)
  {
    hide Area;
    var front := entries[..|entries| - 1];
    if i < |front| {
      assert entries[i := e][..|entries| - 1] == front[i := e];
      HeldUpdate(front, i, e);
    } else {
      assert entries[i := e][..|entries| - 1] == front;
    }
  }

  /** Rasterising hands out a new handle. */
  predicate Fresh(c: Cache, made: Option<Texture>) {
    made.Some? ==> made.value !in c.created
  }

  lemma TouchedKeepsInv(c: Cache, i: nat, vertices: seq<Vertex>, made: Option<Texture>)
    requires Inv(c) && i < |c.entries| && vertices != [] && c.entries[i].vertices == vertices && Fresh(c, made)
    requires Bounds(vertices).Some?
    ensures Inv(Touched(c, i, Bounds(vertices).value, made))
  {
    hide Bounds, Held, Area;
    var r := Touched(c, i, Bounds(vertices).value, made);
    HeldUpdate(c.entries, i, r.entries[i]);
    assert EntryGood(c, c.entries[i]);
    forall k | 0 <= k < |r.entries| ensures EntryGood(r, r.entries[k]) {
      assert EntryGood(c, c.entries[k]);
    }
    forall t | t in r.created ensures t in r.destroyed || Owned(r.entries, t) {
      TouchedOwner(c, i, r, t);
    }
    forall a, b | 0 <= a < b < |r.entries| && r.entries[a].texture.Some?
      ensures r.entries[a].texture != r.entries[b].texture
    {
      assert EntryGood(c, c.entries[a]) && EntryGood(c, c.entries[b]);
    }
  }

  lemma TouchedOwner(c: Cache, i: nat, r: Cache, t: Texture)
    requires Inv(c) && i < |c.entries| && |r.entries| == |c.entries| && t in r.created && r.destroyed == c.destroyed
    requires forall k :: 0 <= k < |c.entries| && k != i ==> r.entries[k] == c.entries[k]
    requires c.entries[i].texture.Some? ==> r.entries[i].texture == c.entries[i].texture
    requires t !in c.created ==> r.entries[i].texture == Some(t)
    ensures t in r.destroyed || Owned(r.entries, t)
  {
    if t in c.created && t !in c.destroyed {
      assert Owned(c.entries, t);
      var k :| 0 <= k < |c.entries| && c.entries[k].texture == Some(t);
      assert r.entries[k].texture == Some(t);
    } else if t !in c.created {
      assert r.entries[i].texture == Some(t);
    }
  }

  /** A new key that no other entry has, without a texture, keeps keys and owners apart. */
  lemma ReplacedStaysUnique(entries: seq<Entry>, i: nat, e: Entry)
    requires i < |entries| && UniqueKeys(entries) && OneOwner(entries) && e.texture.None? && e.vertices != []
    requires forall j :: 0 <= j < |entries| ==> entries[j].vertices != e.vertices
    ensures UniqueKeys(entries[i := e]) && OneOwner(entries[i := e])
  {
  }

  lemma ReplacedGood(c: Cache, r: Cache, i: nat)
    requires Inv(c) && i < |c.entries| == |r.entries| && r.frame == c.frame && r.created == c.created
    requires r.entries == c.entries[i := r.entries[i]] && EntryGood(r, r.entries[i])
    requires r.destroyed ==
      if c.entries[i].texture.Some? then c.destroyed + {c.entries[i].texture.value} else c.destroyed
    ensures forall k :: 0 <= k < |r.entries| ==> EntryGood(r, r.entries[k])
    ensures forall t :: t in r.destroyed ==> t in r.created
  {
    hide Bounds, Held, NoLeak, UniqueKeys;
    assert EntryGood(c, c.entries[i]);
    forall k | 0 <= k < |r.entries| ensures EntryGood(r, r.entries[k]) {
      assert EntryGood(c, c.entries[k]);
    }
  }

  lemma InsertedKeepsInv(c: Cache, vertices: seq<Vertex>)
    requires Inv(c) && Bounds(vertices).Some? && Match(c.entries, vertices) == |c.entries|
    ensures Inv(Inserted(c, vertices, Bounds(vertices).value))
  {
    HasVertices(vertices);
    hide Bounds, Held, Area, UniqueKeys, OneOwner, Match, Oldest;
    var i := Oldest(c.entries);
    var r := Inserted(c, vertices, Bounds(vertices).value);
    if c.entries[i].lastFrame != c.frame {
      HeldUpdate(c.entries, i, r.entries[i]);
      assert EntryGood(c, c.entries[i]);
      HeldAreaPositive(c.entries[i]);
      ReplacedGood(c, r, i);
      ReplacedStaysUnique(c.entries, i, r.entries[i]);
      forall t | t in r.created ensures t in r.destroyed || Owned(r.entries, t) {
        EvictedOwner(c, i, r, t);
      }
    }
  }

  lemma HasVertices(vertices: seq<Vertex>)
    requires Bounds(vertices).Some?
    ensures vertices != []
  {
  }

  lemma HeldAreaPositive(e: Entry)
    requires e.vertices != [] ==> Bounds(e.vertices) == Some(e.bounds)
    ensures e.vertices != [] ==> Area(e.bounds) >= 0
  {
    hide BoxOf;
  }

  lemma EvictedOwner(c: Cache, i: nat, r: Cache, t: Texture)
    requires Inv(c) && i < |c.entries| && |r.entries| == |c.entries| && t in c.created
    requires forall k :: 0 <= k < |c.entries| && k != i ==> r.entries[k] == c.entries[k]
    requires r.destroyed ==
      if c.entries[i].texture.Some? then c.destroyed + {c.entries[i].texture.value} else c.destroyed
    ensures t in r.destroyed || Owned(r.entries, t)
  {
    if t !in c.destroyed {
      assert Owned(c.entries, t);
      var k :| 0 <= k < |c.entries| && c.entries[k].texture == Some(t);
      if k != i { assert r.entries[k].texture == Some(t); }
    }
  }

  lemma FindKeepsInv(c: Cache, vertices: seq<Vertex>, made: Option<Texture>)
    requires Inv(c) && Fresh(c, made)
    ensures Inv(Find(c, vertices, made).0)
  {
    if Bounds(vertices).Some? {
      assert vertices != [];
      hide Bounds, Inv, Touched, Inserted;
      assert |c.entries| == SLOTS by { Slots(c); }
      var i := Match(c.entries, vertices);
      if i < |c.entries| {
        TouchedKeepsInv(c, i, vertices, made);
        HitsKeepInv(Touched(c, i, Bounds(vertices).value, made));
      } else {
        InsertedKeepsInv(c, vertices);
      }
    }
  }

  lemma Slots(c: Cache)
    requires Inv(c)
    ensures |c.entries| == SLOTS
  {
  }

  lemma HitsKeepInv(c: Cache)
    requires Inv(c)
    ensures Inv(c.(hits := c.hits + 1)) && Inv(c.(frame := c.frame + 1))
  {
    hide Bounds, Held;
    forall i | 0 <= i < |c.entries|
      ensures EntryGood(c.(hits := c.hits + 1), c.entries[i]) && EntryGood(c.(frame := c.frame + 1), c.entries[i])
    {
      assert EntryGood(c, c.entries[i]);
    }
    assert NoLeak(c.(hits := c.hits + 1)) && NoLeak(c.(frame := c.frame + 1));
  }

  lemma {:induction false} HeldEmpty(n: nat)
    ensures Held(seq(n, _ => EMPTY)) == 0
  {
    if n > 0 {
      assert seq(n, _ => EMPTY)[..n - 1] == seq(n - 1, _ => EMPTY);
      HeldEmpty(n - 1);
    }
  }

  lemma ClearedKeepsInv(c: Cache)
    requires Inv(c)
    ensures Inv(Cleared(c))
    ensures forall t :: t in c.created ==> t in Cleared(c).destroyed
  {
    hide Bounds, Held;
    var r := Cleared(c);
    HeldEmpty(|c.entries|);
    forall t | t in c.created ensures t in r.destroyed {
      if t !in c.destroyed {
        assert Owned(c.entries, t);
        var i :| 0 <= i < |c.entries| && c.entries[i].texture == Some(t);
        assert c.entries[i] in c.entries;
      }
    }
    forall t | t in r.destroyed ensures t in r.created {
      if t !in c.destroyed {
        var e :| e in c.entries && e.texture == Some(t);
        var i :| 0 <= i < |c.entries| && c.entries[i] == e;
        assert EntryGood(c, c.entries[i]);
      }
    }
    assert forall i :: 0 <= i < |r.entries| ==> EntryGood(r, r.entries[i]);
  }

  // ---------------------------------------------------------------------
  // Runs
  // ---------------------------------------------------------------------

  datatype Op = Lookup(vertices: seq<Vertex>, made: Option<Texture>) | NextFrame | Clear

  predicate Allowed(c: Cache, op: Op) {
    op.Lookup? ==> Fresh(c, op.made)
  }

  function Step(c: Cache, op: Op): (r: Cache)
    requires c.entries != []
  {
    match op
    case Lookup(vertices, made) => Find(c, vertices, made).0
    case NextFrame => c.(frame := c.frame + 1)
    case Clear => Cleared(c)
  }

  predicate Legal(c: Cache, ops: seq<Op>)
    decreases |ops|
  {
    ops == [] || (c.entries != [] && Allowed(c, ops[0]) && Legal(Step(c, ops[0]), ops[1..]))
  }

  function Run(c: Cache, ops: seq<Op>): (r: Cache)
    requires Legal(c, ops)
    decreases |ops|
  {
    if ops == [] then c else Run(Step(c, ops[0]), ops[1..])
  }

  const START: Cache := Cache([EMPTY, EMPTY, EMPTY, EMPTY, EMPTY, EMPTY, EMPTY, EMPTY], 0, 0, 0, map[], {})

  lemma StartInv()
    ensures Inv(START)
  {
    assert START.entries == seq(SLOTS, _ => EMPTY);
    HeldEmpty(SLOTS);
    hide Held;
    assert forall i :: 0 <= i < SLOTS ==> START.entries[i] == EMPTY;
  }

  lemma {:induction false} RunKeepsInv(c: Cache, ops: seq<Op>)
    requires Inv(c) && Legal(c, ops)
    ensures Inv(Run(c, ops))
    decreases |ops|
  {
    hide Inv, Find, Cleared;
    if ops != [] {
      match ops[0] {
        case Lookup(vertices, made) => FindKeepsInv(c, vertices, made);
        case NextFrame => HitsKeepInv(c);
        case Clear => ClearedKeepsInv(c);
      }
      RunKeepsInv(Step(c, ops[0]), ops[1..]);
    }
  }

  /** Every run from the empty cache keeps keys unique, textures owned once and never leaked, and the pixel budget. */
  lemma ReachableInv(ops: seq<Op>)
    requires Legal(START, ops)
    ensures Inv(Run(START, ops))
  {
    hide Inv, Run, Legal;
    StartInv();
    RunKeepsInv(START, ops);
  }

  /** A hit returns a live texture that was rasterised from exactly the queried vertices. */
  lemma HitIsExact(c: Cache, vertices: seq<Vertex>, made: Option<Texture>)
    requires Inv(c) && Fresh(c, made) && Find(c, vertices, made).1.Some?
    ensures var (r, hit) := Find(c, vertices, made);
            && hit.value < |r.entries| && r.entries[hit.value].texture.Some?
            && r.entries[hit.value].vertices == vertices
            && var t := r.entries[hit.value].texture.value;
               t in r.created && r.created[t] == vertices && t !in r.destroyed
  {
    FindKeepsInv(c, vertices, made);
    var (r, hit) := Find(c, vertices, made);
    hide Bounds, Held;
    assert EntryGood(r, r.entries[hit.value]);
  }

  /** What a lookup leaves of an entry used in this frame: its mesh and its texture. */
  predicate StillThere(c: Cache, r: Cache, i: nat)
    requires i < |c.entries|
  {
    && |r.entries| == |c.entries| && r.frame == c.frame && r.entries[i].vertices == c.entries[i].vertices
    && (c.entries[i].texture.Some? ==> r.entries[i].texture == c.entries[i].texture)
    && r.entries[i].lastFrame == r.frame
  }

  lemma TouchedKeepsEntry(c: Cache, k: nat, bounds: Rect, made: Option<Texture>, i: nat)
    requires i < |c.entries| && k < |c.entries| && c.entries[i].lastFrame == c.frame
    requires c.entries[k].texture.Some? ==> c.entries[k].attempted
    ensures StillThere(c, Touched(c, k, bounds, made), i)
  {
    hide Held, Area;
  }

  lemma InsertedKeepsEntry(c: Cache, vertices: seq<Vertex>, bounds: Rect, i: nat)
    requires i < |c.entries| && c.entries[i].lastFrame == c.frame
    ensures StillThere(c, Inserted(c, vertices, bounds), i)
  {
  }

  /** An entry used in this frame survives any lookup. */
  lemma CurrentFrameNotEvicted(c: Cache, vertices: seq<Vertex>, made: Option<Texture>, i: nat)
    requires Inv(c) && i < |c.entries| && c.entries[i].lastFrame == c.frame
    ensures StillThere(c, Find(c, vertices, made).0, i)
  {
    var k := Match(c.entries, vertices);
    hide Bounds, Held, UniqueKeys, OneOwner, NoLeak, Area, Touched, Inserted;
    if Bounds(vertices).Some? {
      if k < |c.entries| {
        assert EntryGood(c, c.entries[k]);
        TouchedKeepsEntry(c, k, Bounds(vertices).value, made, i);
      } else {
        InsertedKeepsEntry(c, vertices, Bounds(vertices).value, i);
      }
    }
  }

  /** Through a whole frame's lookups, an entry once used keeps its mesh and its texture, which stays alive. */
  lemma {:induction false} FrameKeepsUsed(c: Cache, ops: seq<Op>, i: nat)
    requires Inv(c) && Legal(c, ops) && i < |c.entries| && c.entries[i].lastFrame == c.frame
    requires forall k :: 0 <= k < |ops| ==> ops[k].Lookup?
    ensures var r := Run(c, ops);
            && |r.entries| == |c.entries| && r.entries[i].vertices == c.entries[i].vertices
            && (c.entries[i].texture.Some? ==>
                  r.entries[i].texture == c.entries[i].texture && c.entries[i].texture.value !in r.destroyed)
    decreases |ops|
  {
    if ops == [] {
      hide Bounds, Held, UniqueKeys, OneOwner, NoLeak;
      assert EntryGood(c, c.entries[i]);
    } else {
      hide Inv, Find;
      FindKeepsInv(c, ops[0].vertices, ops[0].made);
      CurrentFrameNotEvicted(c, ops[0].vertices, ops[0].made, i);
      FrameKeepsUsed(Step(c, ops[0]), ops[1..], i);
    }
  }

  // ---------------------------------------------------------------------
  // A key must recur before it costs a texture
  // ---------------------------------------------------------------------

  /** How many frames a stretch of operations ends. */
  function Frames(ops: seq<Op>): (n: nat) {
    if ops == [] then 0 else Frames(ops[..|ops| - 1]) + if ops[|ops| - 1].NextFrame? then 1 else 0
  }

  lemma FramesNext(ops: seq<Op>, op: Op)
    ensures Frames(ops + [op]) == Frames(ops) + if op.NextFrame? then 1 else 0
  {
    assert (ops + [op])[..|ops|] == ops;
  }

  /** Operation `j` looks these vertices up, in frame `frame`, and nothing is cleared after it. */
  predicate LookedUp(past: seq<Op>, j: nat, vertices: seq<Vertex>, frame: nat) {
    && j < |past| && past[j].Lookup? && past[j].vertices == vertices && Frames(past[..j]) == frame
    && forall k :: j < k < |past| ==> !past[k].Clear?
  }

  ghost predicate Remembered(past: seq<Op>, e: Entry) {
    e.vertices != [] ==> exists j :: LookedUp(past, j, e.vertices, e.lastFrame)
  }

  /** Every key in the cache was looked up in the frame of its last use. */
  ghost predicate Remembers(past: seq<Op>, c: Cache) {
    c.frame == Frames(past) && forall i :: 0 <= i < |c.entries| ==> Remembered(past, c.entries[i])
  }

  lemma LookedUpEarlier(past: seq<Op>, op: Op, j: nat, vertices: seq<Vertex>, frame: nat)
    requires LookedUp(past, j, vertices, frame) && !op.Clear?
    ensures LookedUp(past + [op], j, vertices, frame)
  {
    assert (past + [op])[..j] == past[..j];
  }

  lemma RememberedEarlier(past: seq<Op>, op: Op, e: Entry)
    requires Remembered(past, e) && !op.Clear?
    ensures Remembered(past + [op], e)
  {
    hide LookedUp;
    if e.vertices != [] {
      var j :| LookedUp(past, j, e.vertices, e.lastFrame);
      LookedUpEarlier(past, op, j, e.vertices, e.lastFrame);
    }
  }

  lemma RememberedNow(past: seq<Op>, op: Op, e: Entry)
    requires op.Lookup? && op.vertices == e.vertices && Frames(past) == e.lastFrame
    ensures Remembered(past + [op], e)
  {
    assert (past + [op])[..|past|] == past;
    assert LookedUp(past + [op], |past|, e.vertices, e.lastFrame);
  }

  /** What a lookup leaves in a slot: what was there, or the queried vertices used in this frame. */
  lemma FindLeaves(c: Cache, vertices: seq<Vertex>, made: Option<Texture>, i: nat)
    requires i < |c.entries|
    ensures var r := Find(c, vertices, made).0;
            && |r.entries| == |c.entries| && r.frame == c.frame
            && (r.entries[i] == c.entries[i]
                || (r.entries[i].vertices == vertices && r.entries[i].lastFrame == c.frame))
  {
    hide Bounds, Held, Area, Match, Oldest;
  }

  lemma StepRemembers(past: seq<Op>, c: Cache, op: Op)
    requires Remembers(past, c) && c.entries != []
    ensures Remembers(past + [op], Step(c, op)) && Step(c, op).entries != []
  {
    hide Remembered, Frames, Find;
    FramesNext(past, op);
    var r := Step(c, op);
    if op.Lookup? { FindLeaves(c, op.vertices, op.made, 0); }
    forall i | 0 <= i < |r.entries| ensures Remembered(past + [op], r.entries[i]) {
      match op
      case Lookup(vertices, made) =>
        FindLeaves(c, vertices, made, i);
        if r.entries[i] == c.entries[i] { RememberedEarlier(past, op, c.entries[i]); }
        else { RememberedNow(past, op, r.entries[i]); }
      case NextFrame => RememberedEarlier(past, op, c.entries[i]);
      case Clear => EmptyRemembered(past + [op]);
    }
  }

  lemma EmptyRemembered(past: seq<Op>)
    ensures Remembered(past, EMPTY)
  {
  }

  lemma {:induction false} RunRemembers(past: seq<Op>, c: Cache, ops: seq<Op>)
    requires Remembers(past, c) && c.entries != [] && Legal(c, ops)
    ensures Remembers(past + ops, Run(c, ops))
    decreases |ops|
  {
    hide Remembers, Step;
    if ops == [] {
      assert past + ops == past;
    } else {
      StepRemembers(past, c, ops[0]);
      assert past + [ops[0]] + ops[1..] == past + ops;
      RunRemembers(past + [ops[0]], Step(c, ops[0]), ops[1..]);
    }
  }

  /** When a lookup creates a texture, its vertices are in the cache, last used in this frame or the one before. */
  lemma CreatedFromKnown(c: Cache, vertices: seq<Vertex>, made: Option<Texture>)
    requires c.entries != [] && Find(c, vertices, made).0.created != c.created
    ensures vertices != []
    ensures exists i ::
      0 <= i < |c.entries| && c.entries[i].vertices == vertices && c.frame <= c.entries[i].lastFrame + 1
  {
    assert Bounds(vertices).Some?;
    HasVertices(vertices);
    hide Bounds, Held, Area, Match, Oldest;
    var i := Match(c.entries, vertices);
    assert i < |c.entries|;
  }

  lemma {:induction false} RunNext(c: Cache, ops: seq<Op>, op: Op)
    requires Legal(c, ops) && Legal(c, ops + [op])
    ensures Run(c, ops).entries != [] && Run(c, ops + [op]) == Step(Run(c, ops), op)
    decreases |ops|
  {
    hide Step, Allowed;
    assert ops == [] ==> ops + [op] == [op];
    if ops == [] {
      assert [op][1..] == [];
    } else {
      assert (ops + [op])[1..] == ops[1..] + [op];
      RunNext(Step(c, ops[0]), ops[1..], op);
    }
  }

  /** Over every run, a texture is created only at a lookup of vertices that were looked up before, in the same frame or
      in the one before, and not cleared since. */
  lemma KeyRecursBeforeTexture(ops: seq<Op>, op: Op)
    requires Legal(START, ops) && Legal(START, ops + [op])
    requires Run(START, ops + [op]).created != Run(START, ops).created
    ensures op.Lookup?
    ensures exists j: nat, frame: nat :: LookedUp(ops, j, op.vertices, frame) && frame <= Frames(ops) <= frame + 1
  {
    hide Legal, Run, Step, LookedUp, Inv, Remembers, Frames;
    var c := Run(START, ops);
    RunNext(START, ops, op);
    StartRemembered();
    assert [] + ops == ops;
    RunRemembers([], START, ops);
    ReachableInv(ops);
    CreatedOnRecurrence(ops, c, op);
  }

  lemma CreatedOnRecurrence(past: seq<Op>, c: Cache, op: Op)
    requires Inv(c) && Remembers(past, c) && c.entries != [] && Step(c, op).created != c.created
    ensures op.Lookup?
    ensures exists j: nat, frame: nat :: LookedUp(past, j, op.vertices, frame) && frame <= Frames(past) <= frame + 1
  {
    hide Find, LookedUp, Bounds, Held, UniqueKeys, OneOwner, NoLeak, Frames;
    CreatedFromKnown(c, op.vertices, op.made);
    var i :| 0 <= i < |c.entries| && c.entries[i].vertices == op.vertices && c.frame <= c.entries[i].lastFrame + 1;
    assert EntryGood(c, c.entries[i]) && Remembered(past, c.entries[i]);
    var j :| LookedUp(past, j, op.vertices, c.entries[i].lastFrame);
  }

  lemma StartRemembered()
    ensures Remembers([], START)
  {
    assert forall i :: 0 <= i < SLOTS ==> START.entries[i] == EMPTY;
  }

  // ---------------------------------------------------------------------
  // What bounds and lookups are, without their loops
  // ---------------------------------------------------------------------

  function Across(vertices: seq<Vertex>, i: nat, horizontal: bool): (v: real)
    requires AllFinite(vertices) && i < |vertices|
  {
    if horizontal then vertices[i].x.value else vertices[i].y.value
  }

  /** All vertices lie within `size` of `low`, and neither side can be moved in by a whole unit. */
  predicate Spans(vertices: seq<Vertex>, horizontal: bool, low: int, size: int)
    requires AllFinite(vertices)
  {
    && (forall i :: 0 <= i < |vertices| ==>
          low as real <= Across(vertices, i, horizontal) <= (low + size) as real)
    && (exists i :: 0 <= i < |vertices| && Across(vertices, i, horizontal) < (low + 1) as real)
    && (exists i :: 0 <= i < |vertices| && Across(vertices, i, horizontal) > (low + size - 1) as real)
  }

  /** The rectangle that a mesh is cached under. */
  predicate IsBounds(vertices: seq<Vertex>, r: Rect) {
    && 0 < |vertices| <= 4096 && AllFinite(vertices)
    && (forall i :: 0 <= i < |vertices| ==>
          0.0 <= vertices[i].x.value <= 16384.0 && 0.0 <= vertices[i].y.value <= 16384.0)
    && Spans(vertices, true, r.x, r.w) && Spans(vertices, false, r.y, r.h)
    && 100_000 <= r.w * r.h <= 4_194_304
  }

  function Side(b: Box, horizontal: bool, low: bool): (v: real) {
    if horizontal then (if low then b.left else b.right) else (if low then b.top else b.bottom)
  }

  lemma SideNext(vertices: seq<Vertex>, horizontal: bool, low: bool)
    requires |vertices| > 1 && AllFinite(vertices)
    ensures AllFinite(vertices[..|vertices| - 1])
    ensures var last := Across(vertices, |vertices| - 1, horizontal);
            var before := Side(BoxOf(vertices[..|vertices| - 1]), horizontal, low);
            Side(BoxOf(vertices), horizontal, low) == if low then MinOf(before, last) else MaxOf(before, last)
  {
  }

  /** Each side of the box is the coordinate of some vertex. */
  lemma {:induction false} SideTouches(vertices: seq<Vertex>, horizontal: bool, low: bool) returns (i: nat)
    requires vertices != [] && AllFinite(vertices)
    ensures i < |vertices| && Across(vertices, i, horizontal) == Side(BoxOf(vertices), horizontal, low)
  {
    var n := |vertices| - 1;
    if n == 0 {
      i := 0;
    } else {
      SideNext(vertices, horizontal, low);
      i := SideTouches(vertices[..n], horizontal, low);
      if Across(vertices, i, horizontal) != Side(BoxOf(vertices), horizontal, low) { i := n; }
    }
  }

  lemma SidesBound(vertices: seq<Vertex>, horizontal: bool, i: nat)
    requires AllFinite(vertices) && i < |vertices|
    ensures Side(BoxOf(vertices), horizontal, true) <= Across(vertices, i, horizontal)
         <= Side(BoxOf(vertices), horizontal, false)
  {
  }

  lemma CeilIs(x: real, n: int)
    ensures Ceil(x) == n <==> (n - 1) as real < x <= n as real
  {
    assert (-x).Floor as real <= -x < ((-x).Floor + 1) as real;
  }

  /** The rounded sides are the only span of the vertices. */
  lemma SpansExactly(vertices: seq<Vertex>, horizontal: bool, low: int, size: int)
    requires vertices != [] && AllFinite(vertices)
    ensures var from, to := Side(BoxOf(vertices), horizontal, true), Side(BoxOf(vertices), horizontal, false);
            Spans(vertices, horizontal, low, size) <==> low == from.Floor && size == Ceil(to) - from.Floor
  {
    hide BoxOf, Side, Across, Ceil;
    var from, to := Side(BoxOf(vertices), horizontal, true), Side(BoxOf(vertices), horizontal, false);
    var a := SideTouches(vertices, horizontal, true);
    var b := SideTouches(vertices, horizontal, false);
    forall i: nat | i < |vertices| ensures from <= Across(vertices, i, horizontal) <= to {
      SidesBound(vertices, horizontal, i);
    }
    CeilIs(to, low + size);
    CeilIs(to, Ceil(to));
    if low == from.Floor && size == Ceil(to) - from.Floor {
      assert Across(vertices, a, horizontal) < (low + 1) as real;
      assert Across(vertices, b, horizontal) > (low + size - 1) as real;
    }
  }

  lemma WithinScreen(vertices: seq<Vertex>)
    requires vertices != [] && AllFinite(vertices)
    ensures var b := BoxOf(vertices);
            !(b.left < 0.0 || b.top < 0.0 || b.right > MAX_COORDINATE || b.bottom > MAX_COORDINATE)
            <==> forall i :: 0 <= i < |vertices| ==>
                   0.0 <= vertices[i].x.value <= 16384.0 && 0.0 <= vertices[i].y.value <= 16384.0
  {
    var left := SideTouches(vertices, true, true);
    var right := SideTouches(vertices, true, false);
    var top := SideTouches(vertices, false, true);
    var bottom := SideTouches(vertices, false, false);
    hide BoxOf;
  }

  /** A mesh can be cached exactly when it has 1 to 4096 finite vertices on the screen and its rectangle has 100,000 to
      four times 1024 squared pixels; and the rectangle is the smallest one on whole coordinates. */
  lemma BoundsExactly(vertices: seq<Vertex>, r: Rect)
    ensures Bounds(vertices) == Some(r) <==> IsBounds(vertices, r)
  {
    hide BoxOf, Spans, Ceil;
    if vertices != [] && AllFinite(vertices) {
      WithinScreen(vertices);
      SpansExactly(vertices, true, r.x, r.w);
      SpansExactly(vertices, false, r.y, r.h);
    }
  }

  /** The entry that a lookup would rasterise for: of these vertices, used in this frame or the one before, not tried
      yet, and small enough for what is left of the budget. */
  predicate Due(c: Cache, e: Entry, vertices: seq<Vertex>) {
    && e.vertices == vertices && !e.attempted && c.frame <= e.lastFrame + 1
    && e.bounds.w * e.bounds.h + Held(c.entries) <= 16_777_216
  }

  predicate SomeDue(c: Cache, vertices: seq<Vertex>) {
    exists i :: 0 <= i < |c.entries| && Due(c, c.entries[i], vertices)
  }

  predicate HasTextureFor(c: Cache, vertices: seq<Vertex>) {
    exists i :: 0 <= i < |c.entries| && c.entries[i].vertices == vertices && c.entries[i].texture.Some?
  }

  /** The one entry with a key. */
  lemma OnlyMatch(c: Cache, vertices: seq<Vertex>, i: nat)
    requires Inv(c) && vertices != [] && i < |c.entries| && c.entries[i].vertices == vertices
    ensures Match(c.entries, vertices) == i
  {
    hide Bounds, Held;
    var m := Match(c.entries, vertices);
    assert m <= i;
  }

  lemma FindKnown(c: Cache, vertices: seq<Vertex>, made: Option<Texture>, i: nat)
    requires Inv(c) && Fresh(c, made) && Bounds(vertices).Some? && i < |c.entries| && c.entries[i].vertices == vertices
    ensures var (r, hit) := Find(c, vertices, made);
            var due := Due(c, c.entries[i], vertices) && made.Some?;
            && r.created == (if due then c.created[made.value := vertices] else c.created)
            && (hit.Some? <==> due || c.entries[i].texture.Some?)
            && r.hits == c.hits + (if hit.Some? then 1 else 0) && r.builds == c.builds + (if due then 1 else 0)
            && r.entries[i].lastFrame == c.frame
  {
    HasVertices(vertices);
    OnlyMatch(c, vertices, i);
    hide Bounds, Held, Match, UniqueKeys, OneOwner, NoLeak, Inserted, Oldest;
    assert EntryGood(c, c.entries[i]);
  }

  /** Exactly when a lookup creates a texture, and exactly when it hits. */
  lemma LookupExactly(c: Cache, vertices: seq<Vertex>, made: Option<Texture>)
    requires Inv(c) && Fresh(c, made)
    ensures var (r, hit) := Find(c, vertices, made);
            var due := Bounds(vertices).Some? && made.Some? && SomeDue(c, vertices);
            && r.created == (if due then c.created[made.value := vertices] else c.created)
            && (hit.Some? <==> due || (Bounds(vertices).Some? && HasTextureFor(c, vertices)))
            && r.hits == c.hits + (if hit.Some? then 1 else 0) && r.builds == c.builds + (if due then 1 else 0)
  {
    if Bounds(vertices).Some? {
      HasVertices(vertices);
      hide Bounds, Held, Inv, Due;
      Slots(c);
      var m := Match(c.entries, vertices);
      if m < |c.entries| {
        FindKnown(c, vertices, made, m);
        forall i | 0 <= i < |c.entries| && c.entries[i].vertices == vertices
          ensures i == m { OnlyMatch(c, vertices, i); }
        assert forall i :: 0 <= i < |c.entries| && Due(c, c.entries[i], vertices) ==> i == m
          by { DueMatches(c, vertices); }
      } else {
        DueMatches(c, vertices);
      }
    }
  }

  lemma DueMatches(c: Cache, vertices: seq<Vertex>)
    ensures forall i :: 0 <= i < |c.entries| && Due(c, c.entries[i], vertices) ==> c.entries[i].vertices == vertices
  {
  }

  /** A new key replaces the first of the least recently used entries, and its texture with it, unless even that one is
      used in this frame; nothing else changes. */
  lemma InsertExactly(c: Cache, vertices: seq<Vertex>, made: Option<Texture>, i: nat)
    requires Inv(c) && Bounds(vertices).Some? && i < |c.entries|
    requires forall j :: 0 <= j < |c.entries| ==> c.entries[j].vertices != vertices
    requires forall j :: 0 <= j < |c.entries| ==> c.entries[i].lastFrame <= c.entries[j].lastFrame
    requires forall j :: 0 <= j < i ==> c.entries[i].lastFrame < c.entries[j].lastFrame
    ensures var (r, hit) := Find(c, vertices, made);
            && hit == None
            && (c.entries[i].lastFrame == c.frame ==> r == c)
            && (c.entries[i].lastFrame != c.frame ==>
                  && r.entries == c.entries[i := Entry(None, vertices, Bounds(vertices).value, c.frame, false)]
                  && r.destroyed == c.destroyed
                       + (if c.entries[i].texture.Some? then {c.entries[i].texture.value} else {})
                  && r.created == c.created && r.frame == c.frame && r.hits == c.hits && r.builds == c.builds)
  {
    hide Bounds, Held, Inv;
    var m, o := Match(c.entries, vertices), Oldest(c.entries);
    assert m == |c.entries|;
    assert o == i;
  }

  /** End to end: a new mesh that finds a place and is looked up again in the next frame is rasterised and hit then, if
      the budget and the rasteriser allow. */
  lemma SecondFrameHits(c: Cache, vertices: seq<Vertex>, unused: Option<Texture>, made: Texture, i: nat)
    requires Inv(c) && Fresh(c, unused) && Bounds(vertices).Some? && i < |c.entries| && made !in c.created
    requires forall j :: 0 <= j < |c.entries| ==> c.entries[j].vertices != vertices
    requires forall j :: 0 <= j < |c.entries| ==> c.entries[i].lastFrame <= c.entries[j].lastFrame
    requires forall j :: 0 <= j < i ==> c.entries[i].lastFrame < c.entries[j].lastFrame
    requires c.entries[i].lastFrame != c.frame
    requires Area(Bounds(vertices).value) + Held(Find(c, vertices, unused).0.entries) <= 16_777_216
    ensures HitsNewly(Find(c, vertices, unused).0.(frame := c.frame + 1), vertices, made, i)
  {
    InsertExactly(c, vertices, unused, i);
    FindKeepsInv(c, vertices, unused);
    hide Bounds, Held, Match, Find, Inv;
    var first := Find(c, vertices, unused).0;
    HitsKeepInv(first);
    NewlyDue(first.(frame := c.frame + 1), vertices, made, i);
  }

  /** The lookup creates this texture for entry `i` and hits it. */
  predicate HitsNewly(c: Cache, vertices: seq<Vertex>, made: Texture, i: nat) {
    && c.entries != []
    && var (r, hit) := Find(c, vertices, Some(made));
       && hit == Some(i) && i < |r.entries| && r.entries[i].texture == Some(made)
       && made in r.created && r.created[made] == vertices
  }

  lemma NewlyDue(c: Cache, vertices: seq<Vertex>, made: Texture, i: nat)
    requires Inv(c) && Bounds(vertices).Some? && i < |c.entries| && made !in c.created
    requires Due(c, c.entries[i], vertices)
    ensures HitsNewly(c, vertices, made, i)
  {
    HasVertices(vertices);
    OnlyMatch(c, vertices, i);
    hide Bounds, Held, Match, UniqueKeys, OneOwner, NoLeak;
    assert EntryGood(c, c.entries[i]);
  }

  // ---------------------------------------------------------------------
  // The object
  // ---------------------------------------------------------------------

  class Panels {
    const entries: array<Entry>
    var frame: nat
    var hits: nat
    var builds: nat
    ghost var created: map<Texture, seq<Vertex>>
    ghost var destroyed: set<Texture>

    ghost predicate Valid()
      reads this
    {
      entries.Length == SLOTS
    }

    ghost function Value(): (c: Cache)
      requires Valid()
      reads this, entries
      ensures c.entries != []
    {
      Cache(entries[..], frame, hits, builds, created, destroyed)
    }

    constructor ()
      ensures Valid() && fresh(entries) && Value() == START
    {
      entries := new Entry[SLOTS](_ => EMPTY);
      frame := 0;
      hits := 0;
      builds := 0;
      created := map[];
      destroyed := {};
      new;
      assert entries[..] == START.entries;
    }

    method Advance()
      requires Valid()
      modifies this
      ensures Valid() && Value() == Step(old(Value()), NextFrame)
    {
      frame := frame + 1;
    }

    method Clear()
      requires Valid()
      modifies this, entries
      ensures Valid() && Value() == Step(old(Value()), Op.Clear)
    {
      hide Textures;
      ghost var before := entries[..];
      NoTextures(before);
      for i := 0 to entries.Length
        invariant forall k :: 0 <= k < entries.Length ==> entries[k] == if k < i then EMPTY else before[k]
        invariant destroyed == old(destroyed) + Textures(before[..i])
        invariant frame == old(frame) && hits == old(hits) && builds == old(builds) && created == old(created)
      {
        TexturesNext(before, i);
        if entries[i].texture.Some? { destroyed := destroyed + {entries[i].texture.value}; }
        entries[i] := EMPTY;
      }
      assert before[..entries.Length] == before;
      assert entries[..] == seq(SLOTS, _ => EMPTY);
    }

    /** `made` is the texture that rasterising would return, if this lookup rasterises at all. */
    method Lookup(vertices: seq<Vertex>, made: Option<Texture>) returns (hit: Option<nat>)
      requires Valid()
      modifies this, entries
      ensures Valid() && (Value(), hit) == Find(old(Value()), vertices, made)
    {
      hide Bounds, Held, Area;
      var bounds := ComputeBounds(vertices);
      if bounds.None? {
        return None;
      }
      var i := FindVertices(entries[..], vertices);
      if i < entries.Length {
        Touch(i, bounds.value, made);
        if entries[i].texture.Some? {
          hits := hits + 1;
          return Some(i);
        }
        return None;
      }
      Insert(vertices, bounds.value);
      return None;
    }

    method Touch(i: nat, bounds: Rect, made: Option<Texture>)
      requires Valid() && i < entries.Length
      modifies this, entries
      ensures Valid() && Value() == Touched(old(Value()), i, bounds, made)
    {
      hide Held, Area;
      var e := entries[i];
      var consecutive := e.lastFrame + 1 >= frame;
      if !e.attempted && consecutive {
        var held := HeldPixels(entries[..]);
        var texture := e.texture;
        if Area(bounds) + held <= PIXEL_BUDGET {
          texture := made;
        }
        if texture.Some? {
          builds := builds + 1;
          if e.texture.None? { created := created[texture.value := e.vertices]; }
        }
        entries[i] := e.(lastFrame := frame, attempted := true, texture := texture);
      } else {
        entries[i] := e.(lastFrame := frame);
      }
    }

    method Insert(vertices: seq<Vertex>, bounds: Rect)
      requires Valid()
      modifies this, entries
      ensures Valid() && Value() == Inserted(old(Value()), vertices, bounds)
    {
      var i := 0;
      for k := 1 to entries.Length
        invariant i < k && i == Oldest(entries[..k])
      {
        assert entries[..k + 1][..k] == entries[..k];
        if entries[k].lastFrame < entries[i].lastFrame {
          i := k;
        }
      }
      assert entries[..entries.Length] == entries[..];
      if entries[i].lastFrame == frame {
        return;
      }
      if entries[i].texture.Some? { destroyed := destroyed + {entries[i].texture.value}; }
      entries[i] := Entry(None, vertices, bounds, frame, false);
    }
  }

  method FindVertices(entries: seq<Entry>, vertices: seq<Vertex>) returns (i: nat)
    ensures i == Match(entries, vertices)
  {
    i := 0;
    while i < |entries| && entries[i].vertices != vertices
      invariant i <= |entries| && forall j :: 0 <= j < i ==> entries[j].vertices != vertices
    {
      i := i + 1;
    }
  }

  method HeldPixels(entries: seq<Entry>) returns (total: int)
    ensures total == Held(entries)
  {
    hide Area;
    total := 0;
    for i := 0 to |entries|
      invariant total == Held(entries[..i])
    {
      assert entries[..i + 1][..i] == entries[..i];
      if entries[i].texture.Some? { total := total + Area(entries[i].bounds); }
    }
    assert entries[..|entries|] == entries;
  }
}
