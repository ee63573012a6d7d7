/** Extended asset tables. A retail table `[o0 .. o(n-1), oEnd, -1]` gives sizes by
    difference; custom entries are appended so that all retail arithmetic is untouched. */
module TrackTables {
  import opened Basics
  import opened BitPacking
  import opened TrackData
  import opened TrackModels

  const SANITY_LIMIT: nat := 4096

  // ---------------------------------------------------------------------
  // What the game computes from a table
  // ---------------------------------------------------------------------

  /** The position of the first terminator. */
  function Terminator(table: seq<int>): (n: nat)
    ensures n <= |table|
    ensures forall i :: 0 <= i < n ==> table[i] != -1
    ensures n < |table| ==> table[n] == -1
  {
    if table == [] || table[0] == -1 then 0
    else
      assert forall i :: 1 <= i < |table| ==> table[i] == table[1..][i - 1];
      1 + Terminator(table[1..])
  }

  lemma TerminatorUnique(table: seq<int>, n: nat)
    requires n < |table| && table[n] == -1 && forall i :: 0 <= i < n ==> table[i] != -1
    ensures Terminator(table) == n
  {
  }

  /** The game's own entry count: entries ahead of the terminator, less the end offset. */
  function GameCount(table: seq<int>): (n: int) {
    Terminator(table) - 1
  }

  /** The game's size of entry `i`. */
  function GameSize(table: seq<int>, i: nat): (size: int)
    requires i + 1 < |table|
  {
    table[i + 1] - table[i]
  }

  /** `n` entries, an end offset and the first terminator. */
  predicate RetailTable(table: seq<int>, n: nat) {
    && |table| == n + 2 && n + 1 < SANITY_LIMIT
    && table[n + 1] == -1 && forall i :: 0 <= i <= n ==> table[i] != -1
  }

  /** A signed word read as an unsigned one, and sums of unsigned words. */
  function U32(v: int): (r: u32) {
    v % 0x1_0000_0000
  }

  /** An unsigned word stored as a signed one. */
  function I32(v: u32): (r: int) {
    if v >= 0x8000_0000 then v - 0x1_0000_0000 else v
  }

  /** Offsets are not negative, and the section with the added entries ends below 2^31. */
  predicate InRange(retail: seq<int>, n: nat, owned: seq<Owned>)
    requires RetailTable(retail, n)
  {
    (forall i :: 0 <= i <= n ==> 0 <= retail[i]) && retail[n] + SizeOf(owned) < 0x8000_0000
  }

  // ---------------------------------------------------------------------
  // The extended section
  // ---------------------------------------------------------------------

  /** The bytes served for an entry: models with their texture ids substituted, the rest verbatim. */
  function Assembled(section: Section, owned: Owned, textures: SectionState): (bytes: seq<u8>)
    ensures |bytes| == |owned.entry.bytes|
  {
    if section == LevelModels then ResolvedModel(owned.entry.bytes, textures, owned.id) else owned.entry.bytes
  }

  /** The total size of a run of entries. */
  function SizeOf(owned: seq<Owned>): (n: nat) {
    if owned == [] then 0 else SizeOf(owned[..|owned| - 1]) + |owned[|owned| - 1].entry.bytes|
  }

  function BlobOf(section: Section, owned: seq<Owned>, textures: SectionState): (blob: seq<u8>)
    ensures |blob| == SizeOf(owned)
  {
    if owned == [] then []
    else BlobOf(section, owned[..|owned| - 1], textures) + Assembled(section, owned[|owned| - 1], textures)
  }

  function AddedAt(owned: seq<Owned>, end: u32, count: nat, j: nat): (a: AddedEntry)
    requires j < |owned|
  {
    AddedEntry(owned[j].id, owned[j].entry.slot, U32(end + SizeOf(owned[..j])), |owned[j].entry.bytes|,
               count + j, Within(owned[..j], owned[j].id))
  }

  function AddedOf(owned: seq<Owned>, end: u32, count: nat): (added: seq<AddedEntry>)
    ensures |added| == |owned|
  {
    seq(|owned|, j requires 0 <= j < |owned| => AddedAt(owned, end, count, j))
  }

  /** The offsets after each entry. */
  function EndsOf(owned: seq<Owned>, end: u32): (ends: seq<int>)
    ensures |ends| == |owned|
  {
    seq(|owned|, j requires 0 <= j < |owned| => I32(U32(end + SizeOf(owned[..j + 1]))))
  }

  function SectionOf(section: Section, owned: seq<Owned>, end: u32, count: nat,
                     textures: SectionState): (s: SectionState)
  {
    SectionState(true, end, BlobOf(section, owned, textures), count, AddedOf(owned, end, count))
  }

  function TableOf(retail: seq<int>, n: nat, owned: seq<Owned>): (table: seq<int>)
    requires RetailTable(retail, n)
  {
    if owned == [] then [] else retail[..n + 1] + EndsOf(owned, U32(retail[n])) + [-1]
  }

  /** What the game ends up reading: the extended table, or the retail one when nothing was added. */
  function Published(retail: seq<int>, n: nat, owned: seq<Owned>): (table: seq<int>)
    requires RetailTable(retail, n)
  {
    if owned == [] then retail else TableOf(retail, n, owned)
  }

  /** `payload_for`, returning the bytes that the pointer shows. */
  function PayloadFor(s: SectionState, offset: nat, size: int): (p: Option<seq<u8>>) {
    if !s.built || size <= 0 || offset < s.endOffset || offset - s.endOffset + size > |s.blob| then None
    else Some(s.blob[offset - s.endOffset..offset - s.endOffset + size])
  }

  // ---------------------------------------------------------------------
  // Retail arithmetic is untouched and custom entries are served exactly
  // ---------------------------------------------------------------------

  lemma {:induction false} SizePrefix(owned: seq<Owned>, i: nat, j: nat)
    requires i <= j <= |owned|
    ensures SizeOf(owned[..i]) <= SizeOf(owned[..j])
    decreases j
  {
    if i < j {
      assert owned[..j][..j - 1] == owned[..j - 1];
      SizePrefix(owned, i, j - 1);
    }
  }

  lemma SmallWord(v: int)
    requires 0 <= v < 0x8000_0000
    ensures U32(v) == v && I32(U32(v)) == v
  {
  }

  /** The offset behind added entry `j`. */
  lemma EndsAt(owned: seq<Owned>, end: u32, j: nat)
    requires j < |owned| && end + SizeOf(owned) < 0x8000_0000
    ensures EndsOf(owned, end)[j] == end + SizeOf(owned[..j + 1])
  {
    hide SizeOf, U32, I32;
    SizePrefix(owned, j + 1, |owned|);
    assert owned[..|owned|] == owned;
    SmallWord(end + SizeOf(owned[..j + 1]));
  }

  lemma PublishedShape(retail: seq<int>, n: nat, owned: seq<Owned>, i: nat)
    requires RetailTable(retail, n) && i <= n + |owned|
    ensures |Published(retail, n, owned)| == n + |owned| + 2
    ensures Published(retail, n, owned)[i] == if i <= n then retail[i] else EndsOf(owned, U32(retail[n]))[i - n - 1]
  {
    hide EndsOf, U32;
  }

  lemma PublishedAt(retail: seq<int>, n: nat, owned: seq<Owned>, i: nat)
    requires RetailTable(retail, n) && i <= n + |owned|
    ensures |Published(retail, n, owned)| == n + |owned| + 2
    ensures i <= n ==> Published(retail, n, owned)[i] == retail[i]
    ensures InRange(retail, n, owned) && n <= i ==>
      Published(retail, n, owned)[i] == retail[n] + SizeOf(owned[..i - n]) && 0 <= Published(retail, n, owned)[i]
  {
    hide Published, SizeOf, EndsOf, U32;
    PublishedShape(retail, n, owned, i);
    NothingSized(owned);
    if InRange(retail, n, owned) && n < i {
      SmallWord(retail[n]);
      EndsAt(owned, U32(retail[n]), i - n - 1);
    }
  }

  lemma NothingSized(owned: seq<Owned>)
    ensures SizeOf(owned[..0]) == 0
  {
  }

  /** The game counts exactly the retail entries plus the added ones. */
  lemma PublishedCount(retail: seq<int>, n: nat, owned: seq<Owned>)
    requires RetailTable(retail, n)
    ensures GameCount(retail) == n
    ensures InRange(retail, n, owned) ==> GameCount(Published(retail, n, owned)) == n + |owned|
  {
    TerminatorUnique(retail, n + 1);
    if InRange(retail, n, owned) {
      hide SizeOf, EndsOf, Terminator;
      var table := Published(retail, n, owned);
      PublishedAt(retail, n, owned, 0);
      forall i | 0 <= i <= n + |owned| ensures table[i] != -1 { PublishedAt(retail, n, owned, i); }
      TerminatorUnique(table, n + |owned| + 1);
    }
  }

  /** Every retail entry keeps its offset and its size, the last one included. */
  lemma RetailUntouched(retail: seq<int>, n: nat, owned: seq<Owned>, i: nat)
    requires RetailTable(retail, n) && i < n
    ensures |Published(retail, n, owned)| == n + |owned| + 2
    ensures Published(retail, n, owned)[i] == retail[i]
    ensures GameSize(Published(retail, n, owned), i) == GameSize(retail, i)
  {
    hide Published, InRange;
    PublishedAt(retail, n, owned, i);
    PublishedAt(retail, n, owned, i + 1);
  }

  lemma CustomEntry(retail: seq<int>, n: nat, owned: seq<Owned>, j: nat)
    requires RetailTable(retail, n) && InRange(retail, n, owned) && j < |owned|
    ensures |Published(retail, n, owned)| == n + |owned| + 2
    ensures Published(retail, n, owned)[n + j] == retail[n] + SizeOf(owned[..j]) < 0x8000_0000
    ensures GameSize(Published(retail, n, owned), n + j) == |owned[j].entry.bytes|
  {
    hide Published, RetailTable, SizeOf;
    PublishedAt(retail, n, owned, n + j);
    PublishedAt(retail, n, owned, n + j + 1);
    SizeNext(owned, j);
  }

  lemma SizeNext(owned: seq<Owned>, j: nat)
    requires j < |owned|
    ensures SizeOf(owned[..j + 1]) == SizeOf(owned[..j]) + |owned[j].entry.bytes| <= SizeOf(owned)
  {
    assert owned[..j + 1][..j] == owned[..j];
    SizePrefix(owned, j + 1, |owned|);
    assert owned[..|owned|] == owned;
  }

  lemma {:induction false} BlobSlice(section: Section, owned: seq<Owned>, textures: SectionState, j: nat)
    requires j < |owned|
    ensures SizeOf(owned[..j]) + |owned[j].entry.bytes| <= SizeOf(owned)
    ensures BlobOf(section, owned, textures)[SizeOf(owned[..j])..SizeOf(owned[..j]) + |owned[j].entry.bytes|]
         == Assembled(section, owned[j], textures)
  {
    hide Assembled;
    var front := owned[..|owned| - 1];
    if j < |front| {
      assert front[..j] == owned[..j];
      BlobSlice(section, front, textures, j);
    } else {
      assert owned[..j] == front;
    }
  }

  lemma Verbatim(section: Section, owned: Owned, textures: SectionState)
    requires section != LevelModels
    ensures Assembled(section, owned, textures) == owned.entry.bytes
  {
  }

  /** Any range inside custom entry `j`, counted from the offset that the game computes, is served as that part of the
      entry's assembled bytes. */
  lemma EntryRangeServed(section: Section, retail: seq<int>, n: nat, owned: seq<Owned>, textures: SectionState, j: nat,
                         from: nat, size: nat)
    requires RetailTable(retail, n) && InRange(retail, n, owned) && j < |owned|
    requires size > 0 && from + size <= |owned[j].entry.bytes|
    ensures var table := Published(retail, n, owned);
            var s := SectionOf(section, owned, U32(retail[n]), n, textures);
            && n + j + 1 < |table| && table[n + j] >= 0
            && PayloadFor(s, table[n + j] + from, size)
               == Some(Assembled(section, owned[j], textures)[from..from + size])
    ensures section != LevelModels ==> Assembled(section, owned[j], textures) == owned[j].entry.bytes
  {
    hide Assembled, Published, BlobOf, AddedOf, SizeOf, RetailTable, InRange, U32;
    if section != LevelModels { Verbatim(section, owned[j], textures); }
    CustomEntry(retail, n, owned, j);
    BlobSlice(section, owned, textures, j);
    EndIs(retail, n, owned);
    var blob, at := BlobOf(section, owned, textures), SizeOf(owned[..j]);
    SliceOfSlice(blob, at, at + |owned[j].entry.bytes|, from, from + size);
  }

  lemma EndIs(retail: seq<int>, n: nat, owned: seq<Owned>)
    requires RetailTable(retail, n) && InRange(retail, n, owned)
    ensures U32(retail[n]) == retail[n]
  {
    SmallWord(retail[n]);
  }

  /** Loading custom entry `j` with the offset and size the game computes serves exactly its assembled bytes. */
  lemma CustomEntryServed(section: Section, retail: seq<int>, n: nat, owned: seq<Owned>, textures: SectionState, j: nat)
    requires RetailTable(retail, n) && InRange(retail, n, owned) && j < |owned| && owned[j].entry.bytes != []
    ensures var table := Published(retail, n, owned);
            var s := SectionOf(section, owned, U32(retail[n]), n, textures);
            && n + j + 1 < |table| && table[n + j] >= 0
            && PayloadFor(s, table[n + j], GameSize(table, n + j)) == Some(Assembled(section, owned[j], textures))
    ensures section != LevelModels ==> Assembled(section, owned[j], textures) == owned[j].entry.bytes
  {
    hide Assembled, Published, PayloadFor, SectionOf, SizeOf, RetailTable, InRange, U32;
    if section != LevelModels { Verbatim(section, owned[j], textures); }
    CustomEntry(retail, n, owned, j);
    EntryRangeServed(section, retail, n, owned, textures, j, 0, |owned[j].entry.bytes|);
    var bytes := Assembled(section, owned[j], textures);
    assert bytes[0..|bytes|] == bytes;
  }

  /** A load that runs past its entry does not stop there: it goes on with what the section holds behind it, or is left
      to the ROM when the section ends first. */
  lemma OverrunServed(section: Section, retail: seq<int>, n: nat, owned: seq<Owned>, textures: SectionState, j: nat,
                      size: nat)
    requires RetailTable(retail, n) && InRange(retail, n, owned) && j < |owned| && size > |owned[j].entry.bytes|
    ensures var table := Published(retail, n, owned);
            var s := SectionOf(section, owned, U32(retail[n]), n, textures);
            var next := SizeOf(owned[..j + 1]);
            && n + j + 1 < |table| && table[n + j] >= 0 && next <= |s.blob|
            && var rest := Assembled(section, owned[j], textures) + s.blob[next..];
               PayloadFor(s, table[n + j], size) == if size <= |rest| then Some(rest[..size]) else None
    ensures section != LevelModels ==> Assembled(section, owned[j], textures) == owned[j].entry.bytes
  {
    hide Assembled, Published, BlobOf, AddedOf, RetailTable, InRange, U32;
    if section != LevelModels { Verbatim(section, owned[j], textures); }
    CustomEntry(retail, n, owned, j);
    BlobSlice(section, owned, textures, j);
    EndIs(retail, n, owned);
    SizeNext(owned, j);
    hide SizeOf;
    var next := SizeOf(owned[..j + 1]);
    var blob, at := BlobOf(section, owned, textures), SizeOf(owned[..j]);
    assert blob[at..] == blob[at..next] + blob[next..];
    if size <= |blob| - at { assert blob[at..at + size] == blob[at..][..size]; }
  }

  /** Every offset below the retail end goes to the ROM. */
  lemma RetailOffsetsGoToRom(section: Section, owned: seq<Owned>, end: u32, n: nat, textures: SectionState,
                             offset: nat, size: int)
    requires offset < end
    ensures PayloadFor(SectionOf(section, owned, end, n, textures), offset, size) == None
  {
  }

  /** Conversions between signed and unsigned words keep the value modulo 2^32, and there and back they are the
      identity. */
  lemma WordsConvert(v: int, w: u32)
    ensures U32(v) % 0x1_0000_0000 == v % 0x1_0000_0000
    ensures -0x8000_0000 <= I32(w) < 0x8000_0000 && U32(I32(w)) == w
    ensures -0x8000_0000 <= v < 0x8000_0000 ==> I32(U32(v)) == v
  {
  }
}
