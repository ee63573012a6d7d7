/** Substituting published texture indices into a level model. The ids lie inside
    a DEFLATE stored block (sections 3.2.3 and 3.2.4 of RFC 1951), so the rewrite
    must leave the compressed stream around them exactly as it was. */
module TrackModels {
  import opened Basics
  import opened BitPacking
  import opened TrackData

  const STORED_PREFIX_AT: nat := 10
  const TEXTURE_COUNT_AT: nat := 0x18
  const TEXTURE_INFO_SIZE: nat := 8
  const CONTAINER_TAG: nat := 0x09
  const MAX_MODEL_TEXTURES: nat := 255
  const CUSTOM_ID_BASE: nat := 0x7000
  const CUSTOM_ID_COUNT: nat := 255

  function Be32(s: seq<u8>, at: nat): (v: u32)
    requires at + 4 <= |s|
  {
    (s[at] as int) * 0x100_0000 + (s[at + 1] as int) * 0x1_0000 + (s[at + 2] as int) * 0x100 + s[at + 3]
  }

  function Be32Byte(v: u32, k: nat): (b: u8)
    requires k < 4
  {
    if k == 0 then v / 0x100_0000 else if k == 1 then v / 0x1_0000 % 0x100 else if k == 2 then v / 0x100 % 0x100
    else v % 0x100
  }

  function WriteBe32(s: seq<u8>, at: nat, v: u32): (r: seq<u8>)
    requires at + 4 <= |s|
    ensures |r| == |s|
  {
    s[at := Be32Byte(v, 0)][at + 1 := Be32Byte(v, 1)][at + 2 := Be32Byte(v, 2)][at + 3 := Be32Byte(v, 3)]
  }

  lemma Be32OfBytes(s: seq<u8>, at: nat, v: u32)
    requires at + 4 <= |s| && s[at] == Be32Byte(v, 0) && s[at + 1] == Be32Byte(v, 1)
    requires s[at + 2] == Be32Byte(v, 2) && s[at + 3] == Be32Byte(v, 3)
    ensures Be32(s, at) == v
  {
    var h, q := v / 0x100, v / 0x1_0000;
    assert q == h / 0x100 && v / 0x100_0000 == q / 0x100;
  }

  // ---------------------------------------------------------------------
  // Which models can be rewritten
  // ---------------------------------------------------------------------

  function StoredLength(m: seq<u8>): (n: nat)
    requires |m| >= STORED_PREFIX_AT
  {
    (m[6] as int) + (m[7] as int) * 256
  }

  function TextureTable(m: seq<u8>): (at: nat)
    requires |m| >= STORED_PREFIX_AT + 4
  {
    Be32(m, STORED_PREFIX_AT)
  }

  /** The signed 16-bit texture count. */
  function TextureCount(m: seq<u8>): (n: int)
    requires |m| >= STORED_PREFIX_AT + TEXTURE_COUNT_AT + 2
  {
    var v := (m[STORED_PREFIX_AT + TEXTURE_COUNT_AT] as int) * 256 + m[STORED_PREFIX_AT + TEXTURE_COUNT_AT + 1];
    if v >= 0x8000 then v - 0x1_0000 else v
  }

  /** A container whose first block is an honest, non-final stored block. */
  predicate StoredContainer(m: seq<u8>) {
    && |m| >= STORED_PREFIX_AT + TEXTURE_COUNT_AT + 2
    && m[4] == CONTAINER_TAG
    && m[5] % 8 == 0
    && (m[8] as int) + (m[9] as int) * 256 == 0xFFFF - StoredLength(m)
  }

  /** And whose texture table lies inside the stored bytes. */
  predicate Resolvable(m: seq<u8>) {
    && StoredContainer(m)
    && 0 < TextureCount(m) <= MAX_MODEL_TEXTURES
    && TextureTable(m) + TextureCount(m) * TEXTURE_INFO_SIZE <= StoredLength(m)
    && STORED_PREFIX_AT + TextureTable(m) + TextureCount(m) * TEXTURE_INFO_SIZE <= |m|
  }

  /** Where the id of texture `e` is stored. */
  function IdAt(m: seq<u8>, e: nat): (at: nat)
    requires Resolvable(m) && e < TextureCount(m)
    ensures STORED_PREFIX_AT <= at && at + 8 <= STORED_PREFIX_AT + StoredLength(m) && at + 8 <= |m|
  {
    STORED_PREFIX_AT + TextureTable(m) + 8 * e
  }

  function IdOf(m: seq<u8>, e: nat): (v: u32)
    requires Resolvable(m) && e < TextureCount(m)
  {
    Be32(m, IdAt(m, e))
  }

  predicate CustomId(v: u32) {
    CUSTOM_ID_BASE <= v < CUSTOM_ID_BASE + CUSTOM_ID_COUNT
  }

  // ---------------------------------------------------------------------
  // Looking up a track's own texture
  // ---------------------------------------------------------------------

  predicate Matches(added: AddedEntry, id: string, ordinal: nat) {
    added.trackId == id && added.withinTrack == ordinal
  }

  /** The first matching entry's index among `added[i..]`, or -1. */
  function FindTexture(added: seq<AddedEntry>, id: string, ordinal: nat): (index: int)
    ensures index >= 0 ==> exists i :: 0 <= i < |added| && Matches(added[i], id, ordinal) && added[i].index == index
    ensures index == -1 ==> forall i :: 0 <= i < |added| ==> !Matches(added[i], id, ordinal)
    ensures index >= -1
  {
    if added == [] then -1
    else if Matches(added[0], id, ordinal) then added[0].index
    else
      var rest := FindTexture(added[1..], id, ordinal);
      assert forall i :: 1 <= i < |added| ==> added[i] == added[1..][i - 1];
      rest
  }

  function OwnTextureIndex(textures: SectionState, id: string, ordinal: nat): (index: int)
    ensures index >= -1
  {
    if !textures.built || id == "" then -1 else FindTexture(textures.added, id, ordinal)
  }

  method OwnTexture(textures: SectionState, id: string, ordinal: nat) returns (index: int)
    ensures index == OwnTextureIndex(textures, id, ordinal)
  {
    if !textures.built || id == "" {
      return -1;
    }
    for i := 0 to |textures.added|
      invariant FindTexture(textures.added, id, ordinal) == FindTexture(textures.added[i..], id, ordinal)
    {
      if Matches(textures.added[i], id, ordinal) {
        return textures.added[i].index;
      }
      assert textures.added[i..][1..] == textures.added[i + 1..];
    }
    return -1;
  }

  /** What an id becomes: unchanged when it is a retail one, otherwise the index or texture 0. The lookup
      hands the index over as a signed word, so one above its range counts as none. */
  function NewId(textures: SectionState, id: string, v: u32): (r: u32) {
    if !CustomId(v) then v
    else
      var index := OwnTextureIndex(textures, id, v - CUSTOM_ID_BASE);
      if 0 <= index < 0x8000_0000 then index else 0
  }

  // ---------------------------------------------------------------------
  // The rewrite
  // ---------------------------------------------------------------------

  /** Byte `i` belongs to the id word of one of the first `n` textures. */
  predicate InIdWord(m: seq<u8>, n: nat, i: nat)
    requires Resolvable(m) && n <= TextureCount(m)
  {
    IdsFrom(m) <= i < IdsFrom(m) + 8 * n && (i - IdsFrom(m)) % 8 < 4
  }

  function IdsFrom(m: seq<u8>): (at: nat)
    requires Resolvable(m)
  {
    STORED_PREFIX_AT + TextureTable(m)
  }

  /** The model with the first `n` ids substituted. */
  function ResolvedUpTo(m: seq<u8>, textures: SectionState, id: string, n: nat): (r: seq<u8>)
    requires Resolvable(m) && n <= TextureCount(m)
    ensures |r| == |m|
  {
    seq(|m|, i requires 0 <= i < |m| => ResolvedByte(m, textures, id, n, i))
  }

  function ResolvedByte(m: seq<u8>, textures: SectionState, id: string, n: nat, i: nat): (b: u8)
    requires Resolvable(m) && n <= TextureCount(m) && i < |m|
  {
    if InIdWord(m, n, i) then
      var e := (i - IdsFrom(m)) / 8;
      if CustomId(IdOf(m, e)) then Be32Byte(NewId(textures, id, IdOf(m, e)), (i - IdsFrom(m)) % 8) else m[i]
    else m[i]
  }

  function ResolvedModel(m: seq<u8>, textures: SectionState, id: string): (r: seq<u8>)
    ensures |r| == |m|
  {
    if Resolvable(m) then ResolvedUpTo(m, textures, id, TextureCount(m)) else m
  }

  lemma ResolveStep(m: seq<u8>, textures: SectionState, id: string, n: nat)
    requires Resolvable(m) && n < TextureCount(m)
    ensures var before := ResolvedUpTo(m, textures, id, n);
            var v := IdOf(m, n);
            && Be32(before, IdAt(m, n)) == v
            && ResolvedUpTo(m, textures, id, n + 1)
               == if CustomId(v) then WriteBe32(before, IdAt(m, n), NewId(textures, id, v)) else before
  {
    hide Resolvable, NewId, CustomId, Be32Byte;
    var before := ResolvedUpTo(m, textures, id, n);
    var after := ResolvedUpTo(m, textures, id, n + 1);
    var at, v := IdAt(m, n), IdOf(m, n);
    assert before[at] == m[at] && before[at + 1] == m[at + 1];
    forall i | 0 <= i < |m|
      ensures after[i] == if CustomId(v) then WriteBe32(before, at, NewId(textures, id, v))[i] else before[i]
    {
      if at <= i < at + 8 {
        assert (i - IdsFrom(m)) / 8 == n && (i - IdsFrom(m)) % 8 == i - at;
      }
    }
  }

  /** Rewrites the model that ends `blob`, in place; the earlier bytes stay as they are. */
  method ResolveModelTextures(blob: seq<u8>, base: nat, textures: SectionState, id: string) returns (result: seq<u8>)
    requires base <= |blob|
    ensures result == blob[..base] + ResolvedModel(blob[base..], textures, id)
  {
    ghost var m := blob[base..];
    result := blob;
    var size := |blob| - base;
    if size < STORED_PREFIX_AT + TEXTURE_COUNT_AT + 2 || blob[base + 4] != CONTAINER_TAG {
      return;
    }
    var length := (blob[base + 6] as int) + (blob[base + 7] as int) * 256;
    var complement := (blob[base + 8] as int) + (blob[base + 9] as int) * 256;
    if blob[base + 5] % 8 != 0 || complement != 0xFFFF - length {
      return;
    }
    var table := Be32(blob, base + STORED_PREFIX_AT);
    var word := (blob[base + STORED_PREFIX_AT + TEXTURE_COUNT_AT] as int) * 256
      + blob[base + STORED_PREFIX_AT + TEXTURE_COUNT_AT + 1];
    var count := if word >= 0x8000 then word - 0x1_0000 else word;
    if count <= 0 || count > MAX_MODEL_TEXTURES {
      return;
    }
    var span := table + count * TEXTURE_INFO_SIZE;
    if span > length || STORED_PREFIX_AT + span > size {
      return;
    }
    assert Resolvable(m) && TextureCount(m) == count && TextureTable(m) == table;
    result := RewriteIds(blob, base, table, count, textures, id);
  }

  method RewriteIds(blob: seq<u8>, base: nat, table: nat, count: nat, textures: SectionState, id: string)
    returns (result: seq<u8>)
    requires base <= |blob|
    requires Resolvable(blob[base..]) && TextureCount(blob[base..]) == count && TextureTable(blob[base..]) == table
    ensures result == blob[..base] + ResolvedUpTo(blob[base..], textures, id, count)
  {
    hide Resolvable, ResolvedUpTo, NewId, WriteBe32, OwnTextureIndex, TextureTable, TextureCount;
    ghost var m := blob[base..];
    result := blob;
    NothingResolved(m, textures, id);
    assert blob == blob[..base] + m;
    for entry := 0 to count
      invariant result == blob[..base] + ResolvedUpTo(m, textures, id, entry)
    {
      ghost var before := ResolvedUpTo(m, textures, id, entry);
      var at := base + STORED_PREFIX_AT + table + entry * TEXTURE_INFO_SIZE;
      IdAtIs(m, entry);
      assert Be32(result, at) == Be32(before, at - base);
      ResolveStep(m, textures, id, entry);
      var identifier := Be32(result, at);
      if CustomId(identifier) {
        var index := OwnTexture(textures, id, identifier - CUSTOM_ID_BASE);
        var value := if 0 <= index < 0x8000_0000 then index else 0;
        NewIdOfCustom(textures, id, identifier, index);
        WriteAfter(blob[..base], before, at - base, value);
        result := WriteBe32(result, at, value);
      }
    }
  }

  lemma IdAtIs(m: seq<u8>, e: nat)
    requires Resolvable(m) && e < TextureCount(m)
    ensures IdAt(m, e) == STORED_PREFIX_AT + TextureTable(m) + e * TEXTURE_INFO_SIZE
  {
  }

  lemma NewIdOfCustom(textures: SectionState, id: string, v: u32, index: int)
    requires CustomId(v) && index == OwnTextureIndex(textures, id, v - CUSTOM_ID_BASE)
    ensures NewId(textures, id, v) == if 0 <= index < 0x8000_0000 then index else 0
  {
  }

  lemma WriteAfter(front: seq<u8>, s: seq<u8>, at: nat, v: u32)
    requires at + 4 <= |s|
    ensures WriteBe32(front + s, |front| + at, v) == front + WriteBe32(s, at, v)
  {
    hide Be32Byte;
  }

  lemma NothingResolved(m: seq<u8>, textures: SectionState, id: string)
    requires Resolvable(m)
    ensures ResolvedUpTo(m, textures, id, 0) == m
  {
    hide Resolvable;
  }

  // ---------------------------------------------------------------------
  // What the rewrite means
  // ---------------------------------------------------------------------

  lemma Be32Injective(s: seq<u8>, at: nat, v: u32)
    requires at + 4 <= |s| && Be32(s, at) == v
    ensures s[at] == Be32Byte(v, 0) && s[at + 1] == Be32Byte(v, 1)
    ensures s[at + 2] == Be32Byte(v, 2) && s[at + 3] == Be32Byte(v, 3)
  {
    var a: int, b: int, c: int, d: int := s[at], s[at + 1], s[at + 2], s[at + 3];
    assert v / 0x100 == a * 0x1_0000 + b * 0x100 + c;
    assert v / 0x1_0000 == a * 0x100 + b;
    assert v / 0x100_0000 == a;
  }

  lemma WordByte(e: nat, b: nat)
    requires b < 8
    ensures (8 * e + b) / 8 == e && (8 * e + b) % 8 == b
  {
  }

  /** Byte `b` of the id word of texture `e`. */
  lemma ResolvedIdByte(m: seq<u8>, textures: SectionState, id: string, e: nat, b: nat)
    requires Resolvable(m) && e < TextureCount(m) && b < 4
    ensures var v := IdOf(m, e);
            ResolvedModel(m, textures, id)[IdAt(m, e) + b]
            == if CustomId(v) then Be32Byte(NewId(textures, id, v), b) else m[IdAt(m, e) + b]
  {
    hide Resolvable, NewId, Be32Byte, CustomId, Be32, TextureTable, TextureCount;
    WordByte(e, b);
    assert IdAt(m, e) + b - IdsFrom(m) == 8 * e + b;
  }

  /** Every texture of a resolvable model ends up with its own substituted id. */
  lemma ResolvedIds(m: seq<u8>, textures: SectionState, id: string, e: nat)
    requires Resolvable(m) && e < TextureCount(m)
    ensures Be32(ResolvedModel(m, textures, id), IdAt(m, e)) == NewId(textures, id, IdOf(m, e))
  {
    hide Resolvable, ResolvedModel, NewId, Be32Byte, CustomId, IdAt, TextureCount, Be32;
    var at, v := IdAt(m, e), IdOf(m, e);
    ResolvedIdByte(m, textures, id, e, 0);
    ResolvedIdByte(m, textures, id, e, 1);
    ResolvedIdByte(m, textures, id, e, 2);
    ResolvedIdByte(m, textures, id, e, 3);
    if CustomId(v) {
      Be32OfBytes(ResolvedModel(m, textures, id), at, NewId(textures, id, v));
    } else {
      RetailIdUnchanged(textures, id, v);
      Be32Injective(m, at, v);
      Be32OfBytes(ResolvedModel(m, textures, id), at, v);
    }
  }

  lemma RetailIdUnchanged(textures: SectionState, id: string, v: u32)
    requires !CustomId(v)
    ensures NewId(textures, id, v) == v
  {
  }

  /** Byte `i` is part of an id word in the custom range. */
  predicate InCustomId(m: seq<u8>, i: nat)
    requires Resolvable(m)
  {
    InIdWord(m, TextureCount(m), i) && CustomId(IdOf(m, (i - IdsFrom(m)) / 8))
  }

  /** Bytes outside custom id words never change, and those words lie inside the stored data. */
  lemma OnlyCustomIdsChange(m: seq<u8>, textures: SectionState, id: string, i: nat)
    requires i < |m|
    ensures ResolvedModel(m, textures, id)[i] != m[i] ==>
      && Resolvable(m) && InCustomId(m, i) && STORED_PREFIX_AT <= i < STORED_PREFIX_AT + StoredLength(m)
  {
    hide NewId, CustomId, Be32Byte;
  }

  /** One DEFLATE stored block: the final flag, its literal bytes and the stream that follows. */
  datatype StoredBlock = StoredBlock(final: bool, data: seq<u8>, rest: seq<u8>)

  /** Reads the block at byte 5 of the container by section 3.2.4 of RFC 1951. */
  function InflateStored(m: seq<u8>): (b: Option<StoredBlock>) {
    if |m| < 10 || m[5] / 2 % 4 != 0 then None
    else
      var length := StoredLength(m);
      if (m[8] as int) + (m[9] as int) * 256 != 0xFFFF - length || 10 + length > |m| then None
      else Some(StoredBlock(m[5] % 2 == 1, m[10..10 + length], m[10 + length..]))
  }

  /** The rewritten payload inflates to the same block with the same stream behind it, changed in custom ids only. */
  lemma StreamPreserved(m: seq<u8>, textures: SectionState, id: string)
    ensures var r := ResolvedModel(m, textures, id);
            var before, after := InflateStored(m), InflateStored(r);
            && |r| == |m| && (before.None? <==> after.None?)
            && (before.Some? ==>
                  && after.value.final == before.value.final && after.value.rest == before.value.rest
                  && |after.value.data| == |before.value.data|
                  && forall i :: 0 <= i < |before.value.data| && after.value.data[i] != before.value.data[i] ==>
                       Resolvable(m) && InCustomId(m, 10 + i))
  {
    var r := ResolvedModel(m, textures, id);
    hide ResolvedModel, InCustomId, Resolvable;
    forall i | 0 <= i < |m| && r[i] != m[i]
      ensures Resolvable(m) && InCustomId(m, i) && 10 <= i < 10 + StoredLength(m)
    {
      OnlyCustomIdsChange(m, textures, id, i);
    }
    if |m| >= 10 {
      assert StoredLength(r) == StoredLength(m);
      if 10 + StoredLength(m) <= |m| {
        assert r[10 + StoredLength(m)..] == m[10 + StoredLength(m)..];
      }
    }
  }

  /** Which models are rewritten, byte by byte: a container whose first block is stored, not final and with matching
      length words, and whose table of 1 to 255 textures of 8 bytes lies inside the block and the data. */
  lemma ResolvableExactly(m: seq<u8>)
    requires |m| >= 36
    ensures var length, table := (m[6] as int) + 256 * (m[7] as int),
                                 (((m[10] as int) * 256 + m[11]) * 256 + m[12]) * 256 + m[13];
            var count := (m[34] as int) * 256 + m[35];
            Resolvable(m) <==>
              && m[4] == 0x09 && m[5] % 8 == 0 && (m[8] as int) + 256 * (m[9] as int) == 0xFFFF - length
              && 1 <= count <= 255 && table + 8 * count <= length && 10 + table + 8 * count <= |m|
  {
  }

  /** Where the id of texture `e` lies and how it is read. */
  lemma IdExactly(m: seq<u8>, e: nat)
    requires Resolvable(m) && e < TextureCount(m)
    ensures var at := 10 + ((((m[10] as int) * 256 + m[11]) * 256 + m[12]) * 256 + m[13]) + 8 * e;
            at + 4 <= |m| && IdOf(m, e) == (((m[at] as int) * 256 + m[at + 1]) * 256 + m[at + 2]) * 256 + m[at + 3]
    ensures CustomId(IdOf(m, e)) <==> 0x7000 <= IdOf(m, e) < 0x70FF
  {
  }

  lemma ShortModelKept(m: seq<u8>, textures: SectionState, id: string)
    requires |m| < 36
    ensures ResolvedModel(m, textures, id) == m
  {
  }
}
