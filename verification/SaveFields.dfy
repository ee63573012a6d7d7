/** Where every field of a save lies, by its position in the bytes, and what is in it: independent of the order in which
    the codec walks over them. */
module SaveFields {
  import opened Basics
  import opened BitPacking
  import opened BitCursors
  import opened SaveNames
  import opened SaveLayout
  import opened SaveTheorems
  import opened SaveImages
  import opened SaveTools

  // ---------------------------------------------------------------------
  // Bit fields of one big number
  // ---------------------------------------------------------------------

  /** The number in `width` bits of the bytes, `from` bits behind the most significant bit of the first byte. */
  function Field(b: seq<u8>, from: nat, width: nat): (v: nat)
    requires from + width <= 8 * |b|
  {
    BeValue(b) / Pow2(8 * |b| - from - width) % Pow2(width)
  }

  lemma SmallMultiple(x: int, d: nat)
    requires 0 < x * d + d && x * d < d
    ensures x == 0
  {
  }

  lemma DivideExact(q: nat, r: nat, d: nat)
    requires r < d
    ensures (q * d + r) / d == q && (q * d + r) % d == r
  {
    var v := q * d + r;
    var k, m := v / d, v % d;
    assert v == d * k + m;
    assert (k - q) * d == r - m by { assert (k - q) * d == k * d - q * d; }
    SmallMultiple(k - q, d);
  }

  lemma {:induction false} FromBitsConcat(a: seq<bool>, b: seq<bool>)
    ensures FromBits(a + b) == FromBits(a) * Pow2(|b|) + FromBits(b)
  {
    hide FromBits, Pow2;
    if b == [] {
      assert a + b == a;
      NoBits(0);
      Pow2Zero();
    } else {
      var front, last := b[..|b| - 1], b[|b| - 1];
      assert a + b == (a + front) + [last] && b == front + [last];
      FromBitsConcat(a, front);
      FromBitsSnoc(a + front, last);
      FromBitsSnoc(front, last);
      Pow2Next(|front|);
      DoubleProduct(FromBits(a), Pow2(|front|));
    }
  }

  lemma Pow2Zero()
    ensures Pow2(0) == 1
  {
  }

  lemma Pow2Next(n: nat)
    ensures Pow2(n + 1) == 2 * Pow2(n)
  {
  }

  lemma BeValueSnoc(s: seq<u8>, b: u8)
    ensures BeValue(s + [b]) == BeValue(s) * 256 + b
  {
    assert (s + [b])[..|s|] == s;
  }

  lemma BytesBitsSnoc(s: seq<u8>, b: u8)
    ensures BytesBits(s + [b]) == BytesBits(s) + ToBits(b, 8)
  {
    hide ToBits, BytesBits;
    var n, whole := |s|, s + [b];
    BytesBitsSlice(whole, 0, n);
    ByteOfBits(whole, n);
    assert whole[0..n] == s && whole[n] == b;
    assert BytesBits(whole) == BytesBits(whole)[8 * 0..8 * n] + BytesBits(whole)[8 * n..8 * n + 8];
  }

  /** The bits of a byte string spell the same number as its bytes. */
  lemma {:induction false} BitsSpellBytes(s: seq<u8>)
    ensures FromBits(BytesBits(s)) == BeValue(s)
  {
    if s == [] {
      assert BytesBits(s) == [];
    } else {
      hide FromBits, BytesBits, ToBits, BeValue, Pow2;
      var front, last := s[..|s| - 1], s[|s| - 1];
      assert s == front + [last];
      BitsSpellBytes(front);
      BeValueSnoc(front, last);
      BytesBitsSnoc(front, last);
      FromBitsConcat(BytesBits(front), ToBits(last, 8));
      Pow2Eight();
      FromToBits(last, 8);
    }
  }

  lemma Pow2Eight()
    ensures Pow2(8) == 256
  {
  }

  lemma SliceValue(bits: seq<bool>, from: nat, width: nat)
    requires from + width <= |bits|
    ensures FromBits(bits[from..from + width]) == FromBits(bits) / Pow2(|bits| - from - width) % Pow2(width)
  {
    hide FromBits, Pow2;
    var a, m, c := bits[..from], bits[from..from + width], bits[from + width..];
    assert bits == (a + m) + c;
    FromBitsConcat(a + m, c);
    FromBitsConcat(a, m);
    FromBitsBound(c);
    FromBitsBound(m);
    DivideExact(FromBits(a + m), FromBits(c), Pow2(|c|));
    DivideExact(FromBits(a), FromBits(m), Pow2(width));
  }

  /** A stretch of a byte string's bits is a field of its number. */
  lemma FieldOfBits(b: seq<u8>, from: nat, width: nat)
    requires from + width <= 8 * |b|
    ensures FromBits(BytesBits(b)[from..from + width]) == Field(b, from, width)
  {
    hide FromBits, Pow2, BytesBits;
    SliceValue(BytesBits(b), from, width);
    BitsSpellBytes(b);
  }

  lemma {:induction false} TotalPrefix(ws: seq<nat>, i: nat)
    requires i < |ws|
    ensures Total(ws[..i + 1]) == Total(ws[..i]) + ws[i] <= Total(ws)
  {
    assert ws[..i + 1] == ws[..i] + [ws[i]];
    TotalAppend(ws[..i], ws[i]);
    assert ws == ws[..i + 1] + ws[i + 1..];
    TotalConcat(ws[..i + 1], ws[i + 1..]);
  }

  lemma ParseHead(ws: seq<nat>, bits: seq<bool>, i: nat)
    requires |bits| == Total(ws) && i < |ws|
    ensures ws[0] <= |bits| && |bits| - ws[0] == Total(ws[1..])
    ensures Parse(ws, bits)[i] == if i == 0 then FromBits(bits[..ws[0]]) else Parse(ws[1..], bits[ws[0]..])[i - 1]
  {
  }

  lemma TotalHead(ws: seq<nat>, i: nat)
    requires 0 < i <= |ws|
    ensures Total(ws[..i]) == ws[0] + Total(ws[1..][..i - 1])
  {
    assert ws[..i][1..] == ws[1..][..i - 1];
  }

  lemma NoWidths(ws: seq<nat>)
    ensures Total(ws[..0]) == 0
  {
  }

  /** The value at position `i` of a parse is the number in its own stretch of bits. */
  lemma {:induction false} ParseAt(ws: seq<nat>, bits: seq<bool>, i: nat)
    requires |bits| == Total(ws) && i < |ws|
    ensures Total(ws[..i]) + ws[i] <= |bits|
    ensures Parse(ws, bits)[i] == FromBits(bits[Total(ws[..i])..Total(ws[..i]) + ws[i]])
  {
    hide Parse, Total, FromBits;
    TotalPrefix(ws, i);
    ParseHead(ws, bits, i);
    if i == 0 {
      NoWidths(ws);
    } else {
      var rest := bits[ws[0]..];
      ParseAt(ws[1..], rest, i - 1);
      TotalHead(ws, i);
      var from := Total(ws[1..][..i - 1]);
      assert bits[ws[0]..|bits|] == rest;
      SliceOfSlice(bits, ws[0], |bits|, from, from + ws[i]);
    }
  }

  // ---------------------------------------------------------------------
  // Names
  // ---------------------------------------------------------------------

  /** The character of a five-bit code. */
  function Character(code: nat): (c: char)
    requires code < 32
  {
    if code < 26 then 'A' + code as char else if code == 26 then '.' else if code == 27 then '?' else ' '
  }

  /** And the code of a character: letters in either case, two marks, and the first space code for everything else. */
  function CharacterCode(c: char): (code: nat)
    ensures code <= 28
  {
    if 'A' <= c <= 'Z' then (c - 'A') as nat
    else if 'a' <= c <= 'z' then (c - 'a') as nat
    else if c == '.' then 26
    else if c == '?' then 27
    else 28
  }

  /** The packed word shows this name: the first letter in bits 10 to 14, the third in bits 0 to 4, and nothing but
      spaces behind the name, which does not end in one. */
  predicate Shows(packed: nat, name: string) {
    var codes := [packed / 1024 % 32, packed / 32 % 32, packed % 32];
    && |name| <= 3 && (name == "" || name[|name| - 1] != ' ')
    && forall i :: 0 <= i < 3 ==> if i < |name| then name[i] == Character(codes[i]) else Character(codes[i]) == ' '
  }

  function NameWord(name: string): (packed: nat) {
    (if |name| > 0 then CharacterCode(name[0]) else 28) * 1024
    + (if |name| > 1 then CharacterCode(name[1]) else 28) * 32
    + (if |name| > 2 then CharacterCode(name[2]) else 28)
  }

  lemma LetterIs(code: nat)
    requires code < 32
    ensures Letter(code) == Character(code)
  {
    assert |ALPHABET| == 32;
    assert forall j :: 0 <= j < 26 ==> ALPHABET[j] == 'A' + j as char;
  }

  lemma DecodedNameShows(packed: u16)
    ensures Shows(packed, DecodedName(packed))
  {
    hide Letter, Trim, Character;
    LetterIs(packed / 1024 % 32);
    LetterIs(packed / 32 % 32);
    LetterIs(packed % 32);
    var name, letters := DecodedName(packed), Letters(packed);
    var codes := [packed / 1024 % 32, packed / 32 % 32, packed % 32];
    assert letters == [Character(codes[0]), Character(codes[1]), Character(codes[2])];
    forall i | 0 <= i < 3
      ensures if i < |name| then name[i] == Character(codes[i]) else Character(codes[i]) == ' '
    {
      assert letters[i] == Character(codes[i]);
      if i < |name| { assert name[i] == letters[i]; }
    }
  }

  lemma CleanCode(c: char)
    ensures Find(Clean(c)) == CharacterCode(c)
    ensures Clean(c) == Character(CharacterCode(c))
  {
    var code := CharacterCode(c);
    if code < 26 {
      assert Clean(c) == (65 + code) as char;
      assert Character(code) == (65 + code) as char;
    } else {
      assert Clean(c) == Character(code);
    }
  }

  lemma EncodedNameIs(name: string)
    ensures EncodedName(name) == NameWord(name)
  {
    hide Find, Clean, CharacterCode;
    if |name| > 0 { CleanCode(name[0]); }
    if |name| > 1 { CleanCode(name[1]); }
    if |name| > 2 { CleanCode(name[2]); }
  }

  /** Cleaning a name keeps its first three characters: letters in upper case, points and question marks as they are,
      and a space for anything else. */
  lemma SanitisedIs(name: string)
    ensures |Sanitised(name)| == if |name| < 3 then |name| else 3
    ensures forall i :: 0 <= i < |Sanitised(name)| ==> Sanitised(name)[i] == Character(CharacterCode(name[i]))
  {
    hide Find, Clean, CharacterCode, Character;
    forall i | 0 <= i < |Sanitised(name)| ensures Sanitised(name)[i] == Character(CharacterCode(name[i])) {
      CleanCode(name[i]);
    }
  }

  // ---------------------------------------------------------------------
  // Adventure slots
  // ---------------------------------------------------------------------

  /** Where each slot field starts, in bits. */
  function OffsetAt(i: nat): (from: nat)
    requires i < 55
    ensures from + WidthAt(i) <= 320
  {
    if i < 34 then 16 + 2 * i else if i == 34 then 84 else if i == 35 then 90 else if i == 36 then 100
    else if i < 43 then 112 + 7 * (i - 37) else if i == 43 then 154 else if i == 44 then 157
    else if i < 51 then 160 + 16 * (i - 45)
    else if i == 51 then 256 else if i == 52 then 264 else if i == 53 then 296 else 312
  }

  lemma {:induction false} OffsetsAdd(i: nat)
    requires i < 55
    ensures Total(SlotWidths()[..i]) + 16 == OffsetAt(i)
  {
    hide SlotWidths, Total;
    if i == 0 {
      NoWidths(SlotWidths());
    } else {
      OffsetsAdd(i - 1);
      TotalPrefix(SlotWidths(), i - 1);
      SlotWidthAt(i - 1);
    }
  }

  /** Every stored value is the field at its own place. */
  lemma StoredValueAt(b: seq<u8>, i: nat)
    requires |b| == SLOT_SIZE && i < 55
    ensures StoredValues(b)[i] == Field(b, OffsetAt(i), WidthAt(i))
  {
    hide SlotWidths, Total, Parse, BytesBits, FromBits, Field, OffsetAt, WidthAt;
    SlotWidthsTotal();
    OffsetsAdd(i);
    SlotWidthAt(i);
    ParseAt(SlotWidths(), BytesBits(b[2..]), i);
    BytesBitsSlice(b, 2, SLOT_SIZE);
    assert b[2..SLOT_SIZE] == b[2..];
    var from, width := Total(SlotWidths()[..i]), WidthAt(i);
    SliceOfSlice(BytesBits(b), 16, 320, from, from + width);
    FieldOfBits(b, OffsetAt(i), width);
  }

  predicate AllSet(b: seq<u8>) {
    forall i :: 0 <= i < |b| ==> b[i] == 0xFF
  }

  /** Every number is 0 and there is no name. */
  predicate IsEmpty(s: AdventureSlot) {
    && (forall i :: 0 <= i < 34 ==> s.courseStatus[i] == 0)
    && s.tajFlags == 0 && s.trophies == 0 && s.bosses == 0
    && (forall i :: 0 <= i < 6 ==> s.balloons[i] == 0)
    && s.ttAmulet == 0 && s.wizpigAmulet == 0
    && (forall i :: 0 <= i < 6 ==> s.worldFlags[i] == 0)
    && s.keys == 0 && s.cutscenes == 0 && s.name == "" && s.reserved == 0
  }

  /** The slot's fields are the ones at these places. */
  predicate HoldsSlot(b: seq<u8>, s: AdventureSlot)
    requires |b| == SLOT_SIZE
  {
    && (forall i :: 0 <= i < 34 ==> s.courseStatus[i] == Field(b, 16 + 2 * i, 2))
    && s.tajFlags == Field(b, 84, 6) && s.trophies == Field(b, 90, 10) && s.bosses == Field(b, 100, 12)
    && (forall i :: 0 <= i < 6 ==> s.balloons[i] == Field(b, 112 + 7 * i, 7))
    && s.ttAmulet == Field(b, 154, 3) && s.wizpigAmulet == Field(b, 157, 3)
    && (forall i :: 0 <= i < 6 ==> s.worldFlags[i] == Field(b, 160 + 16 * i, 16))
    && s.keys == Field(b, 256, 8) && s.cutscenes == Field(b, 264, 32)
    && Shows(Field(b, 296, 16), s.name) && s.reserved == Field(b, 312, 8)
  }

  /** A slot of 0xFF bytes decodes as the empty one, every other slot to the fields at their places. */
  lemma SlotByPosition(b: seq<u8>)
    requires |b| == SLOT_SIZE
    ensures AllSet(b) ==> SlotOfBytes(b).Some? && IsEmpty(SlotOfBytes(b).value)
    ensures !AllSet(b) && SlotOfBytes(b).Some? ==> HoldsSlot(b, SlotOfBytes(b).value)
  {
    if AllSet(b) {
      ErasedIsEmpty(b);
    } else if SlotOfBytes(b).Some? {
      hide IsEmpty, HoldsSlot;
      var vs := StoredValues(b);
      SlotRanges(vs);
      hide StoredValues, SlotShaped, Field, DecodedName, Shows, ValidBlock;
      forall i: nat | i < 55 ensures vs[i] == Field(b, OffsetAt(i), WidthAt(i)) { StoredValueAt(b, i); }
      DecodedNameShows(vs[53]);
      SlotFieldsHeld(b, vs);
    }
  }

  lemma ErasedIsEmpty(b: seq<u8>)
    requires |b| == SLOT_SIZE && AllSet(b)
    ensures SlotOfBytes(b).Some? && IsEmpty(SlotOfBytes(b).value)
  {
    hide StoredValues, SlotOfValues, ValidBlock;
  }

  lemma SlotFieldsHeld(b: seq<u8>, vs: seq<nat>)
    requires |b| == SLOT_SIZE && SlotShaped(vs)
    requires forall i: nat :: i < 55 ==> vs[i] == Field(b, OffsetAt(i), WidthAt(i))
    requires Shows(vs[53], SlotOfValues(vs).name)
    ensures HoldsSlot(b, SlotOfValues(vs))
  {
    SlotRanges(vs);
    hide SlotShaped, Field, DecodedName, Shows;
    var s := SlotOfValues(vs);
    forall i | 0 <= i < 34 ensures s.courseStatus[i] == Field(b, 16 + 2 * i, 2) { assert s.courseStatus[i] == vs[i]; }
    forall i | 0 <= i < 6 ensures s.balloons[i] == Field(b, 112 + 7 * i, 7) { assert s.balloons[i] == vs[37 + i]; }
    forall i | 0 <= i < 6 ensures s.worldFlags[i] == Field(b, 160 + 16 * i, 16)
    { assert s.worldFlags[i] == vs[45 + i]; }
    assert OffsetAt(34) == 84 && OffsetAt(35) == 90 && OffsetAt(36) == 100
      && OffsetAt(43) == 154 && OffsetAt(44) == 157;
    assert OffsetAt(51) == 256 && OffsetAt(52) == 264 && OffsetAt(53) == 296 && OffsetAt(54) == 312;
  }

  /** The bytes carry the slot, clamped and masked, at these places. */
  predicate CarriesSlot(b: seq<u8>, s: AdventureSlot)
    requires |b| == SLOT_SIZE
  {
    && (forall i :: 0 <= i < 34 ==> Field(b, 16 + 2 * i, 2) == if s.courseStatus[i] <= 3 then s.courseStatus[i] else 3)
    && Field(b, 84, 6) == s.tajFlags % 64 && Field(b, 90, 10) == s.trophies % 1024
    && Field(b, 100, 12) == s.bosses % 4096
    && (forall i :: 0 <= i < 6 ==> Field(b, 112 + 7 * i, 7) == if s.balloons[i] <= 127 then s.balloons[i] else 127)
    && Field(b, 154, 3) == (if s.ttAmulet <= 7 then s.ttAmulet else 7)
    && Field(b, 157, 3) == (if s.wizpigAmulet <= 7 then s.wizpigAmulet else 7)
    && (forall i :: 0 <= i < 6 ==> Field(b, 160 + 16 * i, 16) == s.worldFlags[i])
    && Field(b, 256, 8) == s.keys && Field(b, 264, 32) == s.cutscenes
    && Field(b, 296, 16) == NameWord(s.name) && Field(b, 312, 8) == s.reserved
  }

  lemma EncodedSlotByPosition(s: AdventureSlot)
    ensures CarriesSlot(SlotBytes(s), s)
  {
    hide SlotBytes, StoredValues, Field, SlotValues, EncodedName, NameWord;
    var b, vs := SlotBytes(s), SlotValues(s);
    StoredValuesOfSlotBytes(s);
    forall i: nat | i < 55 ensures vs[i] == Field(b, OffsetAt(i), WidthAt(i)) { StoredValueAt(b, i); }
    EncodedNameIs(s.name);
    SlotValuesCarried(b, s);
  }

  lemma SlotValuesCarried(b: seq<u8>, s: AdventureSlot)
    requires |b| == SLOT_SIZE && EncodedName(s.name) == NameWord(s.name)
    requires forall i: nat :: i < 55 ==> SlotValues(s)[i] == Field(b, OffsetAt(i), WidthAt(i))
    ensures CarriesSlot(b, s)
  {
    hide Field, EncodedName, NameWord;
    var vs := SlotValues(s);
    forall i | 0 <= i < 34
      ensures Field(b, 16 + 2 * i, 2) == if s.courseStatus[i] <= 3 then s.courseStatus[i] else 3
    {
      assert vs[i] == Clamped(s.courseStatus, 3)[i];
    }
    forall i | 0 <= i < 6
      ensures Field(b, 112 + 7 * i, 7) == if s.balloons[i] <= 127 then s.balloons[i] else 127
    {
      assert vs[37 + i] == Clamped(s.balloons, 127)[i];
    }
    forall i | 0 <= i < 6 ensures Field(b, 160 + 16 * i, 16) == s.worldFlags[i]
    { assert vs[45 + i] == s.worldFlags[i]; }
    assert OffsetAt(34) == 84 && OffsetAt(35) == 90 && OffsetAt(36) == 100
      && OffsetAt(43) == 154 && OffsetAt(44) == 157;
    assert OffsetAt(51) == 256 && OffsetAt(52) == 264 && OffsetAt(53) == 296 && OffsetAt(54) == 312;
  }

  // ---------------------------------------------------------------------
  // Global settings
  // ---------------------------------------------------------------------

  /** Bit `k` of a number. */
  predicate BitSet(p: nat, k: nat) {
    p / Pow2(k) % 2 == 1
  }

  /** The 56 low bits of the config word. */
  function Payload(b: seq<u8>): (p: nat)
    requires |b| == 8
    ensures p < PAYLOAD_LIMIT
  {
    BeValue(b) % PAYLOAD_LIMIT
  }

  /** The settings are the bits at these places; bit 24 and bits 26 to 55 are kept as they are. */
  predicate HoldsSettings(p: nat, s: GlobalSettings) {
    && (s.adventureTwo <==> p % 2 == 1) && (s.drumstick <==> p / 2 % 2 == 1) && s.language == p / 4 % 4
    && (forall i: nat :: i < 20 ==> (s.ttTrials[i] <==> BitSet(p, 4 + i)))
    && (s.subtitles <==> p / 0x200_0000 % 2 == 1)
    && HoldsPreserved(p, s.preserved)
  }

  predicate HoldsPreserved(p: nat, v: nat) {
    && v < 0x100_0000_0000_0000 && v % 0x100_0000 == 0
    && v / 0x100_0000 % 2 == p / 0x100_0000 % 2 && v / 0x200_0000 % 2 == 0
    && v / 0x400_0000 == p % 0x100_0000_0000_0000 / 0x400_0000
  }

  lemma ProductBelow(r: nat, m: nat, a: nat, b: nat)
    requires r < b && m < a
    ensures a * r + m < a * b
  {
    assert a * (r + 1) <= a * b;
  }

  lemma Reassociate(a: nat, b: nat, q: nat)
    ensures a * (b * q) == q * (a * b)
  {
  }

  lemma Distribute(a: nat, x: nat, y: nat)
    ensures a * (x + y) == a * x + a * y
  {
  }

  lemma DivideTwice(v: nat, a: nat, b: nat)
    requires a > 0 && b > 0
    ensures a * b > 0 && v / a / b == v / (a * b)
  {
    var w, m := v / a, v % a;
    var q, r := w / b, w % b;
    assert v == a * w + m;
    assert w == b * q + r;
    Distribute(a, b * q, r);
    Reassociate(a, b, q);
    ProductBelow(r, m, a, b);
    DivideExact(q, a * r + m, a * b);
  }

  lemma {:induction false} LsbBitsAt(v: nat, n: nat, i: nat)
    requires i < n
    ensures LsbBits(v, n)[i] <==> BitSet(v, i)
  {
    hide Pow2;
    if i == 0 {
      Pow2Zero();
    } else {
      LsbBitsAt(v / 2, n - 1, i - 1);
      Pow2Next(i - 1);
      DivideTwice(v, 2, Pow2(i - 1));
    }
  }

  lemma TrialBits(p: nat, i: nat)
    requires i < 20
    ensures LsbBits(p / 16, 20)[i] <==> BitSet(p, 4 + i)
  {
    LsbBitsAt(p / 16, 20, i);
    Pow2Add(4, i);
    assert Pow2(4) == 16;
    hide Pow2, LsbBits;
    DivideTwice(p, 16, Pow2(i));
  }

  lemma PreservedCut24(x: nat, y: nat)
    requires x < 2
    ensures var v := x * 0x100_0000 + y * 0x400_0000;
            v % 0x100_0000 == 0 && v / 0x100_0000 % 2 == x
  {
    assert x * 0x100_0000 + y * 0x400_0000 == 0 + 0x100_0000 * (x + 4 * y);
    Cut24(0, x + 4 * y);
    Halves(2 * y, x);
  }

  lemma PreservedCut25(x: nat, y: nat)
    requires x < 2
    ensures (x * 0x100_0000 + y * 0x400_0000) / 0x200_0000 % 2 == 0
  {
    assert x * 0x100_0000 + y * 0x400_0000 == x * 0x100_0000 + 0x200_0000 * (2 * y);
    Cut25(x * 0x100_0000, 2 * y);
  }

  lemma PreservedSum(x: nat, y: nat)
    requires x < 2 && y < 0x4000_0000
    ensures var v := x * 0x100_0000 + y * 0x400_0000;
            && v < 0x100_0000_0000_0000 && v % 0x100_0000 == 0 && v / 0x100_0000 % 2 == x && v / 0x200_0000 % 2 == 0
            && v / 0x400_0000 == y
  {
    PreservedCut24(x, y);
    PreservedCut25(x, y);
    Cut26(x * 0x100_0000, y);
  }

  lemma PreservedHeld(p: nat)
    requires p < 0x1_0000_0000_0000_0000
    ensures HoldsPreserved(p, PreservedBits(p))
  {
    var x, y := p / 0x100_0000 % 2, p % 0x100_0000_0000_0000 / 0x400_0000;
    assert y < 0x4000_0000;
    assert PreservedBits(p) == x * 0x100_0000 + y * 0x400_0000;
    hide PreservedBits;
    PreservedSum(x, y);
  }

  lemma SettingsByPosition(b: seq<u8>)
    requires |b| == 8 && SettingsOfBytes(b).Some?
    ensures HoldsSettings(Payload(b), SettingsOfBytes(b).value)
  {
    ConfigWord(b);
    hide BeValue, LsbBits, PreservedBits, BitSet, ValidConfig, HoldsPreserved;
    var p := Payload(b);
    forall i: nat | i < 20 ensures LsbBits(p / 16, 20)[i] <==> BitSet(p, 4 + i) { TrialBits(p, i); }
    PreservedHeld(p);
  }

  /** The payload carries the settings at these places: the language masked, and of the preserved word only the bits
      that are kept. */
  predicate CarriesSettings(p: nat, s: GlobalSettings) {
    && (p % 2 == 1 <==> s.adventureTwo) && (p / 2 % 2 == 1 <==> s.drumstick) && p / 4 % 4 == s.language % 4
    && (forall i: nat :: i < 20 ==> (BitSet(p, 4 + i) <==> s.ttTrials[i]))
    && (p / 0x200_0000 % 2 == 1 <==> s.subtitles)
    && p / 0x100_0000 % 2 == s.preserved / 0x100_0000 % 2
    && p / 0x400_0000 == s.preserved % 0x100_0000_0000_0000 / 0x400_0000
  }

  lemma EncodedSettingsByPosition(s: GlobalSettings)
    ensures CarriesSettings(Payload(ConfigBytes(s)), s)
  {
    hide BitSet, BeValue, ConfigBytes, PayloadOf, SettingsOf, SettingsOfBytes, PreservedBits;
    ConfigRoundTrip(s);
    SettingsByPosition(ConfigBytes(s));
    PreservedHeld(s.preserved);
    SamePreserved(Payload(ConfigBytes(s)), s.preserved, PreservedBits(s.preserved));
  }

  lemma SamePreserved(p: nat, q: nat, v: nat)
    requires p < 0x100_0000_0000_0000 && HoldsPreserved(p, v) && HoldsPreserved(q, v)
    ensures p / 0x100_0000 % 2 == q / 0x100_0000 % 2
    ensures p / 0x400_0000 == q % 0x100_0000_0000_0000 / 0x400_0000
  {
  }

  // ---------------------------------------------------------------------
  // Record blocks
  // ---------------------------------------------------------------------

  predicate HoldsRecords(b: seq<u8>, block: RecordBlock)
    requires |b| == RECORD_BLOCK_SIZE
  {
    && (forall i: nat :: i < 47 ==>
          && block.records[i].time == (b[2 + 4 * i] as int) * 256 + b[3 + 4 * i]
          && Shows((b[4 + 4 * i] as int) * 256 + b[5 + 4 * i], block.records[i].initials))
    && block.tail == [b[190], b[191]]
  }

  lemma RecordsByPosition(b: seq<u8>)
    requires |b| == RECORD_BLOCK_SIZE && RecordsOfBytes(b).Some?
    ensures HoldsRecords(b, RecordsOfBytes(b).value)
  {
    hide DecodedName, Shows, ValidBlock;
    var block := RecordsOfBytes(b).value;
    forall i: nat | i < 47
      ensures block.records[i].time == (b[2 + 4 * i] as int) * 256 + b[3 + 4 * i]
      ensures Shows((b[4 + 4 * i] as int) * 256 + b[5 + 4 * i], block.records[i].initials)
    {
      assert block.records[i] == StoredRecord(b, i);
      DecodedNameShows(StoredInitials(b, i));
    }
  }

  predicate CarriesRecords(b: seq<u8>, block: RecordBlock)
    requires |b| == RECORD_BLOCK_SIZE
  {
    && (forall i: nat :: i < 47 ==>
          && (b[2 + 4 * i] as int) * 256 + b[3 + 4 * i] == block.records[i].time
          && (b[4 + 4 * i] as int) * 256 + b[5 + 4 * i] == NameWord(block.records[i].initials))
    && [b[190], b[191]] == block.tail
  }

  lemma EncodedRecordsByPosition(block: RecordBlock)
    ensures CarriesRecords(RecordBytes(block), block)
  {
    hide RecordBytes, NameWord, EncodedName, RecordPayload;
    var b := RecordBytes(block);
    forall i: nat | i < 47
      ensures (b[2 + 4 * i] as int) * 256 + b[3 + 4 * i] == block.records[i].time
      ensures (b[4 + 4 * i] as int) * 256 + b[5 + 4 * i] == NameWord(block.records[i].initials)
    {
      WrittenRecord(block, i);
      EncodedNameIs(block.records[i].initials);
    }
    RecordTail(block);
    assert b[190..] == [b[190], b[191]];
  }

  // ---------------------------------------------------------------------
  // The image
  // ---------------------------------------------------------------------

  predicate DecodesSlot(b: seq<u8>, s: AdventureSlot)
    requires |b| == SLOT_SIZE
  {
    if AllSet(b) then IsEmpty(s) else HoldsSlot(b, s)
  }

  predicate DecodesImage(bytes: seq<u8>, image: SaveImage)
    requires |bytes| == 512
  {
    && DecodesSlot(bytes[0..40], image.slots[0]) && DecodesSlot(bytes[40..80], image.slots[1])
    && DecodesSlot(bytes[80..120], image.slots[2]) && HoldsSettings(Payload(bytes[120..128]), image.settings)
    && HoldsRecords(bytes[128..320], image.fastestLaps) && HoldsRecords(bytes[320..512], image.courseTimes)
  }

  predicate CarriesImage(bytes: seq<u8>, image: SaveImage)
    requires |bytes| == 512
  {
    && CarriesSlot(bytes[0..40], image.slots[0]) && CarriesSlot(bytes[40..80], image.slots[1])
    && CarriesSlot(bytes[80..120], image.slots[2]) && CarriesSettings(Payload(bytes[120..128]), image.settings)
    && CarriesRecords(bytes[128..320], image.fastestLaps) && CarriesRecords(bytes[320..512], image.courseTimes)
  }

  lemma Regions(bytes: seq<u8>)
    requires |bytes| == 512
    ensures bytes[0..40] == Slot(bytes, 0) && bytes[40..80] == Slot(bytes, 1) && bytes[80..120] == Slot(bytes, 2)
    ensures bytes[120..128] == Config(bytes) && bytes[128..320] == FastestLaps(bytes)
      && bytes[320..512] == CourseTimes(bytes)
  {
  }

  lemma PartsOfImage(bytes: seq<u8>)
    requires ImageOf(bytes).Ok?
    ensures |bytes| == 512
    ensures var image := ImageOf(bytes).value;
            && (forall k :: 0 <= k < 3 ==> SlotOfBytes(Slot(bytes, k)) == Some(image.slots[k]))
            && SettingsOfBytes(Config(bytes)) == Some(image.settings)
            && RecordsOfBytes(FastestLaps(bytes)) == Some(image.fastestLaps)
            && RecordsOfBytes(CourseTimes(bytes)) == Some(image.courseTimes)
  {
    hide SlotOfBytes, SettingsOfBytes, RecordsOfBytes, Slot, Config, FastestLaps, CourseTimes;
  }

  /** Every field of a decoded image, by its place in the 512 bytes; an erased slot is empty. */
  lemma ImageByPosition(bytes: seq<u8>)
    requires ImageOf(bytes).Ok?
    ensures |bytes| == 512 && DecodesImage(bytes, ImageOf(bytes).value)
  {
    hide ImageOf, SlotOfBytes, SettingsOfBytes, RecordsOfBytes, HoldsSlot, HoldsSettings, HoldsRecords, AllSet, IsEmpty,
      Payload, Slot, Config, FastestLaps, CourseTimes;
    PartsOfImage(bytes);
    Regions(bytes);
    SlotByPosition(Slot(bytes, 0));
    SlotByPosition(Slot(bytes, 1));
    SlotByPosition(Slot(bytes, 2));
    SettingsByPosition(Config(bytes));
    RecordsByPosition(FastestLaps(bytes));
    RecordsByPosition(CourseTimes(bytes));
  }

  /** And every field of an encoded image. */
  lemma EncodedImageByPosition(image: SaveImage)
    ensures CarriesImage(BytesOf(image), image)
  {
    hide BytesOf, SlotBytes, ConfigBytes, RecordBytes, CarriesSlot, CarriesSettings, CarriesRecords, Payload, Slot,
      Config, FastestLaps, CourseTimes;
    Regions(BytesOf(image));
    RegionsOfImage(image);
    EncodedSlotByPosition(image.slots[0]);
    EncodedSlotByPosition(image.slots[1]);
    EncodedSlotByPosition(image.slots[2]);
    EncodedSettingsByPosition(image.settings);
    EncodedRecordsByPosition(image.fastestLaps);
    EncodedRecordsByPosition(image.courseTimes);
  }

  predicate SlotRefused(bytes: seq<u8>, k: nat)
    requires |bytes| == IMAGE_SIZE && k < 3
  {
    !SlotAccepted(bytes[40 * k..40 * k + 40])
  }

  lemma SlotRefusedIs(bytes: seq<u8>, k: nat)
    requires |bytes| == IMAGE_SIZE && k < 3
    ensures SlotRefused(bytes, k) <==> SlotOfBytes(Slot(bytes, k)).None?
  {
    hide ValidBlock, Erased, StoredValues, SlotOfValues;
    assert Slot(bytes, k) == bytes[40 * k..40 * k + 40];
  }

  predicate SettingsRefused(bytes: seq<u8>)
    requires |bytes| == IMAGE_SIZE
  {
    !ValidConfig(bytes[120..128])
  }

  predicate RecordsRefused(bytes: seq<u8>)
    requires |bytes| == IMAGE_SIZE
  {
    !ValidBlock(bytes[128..320]) || !ValidBlock(bytes[320..512])
  }

  lemma OthersRefused(bytes: seq<u8>)
    requires |bytes| == IMAGE_SIZE
    ensures SettingsRefused(bytes) <==> SettingsOfBytes(Config(bytes)).None?
    ensures RecordsRefused(bytes)
       <==> RecordsOfBytes(FastestLaps(bytes)).None? || RecordsOfBytes(CourseTimes(bytes)).None?
  {
    hide ValidConfig, ValidBlock, SettingsOf, BeValue, StoredRecord;
    assert bytes[320..512] == bytes[320..];
  }

  /** Which refusal a caller sees: the size, then the first slot that fails, then the settings, then the records. */
  lemma RefusedExactly(bytes: seq<u8>)
    ensures ImageOf(bytes) == Err(WrongSize) <==> |bytes| != 512
    ensures |bytes| == 512 ==>
      var slotsGood := forall j: nat :: j < 3 ==> !SlotRefused(bytes, j);
      && (forall k: nat :: ImageOf(bytes) == Err(SlotChecksum(k))
                           <==> k < 3 && SlotRefused(bytes, k) && forall j: nat :: j < k ==> !SlotRefused(bytes, j))
      && (ImageOf(bytes) == Err(SettingsChecksum) <==> slotsGood && SettingsRefused(bytes))
      && (ImageOf(bytes) == Err(RecordsChecksum) <==> slotsGood && !SettingsRefused(bytes) && RecordsRefused(bytes))
  {
    hide SlotOfBytes, SettingsOfBytes, RecordsOfBytes, SlotRefused, SettingsRefused, RecordsRefused, Slot, Config,
      FastestLaps, CourseTimes;
    if |bytes| == 512 {
      SlotRefusedIs(bytes, 0);
      SlotRefusedIs(bytes, 1);
      SlotRefusedIs(bytes, 2);
      OthersRefused(bytes);
    }
  }

  // ---------------------------------------------------------------------
  // The Save Builder
  // ---------------------------------------------------------------------

  /** Five racing worlds of at most eight balloons each. */
  function RacingWorlds(balloons: seq<u8>): (n: nat)
    requires |balloons| == 6
  {
    balloons[1] as int + balloons[2] as int + balloons[3] as int + balloons[4] as int + balloons[5] as int
  }

  /** `n` is the balloon count that normalising makes of `b`: each world cut to eight, and the total cut to 47 and then
      moved to the nearest number that the worlds allow, zero to seven above their sum. */
  predicate BalloonsOf(b: seq<u8>, n: seq<u8>)
    requires |b| == 6 && |n| == 6
  {
    var worlds, total := RacingWorlds(n), if b[0] <= 47 then b[0] as int else 47;
    && (forall w :: 1 <= w < 6 ==> n[w] == if b[w] <= 8 then b[w] else 8)
    && n[0] == if total < worlds then worlds else if total > worlds + 7 then worlds + 7 else total
  }

  /** What normalising makes of each field of a slot. */
  lemma NormalisedFields(s: AdventureSlot)
    ensures var n := NormalisedSlot(s);
            && (forall i :: 0 <= i < 34 ==>
                  n.courseStatus[i] == if s.courseStatus[i] <= 3 then s.courseStatus[i] else 3)
            && n.tajFlags == s.tajFlags % 64 && n.trophies == s.trophies % 1024 && n.bosses == s.bosses % 4096
            && BalloonsOf(s.balloons, n.balloons)
            && n.ttAmulet == (if s.ttAmulet <= 4 then s.ttAmulet else 4)
            && n.wizpigAmulet == (if s.wizpigAmulet <= 4 then s.wizpigAmulet else 4)
            && n.worldFlags == s.worldFlags && n.keys == s.keys && n.cutscenes == s.cutscenes
            && n.reserved == s.reserved
            && |n.name| == (if |s.name| < 3 then |s.name| else 3)
            && forall i :: 0 <= i < |n.name| ==> n.name[i] == Character(CharacterCode(s.name[i]))
  {
    hide NormalisedBalloons, Sanitised, BalloonsOf, Character, CharacterCode;
    BalloonsFollow(s.balloons);
    SanitisedIs(s.name);
  }

  lemma BalloonsFollow(b: seq<u8>)
    requires |b| == 6
    ensures BalloonsOf(b, NormalisedBalloons(b))
  {
  }

  /** Which slots the editor accepts. */
  lemma EditableExactly(s: AdventureSlot)
    ensures EditableSlot(s) <==>
      && (forall i :: 0 <= i < 34 ==> s.courseStatus[i] <= 3)
      && s.tajFlags < 64 && s.trophies < 1024 && s.bosses < 4096 && s.ttAmulet <= 4 && s.wizpigAmulet <= 4
      && (forall w :: 1 <= w < 6 ==> s.balloons[w] <= 8) && s.balloons[0] <= 47
      && RacingWorlds(s.balloons) <= s.balloons[0] <= RacingWorlds(s.balloons) + 7
  {
  }

  /** For the whole image: each slot by itself, the language cut to 3, and records and the rest of the settings
      untouched. */
  lemma NormalisedImageFields(image: SaveImage)
    ensures var n := NormalisedImage(image);
            && (forall k :: 0 <= k < 3 ==> n.slots[k] == NormalisedSlot(image.slots[k]))
            && n.settings.language == (if image.settings.language <= 3 then image.settings.language else 3)
            && n.settings.(language := 0) == image.settings.(language := 0)
            && n.fastestLaps == image.fastestLaps && n.courseTimes == image.courseTimes
  {
    hide NormalisedSlot;
  }

  lemma EditableImageExactly(image: SaveImage)
    ensures EditableImage(image) <==>
      EditableSlot(image.slots[0]) && EditableSlot(image.slots[1]) && EditableSlot(image.slots[2])
      && image.settings.language < 4
  {
    hide EditableSlot;
  }
}
