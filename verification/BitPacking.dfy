/** Fixed-width integers, most-significant-bit-first bit strings and the
    width-tagged field lists that the EEPROM codec packs into them. */
module BitPacking {
  import opened Basics

  type u8 = x: int | 0 <= x < 0x100
  type u16 = x: int | 0 <= x < 0x1_0000
  type u32 = x: int | 0 <= x < 0x1_0000_0000
  type u64 = x: int | 0 <= x < 0x1_0000_0000_0000_0000

  function Pow2(n: nat): (p: nat)
    ensures p > 0
  {
    if n == 0 then 1 else 2 * Pow2(n - 1)
  }

  lemma {:induction false} Pow2Add(a: nat, b: nat)
    ensures Pow2(a + b) == Pow2(a) * Pow2(b)
  {
    if b > 0 {
      Pow2Add(a, b - 1);
      assert Pow2(a + b) == 2 * (Pow2(a) * Pow2(b - 1));
    }
  }

  function Digit(b: bool): (d: nat) {
    if b then 1 else 0
  }

  // The powers of two at which the config word is cut, one division each.

  lemma Cut4(x: nat, q: nat)
    requires x < 16
    ensures (x + 16 * q) / 16 == q && (x + 16 * q) % 16 == x
  {
  }

  lemma Cut20(x: nat, q: nat)
    requires x < 0x10_0000
    ensures (x + 0x10_0000 * q) / 0x10_0000 == q && (x + 0x10_0000 * q) % 0x10_0000 == x
  {
  }

  lemma Cut24(x: nat, q: nat)
    requires x < 0x100_0000
    ensures (x + 0x100_0000 * q) / 0x100_0000 == q && (x + 0x100_0000 * q) % 0x100_0000 == x
  {
  }

  lemma Cut25(x: nat, q: nat)
    requires x < 0x200_0000
    ensures (x + 0x200_0000 * q) / 0x200_0000 == q
  {
  }

  lemma Cut26(x: nat, q: nat)
    requires x < 0x400_0000
    ensures (x + 0x400_0000 * q) / 0x400_0000 == q
  {
  }

  lemma DoubleProduct(a: nat, b: nat)
    ensures a * (2 * b) == 2 * (a * b) == (2 * a) * b
  {
  }

  // ---------------------------------------------------------------------
  // Numbers and bit strings
  // ---------------------------------------------------------------------

  /** The number that a bit string spells, most significant bit first. */
  function FromBits(s: seq<bool>): (v: nat) {
    if s == [] then 0 else 2 * FromBits(s[..|s| - 1]) + Digit(s[|s| - 1])
  }

  /** The low `n` bits of `v`, most significant bit first. */
  function ToBits(v: nat, n: nat): (s: seq<bool>)
    ensures |s| == n
  {
    if n == 0 then [] else ToBits(v / 2, n - 1) + [v % 2 == 1]
  }

  lemma {:induction false} FromBitsBound(s: seq<bool>)
    ensures FromBits(s) < Pow2(|s|)
  {
    if s != [] { FromBitsBound(s[..|s| - 1]); }
  }

  /** Taking the last binary digit off. */
  lemma Halves(q: nat, d: nat)
    requires d < 2
    ensures (2 * q + d) / 2 == q && (2 * q + d) % 2 == d
  {
  }

  lemma ToBitsOfDigits(q: nat, d: nat, n: nat)
    requires d < 2 && n > 0
    ensures ToBits(2 * q + d, n) == ToBits(q, n - 1) + [d == 1]
  {
    Halves(q, d);
  }

  lemma FromBitsSnoc(s: seq<bool>, b: bool)
    ensures FromBits(s + [b]) == 2 * FromBits(s) + Digit(b)
  {
    assert (s + [b])[..|s|] == s;
  }

  /** A number below a power of two, without its last digit. */
  lemma HalfBelow(v: nat, n: nat)
    requires n > 0
    ensures v == 2 * (v / 2) + v % 2
    ensures v < Pow2(n) <==> v / 2 < Pow2(n - 1)
  {
  }

  lemma NoBits(v: nat)
    ensures ToBits(v, 0) == [] && FromBits([]) == 0
    ensures v < Pow2(0) ==> v == 0
  {
  }

  lemma {:induction false} ToFromBits(s: seq<bool>)
    ensures ToBits(FromBits(s), |s|) == s
  {
    hide ToBits, FromBits;
    if s == [] {
      NoBits(0);
    } else {
      var front, last := s[..|s| - 1], s[|s| - 1];
      assert s == front + [last];
      ToFromBits(front);
      FromBitsSnoc(front, last);
      ToBitsOfDigits(FromBits(front), Digit(last), |s|);
    }
  }

  lemma {:induction false} FromToBits(v: nat, n: nat)
    requires v < Pow2(n)
    ensures FromBits(ToBits(v, n)) == v
  {
    hide ToBits, FromBits, Pow2;
    if n == 0 {
      NoBits(v);
    } else {
      var q, d := v / 2, v % 2;
      HalfBelow(v, n);
      FromToBits(q, n - 1);
      ToBitsOfDigits(q, d, n);
      FromBitsSnoc(ToBits(q, n - 1), d == 1);
    }
  }

  /** `v >> n`. */
  function Shr(v: nat, n: nat): (r: nat)
    ensures r <= v
  {
    if n == 0 then v else Shr(v / 2, n - 1)
  }

  lemma ShrStep(v: nat, n: nat)
    requires n > 0
    ensures Shr(v, n) == Shr(v / 2, n - 1)
  {
  }

  lemma {:induction false} ToBitsAt(v: nat, n: nat, i: nat)
    requires i < n
    ensures ToBits(v, n)[i] == (Shr(v, n - 1 - i) % 2 == 1)
  {
    if i < n - 1 { ToBitsAt(v / 2, n - 1, i); }
  }

  // ---------------------------------------------------------------------
  // Bytes and bit strings
  // ---------------------------------------------------------------------

  /** The bits of a byte string, in the order in which a bit cursor visits them. */
  function BytesBits(s: seq<u8>): (bits: seq<bool>)
    ensures |bits| == 8 * |s|
  {
    seq(8 * |s|, i requires 0 <= i < 8 * |s| => ToBits(s[i / 8], 8)[i % 8])
  }

  function ByteValue(bits: seq<bool>): (b: u8)
    requires |bits| == 8
  {
    FromBitsBound(bits);
    assert Pow2(8) == 256;
    FromBits(bits)
  }

  function BitsBytes(bits: seq<bool>): (s: seq<u8>)
    requires |bits| % 8 == 0
    ensures |s| == |bits| / 8
  {
    seq(|bits| / 8, k requires 0 <= k < |bits| / 8 => ByteValue(bits[8 * k..8 * k + 8]))
  }

  lemma EighthsOf(k: nat, i: nat)
    ensures (8 * k + i) / 8 == k + i / 8 && (8 * k + i) % 8 == i % 8
  {
  }

  lemma BytesBitAt(s: seq<u8>, k: nat, j: nat)
    requires k < |s| && j < 8
    ensures BytesBits(s)[8 * k + j] == ToBits(s[k], 8)[j]
  {
    hide ToBits;
    EighthsOf(k, j);
  }

  lemma ByteOfBits(s: seq<u8>, k: nat)
    requires k < |s|
    ensures BytesBits(s)[8 * k..8 * k + 8] == ToBits(s[k], 8)
    ensures FromBits(BytesBits(s)[8 * k..8 * k + 8]) == s[k]
  {
    assert Pow2(8) == 256;
    hide ToBits, FromBits, BytesBits, Pow2;
    var w := BytesBits(s)[8 * k..8 * k + 8];
    forall j | 0 <= j < 8 ensures w[j] == ToBits(s[k], 8)[j] {
      BytesBitAt(s, k, j);
    }
    FromToBits(s[k], 8);
  }

  lemma BitsBytesOfBytesBits(s: seq<u8>)
    ensures BitsBytes(BytesBits(s)) == s
  {
    forall k | 0 <= k < |s| ensures BitsBytes(BytesBits(s))[k] == s[k] {
      ByteOfBits(s, k);
    }
  }

  lemma BytesBitsOfBitsBytes(bits: seq<bool>)
    requires |bits| % 8 == 0
    ensures BytesBits(BitsBytes(bits)) == bits
  {
    var s := BitsBytes(bits);
    forall i | 0 <= i < |bits| ensures BytesBits(s)[i] == bits[i] {
      BitOfByte(bits, i / 8, i % 8);
    }
  }

  /** Bit `j` of byte `k`. */
  lemma BitOfByte(bits: seq<bool>, k: nat, j: nat)
    requires |bits| % 8 == 0 && 8 * k < |bits| && j < 8
    ensures k < |BitsBytes(bits)| && ToBits(BitsBytes(bits)[k], 8)[j] == bits[8 * k + j]
  {
    hide ToBits, FromBits;
    ToFromBits(bits[8 * k..8 * k + 8]);
  }

  lemma BytesBitsInjective(a: seq<u8>, b: seq<u8>)
    requires BytesBits(a) == BytesBits(b)
    ensures a == b
  {
    BitsBytesOfBytesBits(a);
    BitsBytesOfBytesBits(b);
  }

  lemma BytesBitsSlice(s: seq<u8>, lo: nat, hi: nat)
    requires lo <= hi <= |s|
    ensures BytesBits(s[lo..hi]) == BytesBits(s)[8 * lo..8 * hi]
  {
    hide BytesBits, ToBits;
    var a, b := BytesBits(s[lo..hi]), BytesBits(s)[8 * lo..8 * hi];
    forall i | 0 <= i < |a| ensures a[i] == b[i] {
      var k, j := i / 8, i % 8;
      assert i == 8 * k + j;
      BytesBitAt(s[lo..hi], k, j);
      BytesBitAt(s, lo + k, j);
      assert b[i] == BytesBits(s)[8 * (lo + k) + j];
    }
  }

  // ---------------------------------------------------------------------
  // Single-bit masks on a byte
  // ---------------------------------------------------------------------

  /** `b | (1 << k)`. */
  function SetBit(b: nat, k: nat): (r: nat) {
    if Shr(b, k) % 2 == 1 then b else b + Pow2(k)
  }

  /** `b & ~(1 << k)`. */
  function ClearBit(b: nat, k: nat): (r: int) {
    if Shr(b, k) % 2 == 1 then b - Pow2(k) else b
  }

  /** `b` with bit `k` set or cleared. */
  function WithBit(b: nat, k: nat, value: bool): (r: int) {
    if value then SetBit(b, k) else ClearBit(b, k)
  }

  /** Above the last digit, an update of bit `k` is an update of bit `k - 1` of the half. */
  lemma BitUpdateHalf(b: nat, k: nat, value: bool)
    requires k > 0
    ensures WithBit(b, k, value) == 2 * WithBit(b / 2, k - 1, value) + b % 2
  {
    assert Shr(b, k) == Shr(b / 2, k - 1);
    hide Shr;
  }

  lemma LastBitUpdate(b: nat, value: bool)
    ensures WithBit(b, 0, value) == 2 * (b / 2) + Digit(value)
  {
  }

  /** The bits of an update above the last digit, from those of the update of the half. */
  lemma BitsAbove(q: nat, r: nat, d: nat, n: nat, k: nat, value: bool)
    requires 0 < k < n && d < 2 && ToBits(r, n - 1) == ToBits(q, n - 1)[n - 1 - k := value]
    ensures ToBits(2 * r + d, n) == ToBits(2 * q + d, n)[n - 1 - k := value]
  {
    ToBitsOfDigits(q, d, n);
    ToBitsOfDigits(r, d, n);
    hide ToBits;
    UpdateInFront(ToBits(q, n - 1), d == 1, n - 1 - k, value);
  }

  lemma BitsAtLast(q: nat, d: nat, n: nat, value: bool)
    requires 0 < n && d < 2
    ensures ToBits(2 * q + Digit(value), n) == ToBits(2 * q + d, n)[n - 1 := value]
  {
    ToBitsOfDigits(q, d, n);
    ToBitsOfDigits(q, Digit(value), n);
    hide ToBits;
  }

  /** Setting or clearing bit `k` of an `n`-bit number changes that bit alone. */
  lemma {:induction false} BitUpdate(b: nat, n: nat, k: nat, value: bool)
    requires k < n && b < Pow2(n)
    ensures 0 <= WithBit(b, k, value) < Pow2(n)
    ensures ToBits(WithBit(b, k, value), n) == ToBits(b, n)[n - 1 - k := value]
  {
    hide WithBit, ToBits, Pow2;
    var q, d := b / 2, b % 2;
    HalfBelow(b, n);
    if k == 0 {
      LastBitUpdate(b, value);
      BitsAtLast(q, d, n, value);
      Halves(q, Digit(value));
    } else {
      BitUpdateHalf(b, k, value);
      BitUpdate(q, n - 1, k - 1, value);
      BitsAbove(q, WithBit(q, k - 1, value), d, n, k, value);
      Halves(WithBit(q, k - 1, value), d);
    }
    HalfBelow(WithBit(b, k, value), n);
  }

  // ---------------------------------------------------------------------
  // Field lists
  // ---------------------------------------------------------------------

  function Total(ws: seq<nat>): (n: nat) {
    if ws == [] then 0 else ws[0] + Total(ws[1..])
  }

  /** The concatenation of each value at its width. */
  function Flat(ws: seq<nat>, vs: seq<nat>): (bits: seq<bool>)
    requires |ws| == |vs|
    ensures |bits| == Total(ws)
  {
    if ws == [] then [] else ToBits(vs[0], ws[0]) + Flat(ws[1..], vs[1..])
  }

  /** The values that a bit string holds at the given widths. */
  function Parse(ws: seq<nat>, bits: seq<bool>): (vs: seq<nat>)
    requires |bits| == Total(ws)
    ensures |vs| == |ws|
  {
    if ws == [] then [] else [FromBits(bits[..ws[0]])] + Parse(ws[1..], bits[ws[0]..])
  }

  predicate Fits(ws: seq<nat>, vs: seq<nat>)
    requires |ws| == |vs|
  {
    forall i :: 0 <= i < |ws| ==> vs[i] < Pow2(ws[i])
  }

  lemma {:induction false} ParseFlat(ws: seq<nat>, vs: seq<nat>)
    requires |ws| == |vs| && Fits(ws, vs)
    ensures Parse(ws, Flat(ws, vs)) == vs
  {
    if ws != [] {
      var bits := Flat(ws, vs);
      assert bits[..ws[0]] == ToBits(vs[0], ws[0]);
      assert bits[ws[0]..] == Flat(ws[1..], vs[1..]);
      FromToBits(vs[0], ws[0]);
      assert Fits(ws[1..], vs[1..]) by {
        forall i | 0 <= i < |ws| - 1 ensures vs[1..][i] < Pow2(ws[1..][i]) {
          assert vs[i + 1] < Pow2(ws[i + 1]);
        }
      }
      ParseFlat(ws[1..], vs[1..]);
    }
  }

  lemma {:induction false} FlatParse(ws: seq<nat>, bits: seq<bool>)
    requires |bits| == Total(ws)
    ensures Flat(ws, Parse(ws, bits)) == bits
    ensures Fits(ws, Parse(ws, bits))
  {
    if ws != [] {
      ToFromBits(bits[..ws[0]]);
      FromBitsBound(bits[..ws[0]]);
      FlatParse(ws[1..], bits[ws[0]..]);
      assert bits == bits[..ws[0]] + bits[ws[0]..];
      var vs := Parse(ws, bits);
      forall i | 0 <= i < |ws| ensures vs[i] < Pow2(ws[i]) {
        if i > 0 { assert vs[i] == vs[1..][i - 1] && ws[i] == ws[1..][i - 1]; }
      }
    }
  }

  lemma {:induction false} TotalAppend(ws: seq<nat>, w: nat)
    ensures Total(ws + [w]) == Total(ws) + w
  {
    if ws == [] {
    } else {
      assert (ws + [w])[1..] == ws[1..] + [w];
      TotalAppend(ws[1..], w);
    }
  }

  lemma {:induction false} FlatAppend(ws: seq<nat>, vs: seq<nat>, w: nat, v: nat)
    requires |ws| == |vs|
    ensures Flat(ws + [w], vs + [v]) == Flat(ws, vs) + ToBits(v, w)
  {
    if ws == [] {
      assert Flat([], []) == [];
      assert (ws + [w])[1..] == [];
    } else {
      assert (ws + [w])[1..] == ws[1..] + [w];
      assert (vs + [v])[1..] == vs[1..] + [v];
      FlatAppend(ws[1..], vs[1..], w, v);
    }
  }

  lemma {:induction false} ParseAppend(ws: seq<nat>, w: nat, bits: seq<bool>)
    requires |bits| == Total(ws) + w
    ensures Total(ws + [w]) == |bits|
    ensures Parse(ws + [w], bits) == Parse(ws, bits[..Total(ws)]) + [FromBits(bits[Total(ws)..])]
  {
    hide FromBits;
    TotalAppend(ws, w);
    if ws == [] {
      assert bits[..0] == [] && bits[..w] == bits == bits[0..];
      assert [w][1..] == [] && ws + [w] == [w];
    } else {
      var t, rest := ws[1..], bits[ws[0]..];
      assert (ws + [w])[1..] == t + [w];
      assert rest[..Total(t)] == bits[..Total(ws)][ws[0]..] && rest[Total(t)..] == bits[Total(ws)..];
      assert bits[..Total(ws)][..ws[0]] == bits[..ws[0]];
      ParseAppend(t, w, rest);
    }
  }
}
