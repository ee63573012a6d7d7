/** The two bit cursors of the save codec. Each carries, as ghost state, the
    list of fields it has moved over, so that a run of reads or writes is
    specified by one field list instead of by a chain of offsets. */
module BitCursors {
  import opened Basics
  import opened BitPacking

  /** Replacing one byte by its copy with one bit changed replaces that bit of the image. */
  lemma PutBit(s: seq<u8>, i: nat, value: bool)
    requires i < 8 * |s|
    ensures var r := WithBit(s[i / 8], 7 - i % 8, value);
            0 <= r < 256 && BytesBits(s[i / 8 := r]) == BytesBits(s)[i := value]
  {
    hide WithBit, ToBits;
    assert Pow2(8) == 256;
    BitUpdate(s[i / 8], 8, 7 - i % 8, value);
    var r := WithBit(s[i / 8], 7 - i % 8, value);
    var after := BytesBits(s[i / 8 := r]);
    forall j | 0 <= j < 8 * |s| ensures after[j] == BytesBits(s)[i := value][j] {
      if j / 8 == i / 8 {
        assert ToBits(r, 8)[j % 8] == ToBits(s[i / 8], 8)[i % 8 := value][j % 8];
      }
    }
  }

  /** Reading one more bit doubles the value and adds that bit. */
  lemma ReadStep(s: seq<u8>, from: nat, i: nat)
    requires from <= i < 8 * |s|
    ensures FromBits(BytesBits(s)[from..i + 1])
         == 2 * FromBits(BytesBits(s)[from..i]) + Shr(s[i / 8], 7 - i % 8) % 2
  {
    assert BytesBits(s)[i] == (Shr(s[i / 8], 7 - i % 8) % 2 == 1) by { ToBitsAt(s[i / 8], 8, i % 8); }
    hide BytesBits;
    assert BytesBits(s)[from..i + 1][..i - from] == BytesBits(s)[from..i];
  }

  /** One more field read extends the parse of the stretch behind the cursor. */
  lemma ParseStep(all: seq<bool>, ws: seq<nat>, start: nat, from: nat, i: nat)
    requires start <= from <= i <= |all| && from == start + Total(ws)
    ensures Total(ws + [i - from]) == i - start
    ensures Parse(ws + [i - from], all[start..i]) == Parse(ws, all[start..from]) + [FromBits(all[from..i])]
  {
    hide Parse, Total, FromBits;
    ParseAppend(ws, i - from, all[start..i]);
    SplitSlice(all, start, from, i);
  }

  class BitReader {
    const bytes: seq<u8>
    var bit: nat

    ghost const start: nat
    ghost var widths: seq<nat>
    ghost var values: seq<nat>

    ghost predicate Valid()
      reads this
    {
      && bit == start + Total(widths)
      && bit <= 8 * |bytes|
      && values == Parse(widths, BytesBits(bytes)[start..bit])
    }

    lemma Holds()
      requires Valid()
      ensures start + Total(widths) == bit <= 8 * |bytes|
      ensures values == Parse(widths, BytesBits(bytes)[start..bit])
    {
    }

    constructor (bytes: seq<u8>, bit: nat)
      requires bit <= 8 * |bytes|
      ensures Valid() && this.bytes == bytes && this.bit == bit && start == bit
      ensures widths == [] && values == []
    {
      this.bytes := bytes;
      this.bit := bit;
      start := bit;
      widths := [];
      values := [];
    }

    /** Reads the next `count` bits; the 32-bit result holds at most 32 of them. */
    method Read(count: nat) returns (value: u32)
      requires Valid() && count <= 32 && bit + count <= 8 * |bytes|
      modifies this
      ensures Valid() && bit == old(bit) + count
      ensures widths == old(widths) + [count] && values == old(values) + [value]
      ensures value == FromBits(BytesBits(bytes)[old(bit)..bit])
    {
      hide BytesBits, Parse, Total;
      ghost var from := bit;
      var word := 0;
      assert BytesBits(bytes)[from..from] == [];
      for index := 0 to count
        invariant bit == from + index
        invariant widths == old(widths) && values == old(values)
        invariant word == FromBits(BytesBits(bytes)[from..from + index])
      {
        ReadStep(bytes, from, bit);
        word := word * 2 + Shr(bytes[bit / 8], 7 - bit % 8) % 2;
        bit := bit + 1;
      }
      FieldBelow32(BytesBits(bytes)[from..bit]);
      value := word;
      ParseStep(BytesBits(bytes), widths, start, from, bit);
      values := values + [value];
      widths := widths + [count];
    }

    /** Reads a group of `n` fields of one width. */
    method ReadEach(n: nat, width: nat) returns (group: seq<nat>)
      requires Valid() && width <= 32 && bit + n * width <= 8 * |bytes|
      modifies this
      ensures Valid() && bit == old(bit) + n * width
      ensures widths == old(widths) + Repeat(width, n)
      ensures |group| == n && values == old(values) + group
    {
      hide BytesBits, Parse, Total, FromBits;
      group := [];
      for index := 0 to n
        invariant Valid() && bit == old(bit) + index * width
        invariant widths == old(widths) + Repeat(width, index)
        invariant |group| == index && values == old(values) + group
      {
        NextFits(index, n, width);
        var value := Read(width);
        assert Repeat(width, index + 1) == Repeat(width, index) + [width];
        group := group + [value];
      }
    }
  }

  function Repeat(width: nat, n: nat): (ws: seq<nat>)
    ensures |ws| == n
  {
    seq(n, _ => width)
  }

  lemma NextFits(index: nat, n: nat, width: nat)
    requires index < n
    ensures index * width + width == (index + 1) * width <= n * width
  {
    ProductMonotone(index + 1, n, width);
  }

  /** A field of at most 32 bits survives the 32-bit accumulator. */
  lemma {:induction false} FieldBelow32(bits: seq<bool>)
    requires |bits| <= 32
    ensures FromBits(bits) < 0x1_0000_0000
  {
    FromBitsBound(bits);
    Pow2UpTo32(|bits|);
  }

  lemma {:induction false} Pow2UpTo32(n: nat)
    requires n <= 32
    ensures Pow2(n) <= 0x1_0000_0000
    decreases 32 - n
  {
    if n < 32 {
      Pow2UpTo32(n + 1);
    } else {
      assert Pow2(8) == 256;
      assert Pow2(16) == 65536;
      assert Pow2(24) == 16777216;
    }
  }

  /** `origin` with the fields, and then `more`, laid over it from bit `start` on. */
  ghost function Written(origin: seq<bool>, start: nat, ws: seq<nat>, vs: seq<nat>, more: seq<bool>): (bits: seq<bool>)
    requires |ws| == |vs| && start + Total(ws) + |more| <= |origin|
    ensures |bits| == |origin|
  {
    Over(origin, start, Flat(ws, vs) + more)
  }

  lemma WrittenStep(origin: seq<bool>, start: nat, ws: seq<nat>, vs: seq<nat>, field: seq<bool>, index: nat)
    requires |ws| == |vs| && start + Total(ws) + |field| <= |origin| && index < |field|
    ensures Written(origin, start, ws, vs, field[..index])[start + Total(ws) + index := field[index]]
         == Written(origin, start, ws, vs, field[..index + 1])
  {
    hide Flat, Total, Over;
    var n, piece := |Flat(ws, vs)|, Flat(ws, vs) + field;
    assert piece[..n + index] == Flat(ws, vs) + field[..index];
    assert piece[..n + index + 1] == Flat(ws, vs) + field[..index + 1];
    OverNext(origin, start, piece, n + index);
  }

  lemma WrittenField(origin: seq<bool>, start: nat, ws: seq<nat>, vs: seq<nat>, value: nat, count: nat)
    requires |ws| == |vs| && start + Total(ws) + count <= |origin|
    ensures Total(ws + [count]) == Total(ws) + count
    ensures Written(origin, start, ws, vs, ToBits(value, count)[..count])
         == Written(origin, start, ws + [count], vs + [value], [])
  {
    hide Flat, Total, ToBits, Over;
    FlatAppend(ws, vs, count, value);
    TotalAppend(ws, count);
    var field := ToBits(value, count);
    assert field[..count] == field;
    var whole := Flat(ws + [count], vs + [value]);
    assert whole + [] == whole;
  }

  lemma NothingWritten(origin: seq<bool>, start: nat)
    requires start <= |origin|
    ensures Written(origin, start, [], [], []) == origin
  {
    OverNothing(origin, start);
    assert Flat([], []) + [] == [];
  }

  class BitWriter {
    const bytes: array<u8>
    var bit: nat

    ghost const start: nat
    ghost const origin: seq<bool>
    ghost var widths: seq<nat>
    ghost var values: seq<nat>

    /** The image is its original with one stretch replaced by the fields written so far. */
    ghost predicate Valid()
      reads this, bytes
    {
      && |widths| == |values|
      && bit == start + Total(widths)
      && bit <= 8 * bytes.Length == |origin|
      && BytesBits(bytes[..]) == Written(origin, start, widths, values, [])
    }

    lemma Holds()
      requires Valid()
      ensures |widths| == |values| && start + Total(widths) == bit <= 8 * bytes.Length == |origin|
      ensures BytesBits(bytes[..]) == Written(origin, start, widths, values, [])
    {
    }

    constructor (bytes: array<u8>, bit: nat)
      requires bit <= 8 * bytes.Length
      ensures Valid() && this.bytes == bytes && this.bit == bit && start == bit
      ensures widths == [] && values == [] && origin == BytesBits(bytes[..])
    {
      this.bytes := bytes;
      this.bit := bit;
      start := bit;
      origin := BytesBits(bytes[..]);
      widths := [];
      values := [];
      new;
      hide BytesBits;
      NothingWritten(origin, start);
    }

    method Write(value: u32, count: nat)
      requires Valid() && count <= 32 && bit + count <= 8 * bytes.Length
      modifies this, bytes
      ensures Valid() && bit == old(bit) + count
      ensures widths == old(widths) + [count] && values == old(values) + [value]
    {
      hide BytesBits, Flat, Total, ToBits, Written, Shr, SetBit, ClearBit;
      ghost var from := bit;
      for index := 0 to count
        invariant bit == from + index
        invariant widths == old(widths) && values == old(values)
        invariant BytesBits(bytes[..]) == Written(origin, start, widths, values, ToBits(value, count)[..index])
      {
        var shift := count - index - 1;
        ToBitsAt(value, count, index);
        WrittenStep(origin, start, widths, values, ToBits(value, count), index);
        PutBit(bytes[..], bit, ToBits(value, count)[index]);
        ghost var before := bytes[..];
        if Shr(value, shift) % 2 != 0 {
          bytes[bit / 8] := SetBit(bytes[bit / 8], 7 - bit % 8);
        } else {
          bytes[bit / 8] := ClearBit(bytes[bit / 8], 7 - bit % 8);
        }
        assert bytes[..] == before[bit / 8 := bytes[bit / 8]];
        bit := bit + 1;
      }
      WrittenField(origin, start, widths, values, value, count);
      widths := widths + [count];
      values := values + [value];
    }

    /** Writes a group of fields of one width. */
    method WriteEach(group: seq<u32>, width: nat)
      requires Valid() && width <= 32 && bit + |group| * width <= 8 * bytes.Length
      modifies this, bytes
      ensures Valid() && bit == old(bit) + |group| * width
      ensures widths == old(widths) + Repeat(width, |group|) && values == old(values) + group
    {
      for index := 0 to |group|
        invariant Valid() && bit == old(bit) + index * width
        invariant widths == old(widths) + Repeat(width, index)
        invariant values == old(values) + group[..index]
      {
        NextFits(index, |group|, width);
        Write(group[index], width);
        assert Repeat(width, index + 1) == Repeat(width, index) + [width];
        assert group[..index + 1] == group[..index] + [group[index]];
      }
      assert group[..|group|] == group;
    }
  }
}
