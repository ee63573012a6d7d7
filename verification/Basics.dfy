/** What the other modules share. */
module Basics {

  datatype Option<+T> = None | Some(value: T)

  /** `s` with `piece` laid over it from index `at` on. */
  function Over<T>(s: seq<T>, at: nat, piece: seq<T>): (r: seq<T>)
    requires at + |piece| <= |s|
    ensures |r| == |s|
  {
    s[..at] + piece + s[at + |piece|..]
  }

  lemma OverAppend<T>(s: seq<T>, at: nat, first: seq<T>, second: seq<T>)
    requires at + |first| + |second| <= |s|
    ensures Over(Over(s, at, first), at + |first|, second) == Over(s, at, first + second)
  {
  }

  lemma OverNothing<T>(s: seq<T>, at: nat)
    requires at <= |s|
    ensures Over(s, at, []) == s
  {
  }

  /** One more element of the piece is one more element of the whole. */
  lemma OverNext<T>(s: seq<T>, at: nat, piece: seq<T>, k: nat)
    requires at + |piece| <= |s| && k < |piece|
    ensures Over(s, at, piece[..k])[at + k := piece[k]] == Over(s, at, piece[..k + 1])
  {
  }

  /** And so is one more element in front. */
  lemma OverPrevious<T>(s: seq<T>, at: nat, piece: seq<T>, k: nat)
    requires at + |piece| <= |s| && k < |piece|
    ensures Over(s, at + k + 1, piece[k + 1..])[at + k := piece[k]] == Over(s, at + k, piece[k..])
  {
    assert piece[k..] == [piece[k]] + piece[k + 1..];
  }

  lemma OverHere<T>(s: seq<T>, at: nat, piece: seq<T>)
    requires at + |piece| <= |s|
    ensures Over(s, at, piece)[at..at + |piece|] == piece
  {
  }

  lemma OverElsewhere<T>(s: seq<T>, at: nat, piece: seq<T>, lo: nat, hi: nat)
    requires at + |piece| <= |s| && lo <= hi <= |s| && (hi <= at || at + |piece| <= lo)
    ensures Over(s, at, piece)[lo..hi] == s[lo..hi]
  {
    var r := Over(s, at, piece);
    assert forall k :: lo <= k < hi ==> r[k] == s[k];
  }

  /** What was laid there before makes no difference under a piece that covers it. */
  lemma OverThrice<T>(s: seq<T>, at: nat, first: seq<T>, skip: nat, second: seq<T>, third: seq<T>)
    requires at + |first| <= |s| && skip + |second| <= |first| == |third|
    ensures Over(Over(Over(s, at, first), at + skip, second), at, third) == Over(s, at, third)
  {
    var r := Over(Over(s, at, first), at + skip, second);
    assert r[..at] == s[..at] && r[at + |third|..] == s[at + |third|..];
  }

  lemma OverAll<T>(s: seq<T>, piece: seq<T>)
    requires |piece| == |s|
    ensures Over(s, 0, piece) == piece
  {
  }

  /** Copies a piece into an array, element by element. */
  method CopyOver<T>(a: array<T>, at: nat, piece: seq<T>)
    requires at + |piece| <= a.Length
    modifies a
    ensures a[..] == Over(old(a[..]), at, piece)
  {
    ghost var before := a[..];
    OverNothing(before, at);
    assert piece[..0] == [];
    hide Over;
    for index := 0 to |piece|
      invariant a[..] == Over(before, at, piece[..index])
    {
      OverNext(before, at, piece, index);
      ghost var now := a[..];
      a[at + index] := piece[index];
      assert a[..] == now[at + index := piece[index]];
    }
    assert piece[..|piece|] == piece;
  }

  lemma SliceOfSlice<T>(s: seq<T>, lo: nat, hi: nat, from: nat, to: nat)
    requires lo <= hi <= |s| && from <= to <= hi - lo
    ensures s[lo..hi][from..to] == s[lo + from..lo + to]
  {
    var a, b := s[lo..hi][from..to], s[lo + from..lo + to];
    assert |a| == |b| && forall k :: 0 <= k < |a| ==> a[k] == s[lo..hi][from + k] == s[lo + from + k] == b[k];
  }

  lemma SplitSlice<T>(s: seq<T>, lo: nat, cut: nat, hi: nat)
    requires lo <= cut <= hi <= |s|
    ensures s[lo..hi][..cut - lo] == s[lo..cut] && s[lo..hi][cut - lo..] == s[cut..hi]
  {
    SliceOfSlice(s, lo, hi, 0, cut - lo);
    SliceOfSlice(s, lo, hi, cut - lo, hi - lo);
  }

  lemma UpdateInFront<T>(s: seq<T>, last: T, i: nat, v: T)
    requires i < |s|
    ensures (s + [last])[i := v] == s[i := v] + [last]
  {
  }

  lemma {:induction false} ProductMonotone(a: nat, b: nat, w: nat)
    requires a <= b
    ensures a * w <= b * w
    decreases b
  {
    if a < b {
      ProductMonotone(a, b - 1, w);
      assert b * w == (b - 1) * w + w;
    }
  }
}
