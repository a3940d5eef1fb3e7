/**
 * What the headers rely on from std::vector and <algorithm>: the contents of
 * std::vector<T>(n) and std::vector<T>(n, v) (ISO C++ [vector.cons]),
 * vector::resize and vector::clear ([vector.capacity], [vector.modifiers]),
 * and std::fill. The element default T() is passed in explicitly as `dflt`.
 */
module VectorSemantics {

  /** The contents of std::vector<T>(n, v): n copies of v. With v = T() it is
      also std::vector<T>(n), whose n elements are default-inserted. */
  function Repeat<T>(n: nat, v: T): (r: seq<T>)
    ensures |r| == n
    ensures forall i :: 0 <= i < n ==> r[i] == v
  {
    if n == 0 then [] else [v] + Repeat(n - 1, v)
  }

  /** Every element of s equals v. */
  ghost predicate AllEqual<T>(s: seq<T>, v: T) {
    forall i :: 0 <= i < |s| ==> s[i] == v
  }

  /** A sequence is n copies of v exactly when all of its elements are v. */
  lemma {:induction false} RepeatCharacterised<T>(s: seq<T>, v: T)
    ensures AllEqual(s, v) <==> s == Repeat(|s|, v)
  {
    if AllEqual(s, v) {
      var r := Repeat(|s|, v);
      assert forall i :: 0 <= i < |s| ==> s[i] == r[i];
    }
  }

  /** std::fill(s.begin(), s.end(), v): each element, front to back, is
      overwritten by v. */
  function Fill<T>(s: seq<T>, v: T): (r: seq<T>)
    ensures |r| == |s|
    ensures AllEqual(r, v)
  {
    if s == [] then [] else [v] + Fill(s[1..], v)
  }

  /** Filling depends only on the length: it gives |s| copies of v. */
  lemma {:induction false} FillIsRepeat<T>(s: seq<T>, v: T)
    ensures Fill(s, v) == Repeat(|s|, v)
  {
    RepeatCharacterised(Fill(s, v), v);
  }

  /** Filling twice with the same value is filling once. */
  lemma {:induction false} FillIdempotent<T>(s: seq<T>, v: T)
    ensures Fill(Fill(s, v), v) == Fill(s, v)
  {
    FillIsRepeat(Fill(s, v), v);
    FillIsRepeat(s, v);
  }

  /** vector::resize(n): the first min(n, |s|) elements are kept, and any
      position from |s| on is a default-inserted element. */
  function Resized<T>(s: seq<T>, n: nat, dflt: T): (r: seq<T>)
    ensures |r| == n
    ensures forall i :: 0 <= i < n && i < |s| ==> r[i] == s[i]
    ensures forall i :: |s| <= i < n ==> r[i] == dflt
  {
    if n <= |s| then s[..n] else s + Repeat(n - |s|, dflt)
  }

  /** Resizing to the current size changes nothing. */
  lemma ResizedToOwnSize<T>(s: seq<T>, dflt: T)
    ensures Resized(s, |s|, dflt) == s
  {
    assert forall i :: 0 <= i < |s| ==> Resized(s, |s|, dflt)[i] == s[i];
  }

  /** Resizing an empty vector gives n default elements. */
  lemma ResizedFromEmpty<T>(n: nat, dflt: T)
    ensures Resized([], n, dflt) == Repeat(n, dflt)
  {
    RepeatCharacterised(Resized([], n, dflt), dflt);
  }

  /** m has exactly `rows` rows, each of exactly `cols` cells, all equal to v. */
  ghost predicate IsGrid<T>(m: seq<seq<T>>, rows: nat, cols: nat, v: T) {
    |m| == rows && forall r :: 0 <= r < rows ==> |m[r]| == cols && AllEqual(m[r], v)
  }

  /** The contents of std::vector<std::vector<T>>(rows, std::vector<T>(cols, v)). */
  function Grid<T>(rows: nat, cols: nat, v: T): (m: seq<seq<T>>)
    ensures IsGrid(m, rows, cols, v)
  {
    Repeat(rows, Repeat(cols, v))
  }

  /** The uniform grid of a given shape and value is unique. */
  lemma {:induction false} GridCharacterised<T>(m: seq<seq<T>>, rows: nat, cols: nat, v: T)
    ensures IsGrid(m, rows, cols, v) <==> m == Grid(rows, cols, v)
  {
    if IsGrid(m, rows, cols, v) {
      var g := Grid(rows, cols, v);
      forall r | 0 <= r < rows
        ensures m[r] == g[r]
      {
        RepeatCharacterised(m[r], v);
        RepeatCharacterised(g[r], v);
      }
    }
  }

  /** A std::vector<T> object: its contents are a value, replaced by the
      operations that change the vector. */
  class Vector<T> {
    var elems: seq<T>

    /** std::vector<T>(n, v): n copies of v; with v = T() it is
        std::vector<T>(n). */
    constructor(n: nat, v: T)
      ensures elems == Repeat(n, v)
    {
      elems := Repeat(n, v);
    }

    /** vector::resize(n), appending copies of T() when it grows. */
    method Resize(n: nat, dflt: T)
      modifies this
      ensures elems == Resized(old(elems), n, dflt)
    {
      elems := Resized(elems, n, dflt);
    }

    /** vector::clear(): no elements remain. */
    method Clear()
      modifies this
      ensures elems == []
    {
      elems := [];
    }
  }
}
