/**
 * filter_modes in pivid_list_modes.cpp: the standard modes whose size and
 * nominal rate match the command line's criteria, where a zero criterion
 * matches anything.
 */
module ListModes {
  import opened XYs
  import opened DisplayModes

  /** The test inside the loop; a zero criterion is a wildcard. */
  predicate Matches(m: DisplayMode, xy: XY<int>, hz: int) {
    (xy.x == 0 || xy.x == m.size.x) && (xy.y == 0 || xy.y == m.size.y) && (hz == 0 || hz == m.nominalHz)
  }

  /** The modes that match, in their order: what the loop has pushed after the whole input. */
  function Filtered(modes: seq<DisplayMode>, xy: XY<int>, hz: int): (r: seq<DisplayMode>)
    ensures |r| <= |modes|
    ensures forall k :: 0 <= k < |r| ==> Matches(r[k], xy, hz)
    decreases |modes|
  {
    if modes == [] then []
    else
      var last := modes[|modes| - 1];
      Filtered(modes[..|modes| - 1], xy, hz) + (if Matches(last, xy, hz) then [last] else [])
  }

  /** filter_modes: the input is read only; out grows by push_back. */
  method FilterModes(modes: seq<DisplayMode>, xy: XY<int>, hz: int) returns (out: seq<DisplayMode>)
    ensures out == Filtered(modes, xy, hz)
  {
    out := [];
    var i := 0;
    while i < |modes|
      invariant i <= |modes|
      invariant out == Filtered(modes[..i], xy, hz)
    {
      var m := modes[i];
      assert modes[..i + 1][..i] == modes[..i];
      if Matches(m, xy, hz) {
        out := out + [m];
      }
      i := i + 1;
    }
    assert modes[..i] == modes;
  }

  /** a can be had from b by deleting elements: b holds a's elements in a's order. */
  predicate IsSubsequence(a: seq<DisplayMode>, b: seq<DisplayMode>)
    decreases |b|
  {
    if a == [] then true
    else if b == [] then false
    else
      (a[|a| - 1] == b[|b| - 1] && IsSubsequence(a[..|a| - 1], b[..|b| - 1])) ||
      IsSubsequence(a, b[..|b| - 1])
  }

  /** The output is a subsequence of the input, in the input's order. */
  lemma {:induction false} FilteredIsSubsequence(modes: seq<DisplayMode>, xy: XY<int>, hz: int)
    ensures IsSubsequence(Filtered(modes, xy, hz), modes)
    decreases |modes|
  {
    if modes != [] {
      var init := modes[..|modes| - 1];
      var last := modes[|modes| - 1];
      FilteredIsSubsequence(init, xy, hz);
      var f := Filtered(init, xy, hz);
      assert modes[..|modes| - 1] == init;
      if Matches(last, xy, hz) {
        var a := f + [last];
        assert a[..|a| - 1] == f && a[|a| - 1] == last;
        assert Filtered(modes, xy, hz) == a;
      } else {
        assert Filtered(modes, xy, hz) == f;
      }
    }
  }

  /** A mode is kept exactly as often as it occurs, if it matches, and not at all otherwise. */
  lemma {:induction false} FilteredCount(modes: seq<DisplayMode>, xy: XY<int>, hz: int, m: DisplayMode)
    ensures multiset(Filtered(modes, xy, hz))[m] == if Matches(m, xy, hz) then multiset(modes)[m] else 0
    decreases |modes|
  {
    if modes != [] {
      var init := modes[..|modes| - 1];
      FilteredCount(init, xy, hz, m);
      assert init + [modes[|modes| - 1]] == modes;
    }
  }

  /** Kept iff present and matching. */
  lemma FilteredMembership(modes: seq<DisplayMode>, xy: XY<int>, hz: int, m: DisplayMode)
    ensures m in Filtered(modes, xy, hz) <==> m in modes && Matches(m, xy, hz)
  {
    FilteredCount(modes, xy, hz, m);
    assert m in multiset(Filtered(modes, xy, hz)) <==> m in Filtered(modes, xy, hz);
    assert m in multiset(modes) <==> m in modes;
  }

  /** All-zero criteria return the whole list. */
  lemma {:induction false} WildcardKeepsAll(modes: seq<DisplayMode>)
    ensures Filtered(modes, XY(0, 0), 0) == modes
    decreases |modes|
  {
    if modes != [] {
      WildcardKeepsAll(modes[..|modes| - 1]);
      assert modes[..|modes| - 1] + [modes[|modes| - 1]] == modes;
    }
  }
}
