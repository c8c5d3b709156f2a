/**
 * Sorted, disjoint, half-open integer intervals: the value-level theory shared by
 * RangeSet<int> (range_set.h) and IntervalSet<int> (interval_set.h).
 *
 * The private std::set of each class is modelled as a seq of intervals in set
 * order.  A representation is valid when every interval is non-empty and any two
 * stored intervals are separated by a strict gap, which also makes the sequence
 * sorted by begin.  The functions below are the specifications the mutating methods
 * are proved against; the lemmas state what they mean as point sets.
 */
module IntIntervals {

  datatype Interval = Interval(begin: int, end: int) {
    /** Interval::empty(): no point lies inside. */
    predicate Empty() { begin >= end }

    /** Interval::contains(t): half-open membership. */
    predicate Contains(t: int) { begin <= t < end }
  }

  /** big holds every point of small: big.begin <= small.begin and small.end <= big.end. */
  predicate CoveredBy(big: Interval, small: Interval) {
    big.begin <= small.begin && small.end <= big.end
  }

  /** An interval is empty exactly when it holds no point. */
  lemma EmptyIffNoPoint(i: Interval)
    ensures i.Empty() <==> forall t :: !i.Contains(t)
  {
    if !i.Empty() {
      assert i.Contains(i.begin);
    }
  }

  /** Non-empty intervals, any two separated by a strict gap (so sorted by begin). */
  predicate Valid(s: seq<Interval>) {
    && (forall i :: 0 <= i < |s| ==> s[i].begin < s[i].end)
    && (forall i, j {:trigger Sep(s, i, j)} :: 0 <= i < j < |s| ==> Sep(s, i, j))
  }

  /**
   * The gap between the i-th and the j-th stored interval.  Valid states the gaps
   * through this predicate so that the pairwise fact is only instantiated for
   * pairs a proof names.
   */
  predicate Sep(s: seq<Interval>, i: int, j: int)
    requires 0 <= i < j < |s|
  {
    s[i].end < s[j].begin
  }

  /** The gaps around one stored interval, spelled out for the ones before and after it. */
  lemma Ordered(s: seq<Interval>, k: int)
    requires Valid(s) && 0 <= k < |s|
    ensures forall j :: k < j < |s| ==> s[k].end < s[j].begin
    ensures forall j :: 0 <= j < k ==> s[j].end < s[k].begin
  {
    forall j | k < j < |s|
      ensures s[k].end < s[j].begin
    {
      assert Sep(s, k, j);
    }
    forall j | 0 <= j < k
      ensures s[j].end < s[k].begin
    {
      assert Sep(s, j, k);
    }
  }

  /** The point-set meaning of a representation. */
  predicate Covers(s: seq<Interval>, v: int) {
    exists i :: 0 <= i < |s| && s[i].Contains(v)
  }

  /** std::set orders by begin only: a valid set holds at most one interval per begin. */
  lemma ValidDistinctBegins(s: seq<Interval>, i: int, j: int)
    requires Valid(s) && 0 <= i < |s| && 0 <= j < |s| && i != j
    ensures s[i].begin != s[j].begin
  {
    if i < j {
      assert Sep(s, i, j);
    } else {
      assert Sep(s, j, i);
    }
  }

  // ---------------------------------------------------------------------------
  // Searches (std::set::upper_bound / lower_bound and the derived lookups)
  // ---------------------------------------------------------------------------

  /** upper_bound({t, _}): index of the first interval whose begin exceeds t. */
  function UpperBound(s: seq<Interval>, t: int): (k: nat)
    requires Valid(s)
    ensures k <= |s|
    ensures forall i :: 0 <= i < k ==> s[i].begin <= t
    ensures forall i :: k <= i < |s| ==> s[i].begin > t
  {
    UpperBoundFrom(s, t, 0)
  }

  function UpperBoundFrom(s: seq<Interval>, t: int, i: nat): (k: nat)
    requires Valid(s) && i <= |s|
    requires forall j :: 0 <= j < i ==> s[j].begin <= t
    ensures i <= k <= |s|
    ensures forall j :: 0 <= j < k ==> s[j].begin <= t
    ensures forall j :: k <= j < |s| ==> s[j].begin > t
    decreases |s| - i
  {
    if i == |s| then i
    else if s[i].begin > t then (Ordered(s, i); i)
    else UpperBoundFrom(s, t, i + 1)
  }

  /** lower_bound({t, _}): index of the first interval whose begin is at least t. */
  function LowerBound(s: seq<Interval>, t: int): (k: nat)
    requires Valid(s)
    ensures k <= |s|
    ensures forall i :: 0 <= i < k ==> s[i].begin < t
    ensures forall i :: k <= i < |s| ==> s[i].begin >= t
  {
    LowerBoundFrom(s, t, 0)
  }

  function LowerBoundFrom(s: seq<Interval>, t: int, i: nat): (k: nat)
    requires Valid(s) && i <= |s|
    requires forall j :: 0 <= j < i ==> s[j].begin < t
    ensures i <= k <= |s|
    ensures forall j :: 0 <= j < k ==> s[j].begin < t
    ensures forall j :: k <= j < |s| ==> s[j].begin >= t
    decreases |s| - i
  {
    if i == |s| then i
    else if s[i].begin >= t then (Ordered(s, i); i)
    else LowerBoundFrom(s, t, i + 1)
  }

  /** Index of the first interval whose end exceeds t. */
  function EndAfter(s: seq<Interval>, t: int): (k: nat)
    requires Valid(s)
    ensures k <= |s|
    ensures forall i :: 0 <= i < k ==> s[i].end <= t
    ensures forall i :: k <= i < |s| ==> s[i].end > t
  {
    EndAfterFrom(s, t, 0)
  }

  function EndAfterFrom(s: seq<Interval>, t: int, i: nat): (k: nat)
    requires Valid(s) && i <= |s|
    requires forall j :: 0 <= j < i ==> s[j].end <= t
    ensures i <= k <= |s|
    ensures forall j :: 0 <= j < k ==> s[j].end <= t
    ensures forall j :: k <= j < |s| ==> s[j].end > t
    decreases |s| - i
  {
    if i == |s| then i
    else if s[i].end > t then (Ordered(s, i); i)
    else EndAfterFrom(s, t, i + 1)
  }

  /** Index of the first interval whose end reaches t. */
  function EndReach(s: seq<Interval>, t: int): (k: nat)
    requires Valid(s)
    ensures k <= |s|
    ensures forall i :: 0 <= i < k ==> s[i].end < t
    ensures forall i :: k <= i < |s| ==> s[i].end >= t
  {
    EndReachFrom(s, t, 0)
  }

  function EndReachFrom(s: seq<Interval>, t: int, i: nat): (k: nat)
    requires Valid(s) && i <= |s|
    requires forall j :: 0 <= j < i ==> s[j].end < t
    ensures i <= k <= |s|
    ensures forall j :: 0 <= j < k ==> s[j].end < t
    ensures forall j :: k <= j < |s| ==> s[j].end >= t
    decreases |s| - i
  {
    if i == |s| then i
    else if s[i].end >= t then (Ordered(s, i); i)
    else EndReachFrom(s, t, i + 1)
  }

  /**
   * overlap_begin(t): upper_bound(t), stepped back once when the interval before
   * it still reaches past t.  It is the first interval whose end exceeds t.
   */
  function OverlapBegin(s: seq<Interval>, t: int): (k: nat)
    requires Valid(s)
    ensures k <= |s|
    ensures forall i :: 0 <= i < k ==> s[i].end <= t
    ensures forall i :: k <= i < |s| ==> s[i].end > t
  {
    var next := UpperBound(s, t);
    if next == 0 then next
    else
      Ordered(s, next - 1);
      if s[next - 1].end > t then next - 1 else next
  }

  /** overlap_end(t): lower_bound(t), the first interval beginning at or after t. */
  function OverlapEnd(s: seq<Interval>, t: int): (k: nat)
    requires Valid(s)
    ensures k <= |s|
    ensures forall i :: 0 <= i < k ==> s[i].begin < t
    ensures k < |s| ==> s[k].begin >= t
  {
    LowerBound(s, t)
  }

  /** contains(v): the interval found by overlap_begin(v) starts at or before v. */
  function ContainsQuery(s: seq<Interval>, v: int): (b: bool)
    requires Valid(s)
    ensures b <==> Covers(s, v)
  {
    var k := OverlapBegin(s, v);
    k < |s| && s[k].begin <= v
  }

  // ---------------------------------------------------------------------------
  // std::set primitives under the begin-only ordering
  // ---------------------------------------------------------------------------

  /** std::set::insert: a no-op when an interval with the same begin is stored. */
  function SetInsert(s: seq<Interval>, x: Interval): (r: seq<Interval>)
    requires Valid(s)
  {
    var k := LowerBound(s, x.begin);
    if k < |s| && s[k].begin == x.begin then s else s[..k] + [x] + s[k..]
  }

  /** When x's begin falls strictly between s[..k] and s[k..], SetInsert puts x at k. */
  lemma SetInsertAt(s: seq<Interval>, x: Interval, k: nat)
    requires Valid(s) && k <= |s|
    requires forall i :: 0 <= i < k ==> s[i].begin < x.begin
    requires forall i :: k <= i < |s| ==> s[i].begin > x.begin
    ensures SetInsert(s, x) == s[..k] + [x] + s[k..]
  {
    var lb := LowerBound(s, x.begin);
    if lb < |s| { assert s[lb].begin >= x.begin; }
    if k < |s| { assert s[k].begin > x.begin; }
    assert lb == k;
  }

  // ---------------------------------------------------------------------------
  // Building blocks about validity and coverage of concatenations
  // ---------------------------------------------------------------------------

  lemma ValidConcat(a: seq<Interval>, b: seq<Interval>)
    requires Valid(a) && Valid(b)
    requires |a| > 0 && |b| > 0 ==> a[|a| - 1].end < b[0].begin
    ensures Valid(a + b)
  {
    var c := a + b;
    forall i, j | 0 <= i < j < |c|
      ensures c[i].end < c[j].begin
    {
      if j < |a| {
        assert Sep(a, i, j);
      } else if i >= |a| {
        assert Sep(b, i - |a|, j - |a|);
      } else {
        var last := |a| - 1;
        assert a[i].end <= a[last].end by {
          if i < last { assert Sep(a, i, last); }
        }
        assert b[0].begin <= b[j - |a|].begin by {
          if j - |a| > 0 { assert Sep(b, 0, j - |a|); }
        }
      }
    }
  }

  lemma ValidPrefixSuffix(s: seq<Interval>, k: nat)
    requires Valid(s) && k <= |s|
    ensures Valid(s[..k]) && Valid(s[k..])
  {
    assert forall i :: 0 <= i < |s| - k ==> s[k..][i] == s[k + i];
    forall i, j | 0 <= i < j < |s| - k
      ensures s[k..][i].end < s[k..][j].begin
    {
      assert Sep(s, k + i, k + j);
    }
    forall i, j | 0 <= i < j < k
      ensures s[..k][i].end < s[..k][j].begin
    {
      assert Sep(s, i, j);
    }
  }

  /** a + [x] + c is valid when x fits strictly between the last of a and the first of c. */
  lemma ValidFuse(a: seq<Interval>, x: Interval, c: seq<Interval>)
    requires Valid(a) && Valid(c) && x.begin < x.end
    requires |a| > 0 ==> a[|a| - 1].end < x.begin
    requires |c| > 0 ==> x.end < c[0].begin
    ensures Valid(a + [x] + c)
  {
    ValidConcat(a, [x]);
    ValidConcat(a + [x], c);
  }

  /** std::set::erase at one position keeps a representation valid. */
  lemma ValidRemove(s: seq<Interval>, k: nat)
    requires Valid(s) && k < |s|
    ensures Valid(s[..k] + s[k + 1..])
  {
    ValidSkip(s, k, k + 1);
  }

  /** Dropping the stored intervals s[lo..hi] keeps a representation valid. */
  lemma ValidSkip(s: seq<Interval>, lo: nat, hi: nat)
    requires Valid(s) && lo <= hi <= |s|
    ensures Valid(s[..lo] + s[hi..])
  {
    var t := s[..lo] + s[hi..];
    forall i | 0 <= i < |t|
      ensures t[i] == s[if i < lo then i else i + (hi - lo)]
    {
    }
    forall i, j | 0 <= i < j < |t|
      ensures t[i].end < t[j].begin
    {
      var i' := if i < lo then i else i + (hi - lo);
      var j' := if j < lo then j else j + (hi - lo);
      assert t[i] == s[i'] && t[j] == s[j'];
      assert Sep(s, i', j');
    }
  }

  /** Replacing one interval by a non-empty part of it keeps a representation valid. */
  lemma ValidShrink(s: seq<Interval>, k: nat, x: Interval)
    requires Valid(s) && k < |s|
    requires x.begin < x.end && s[k].begin <= x.begin && x.end <= s[k].end
    ensures Valid(s[..k] + [x] + s[k + 1..])
  {
    ValidPrefixSuffix(s, k);
    ValidPrefixSuffix(s, k + 1);
    if k > 0 { assert Sep(s, k - 1, k); }
    if k + 1 < |s| { assert Sep(s, k, k + 1); }
    ValidFuse(s[..k], x, s[k + 1..]);
  }

  lemma CoversConcat(a: seq<Interval>, b: seq<Interval>, v: int)
    ensures Covers(a + b, v) <==> Covers(a, v) || Covers(b, v)
  {
    var c := a + b;
    if Covers(c, v) {
      var i :| 0 <= i < |c| && c[i].Contains(v);
      if i < |a| { assert a[i] == c[i]; } else { assert b[i - |a|] == c[i]; }
    }
    if Covers(a, v) {
      var i :| 0 <= i < |a| && a[i].Contains(v);
      assert c[i] == a[i];
    }
    if Covers(b, v) {
      var i :| 0 <= i < |b| && b[i].Contains(v);
      assert c[|a| + i] == b[i];
    }
  }

  lemma CoversSingle(x: Interval, v: int)
    ensures Covers([x], v) <==> x.Contains(v)
  {
    if x.Contains(v) { assert [x][0] == x; }
  }

  lemma CoversFirst(s: seq<Interval>, v: int)
    requires s != []
    ensures Covers(s, v) <==> s[0].Contains(v) || Covers(s[1..], v)
  {
    assert s == [s[0]] + s[1..];
    CoversConcat([s[0]], s[1..], v);
    CoversSingle(s[0], v);
  }

  lemma CoversThree(a: seq<Interval>, b: seq<Interval>, c: seq<Interval>, v: int)
    ensures Covers(a + b + c, v) <==> Covers(a, v) || Covers(b, v) || Covers(c, v)
  {
    CoversConcat(a + b, c, v);
    CoversConcat(a, b, v);
  }

  /** Splits a representation into prefix, middle and suffix for the point-set lemmas. */
  lemma CoversSplit(s: seq<Interval>, lo: nat, hi: nat, v: int)
    requires lo <= hi <= |s|
    ensures Covers(s, v) <==> Covers(s[..lo], v) || Covers(s[lo..hi], v) || Covers(s[hi..], v)
  {
    assert s == s[..lo] + s[lo..hi] + s[hi..];
    CoversThree(s[..lo], s[lo..hi], s[hi..], v);
  }

  // ---------------------------------------------------------------------------
  // Insert: the specification and its meaning
  // ---------------------------------------------------------------------------

  /** add widened to the hull of add and the stored intervals s[lo..hi] it touches. */
  function Fused(s: seq<Interval>, add: Interval, lo: nat, hi: nat): Interval
    requires lo <= hi <= |s|
  {
    var b := if lo < hi && s[lo].begin < add.begin then s[lo].begin else add.begin;
    var e := if lo < hi && s[hi - 1].end > add.end then s[hi - 1].end else add.end;
    Interval(b, e)
  }

  /**
   * Inserting add keeps the intervals that end before add.begin, keeps the ones
   * that begin after add.end, and fuses add with every interval in between
   * (overlapping or abutting) into one interval.  Empty add changes nothing.
   */
  function InsertSpec(s: seq<Interval>, add: Interval): (r: seq<Interval>)
    requires Valid(s)
  {
    if add.begin >= add.end then s
    else
      var lo := EndReach(s, add.begin);
      var hi := UpperBound(s, add.end);
      InsertLoHi(s, add);
      s[..lo] + [Fused(s, add, lo, hi)] + s[hi..]
  }

  lemma InsertLoHi(s: seq<Interval>, add: Interval)
    requires Valid(s) && add.begin < add.end
    ensures EndReach(s, add.begin) <= UpperBound(s, add.end)
  {
    var lo := EndReach(s, add.begin);
    var hi := UpperBound(s, add.end);
    if hi < |s| { assert s[hi].begin > add.end; }
  }

  /** The fused interval is non-empty and fits between the kept prefix and suffix. */
  lemma FusedFits(s: seq<Interval>, add: Interval, lo: nat, hi: nat)
    requires Valid(s) && add.begin < add.end && lo <= hi <= |s|
    requires forall i :: 0 <= i < lo ==> s[i].end < add.begin
    requires forall i :: hi <= i < |s| ==> s[i].begin > add.end
    ensures Fused(s, add, lo, hi).begin < Fused(s, add, lo, hi).end
    ensures lo > 0 ==> s[lo - 1].end < Fused(s, add, lo, hi).begin
    ensures hi < |s| ==> Fused(s, add, lo, hi).end < s[hi].begin
  {
    if lo > 0 && lo < hi {
      assert Sep(s, lo - 1, lo);
    }
    if hi < |s| && lo < hi {
      assert Sep(s, hi - 1, hi);
    }
  }

  /** The result of InsertSpec is again a valid representation. */
  lemma InsertValid(s: seq<Interval>, add: Interval)
    requires Valid(s)
    ensures Valid(InsertSpec(s, add))
  {
    if add.begin < add.end {
      var lo := EndReach(s, add.begin);
      var hi := UpperBound(s, add.end);
      InsertLoHi(s, add);
      var x := Fused(s, add, lo, hi);
      FusedFits(s, add, lo, hi);
      ValidPrefixSuffix(s, lo);
      ValidPrefixSuffix(s, hi);
      ValidFuse(s[..lo], x, s[hi..]);
    }
  }

  /** A point lies in the fused interval iff add or one of the fused intervals holds it. */
  lemma FusedContains(s: seq<Interval>, add: Interval, lo: nat, hi: nat, v: int)
    requires Valid(s) && add.begin < add.end && lo <= hi <= |s|
    requires forall i :: lo <= i < |s| ==> s[i].end >= add.begin
    requires forall i :: 0 <= i < hi ==> s[i].begin <= add.end
    ensures Fused(s, add, lo, hi).Contains(v) <==> add.Contains(v) || Covers(s[lo..hi], v)
  {
    var x := Fused(s, add, lo, hi);
    if x.Contains(v) && !add.Contains(v) {
      if v < add.begin {
        assert s[lo].Contains(v);
        assert s[lo..hi][0] == s[lo];
      } else {
        assert s[hi - 1].Contains(v);
        assert s[lo..hi][hi - 1 - lo] == s[hi - 1];
      }
    }
    if Covers(s[lo..hi], v) {
      var i :| 0 <= i < hi - lo && s[lo..hi][i].Contains(v);
      assert s[lo + i].Contains(v);
      assert s[lo].begin <= s[lo + i].begin by {
        if i > 0 { assert Sep(s, lo, lo + i); }
      }
      assert s[lo + i].end <= s[hi - 1].end by {
        if lo + i < hi - 1 { assert Sep(s, lo + i, hi - 1); }
      }
    }
  }

  /** Point-set union: after insert(add), v is contained iff it was or add contains it. */
  lemma InsertCovers(s: seq<Interval>, add: Interval, v: int)
    requires Valid(s)
    ensures Covers(InsertSpec(s, add), v) <==> Covers(s, v) || add.Contains(v)
  {
    if add.begin < add.end {
      var lo := EndReach(s, add.begin);
      var hi := UpperBound(s, add.end);
      InsertLoHi(s, add);
      var x := Fused(s, add, lo, hi);
      CoversThree(s[..lo], [x], s[hi..], v);
      CoversSingle(x, v);
      CoversSplit(s, lo, hi, v);
      FusedContains(s, add, lo, hi, v);
      KeptOutsideInsert(s, add, lo, hi, v);
    }
  }

  /** Points of the kept prefix and suffix that add also holds are held by the fused part. */
  lemma KeptOutsideInsert(s: seq<Interval>, add: Interval, lo: nat, hi: nat, v: int)
    requires Valid(s) && lo <= hi <= |s|
    requires forall i :: 0 <= i < lo ==> s[i].end < add.begin
    requires forall i :: hi <= i < |s| ==> s[i].begin > add.end
    ensures Covers(s[..lo], v) ==> !add.Contains(v)
    ensures Covers(s[hi..], v) ==> !add.Contains(v)
  {
    if Covers(s[..lo], v) {
      var i :| 0 <= i < lo && s[..lo][i].Contains(v);
      assert s[i].Contains(v);
    }
    if Covers(s[hi..], v) {
      var i :| 0 <= i < |s| - hi && s[hi..][i].Contains(v);
      assert s[hi + i].Contains(v);
    }
  }

  /** Inserting an interval already covered by one stored interval changes nothing. */
  lemma InsertCoveredUnchanged(s: seq<Interval>, add: Interval, k: nat)
    requires Valid(s) && k < |s|
    requires s[k].begin <= add.begin && add.end <= s[k].end
    ensures InsertSpec(s, add) == s
  {
    if add.begin < add.end {
      var lo := EndReach(s, add.begin);
      var hi := UpperBound(s, add.end);
      Ordered(s, k);
      assert lo <= k by { assert s[k].end >= add.begin; }
      assert lo >= k by { assert 0 < k ==> s[k - 1].end < s[k].begin; }
      assert hi == k + 1 by {
        assert s[k].begin <= add.end;
        if k + 1 < |s| { assert s[k + 1].begin > add.end; }
      }
      assert s[..k] + [s[k]] + s[k + 1..] == s;
    }
  }

  // ---------------------------------------------------------------------------
  // Facts the insert loop relies on
  // ---------------------------------------------------------------------------

  /** A non-empty interval is covered by at most one stored interval. */
  lemma CoveringIndex(s: seq<Interval>, add: Interval, k: nat)
    requires Valid(s) && add.begin < add.end && k < |s|
    requires s[k].begin <= add.begin && add.end <= s[k].end
    ensures forall j :: 0 <= j < |s| && CoveredBy(s[j], add) ==> j == k
  {
    forall j | 0 <= j < |s| && CoveredBy(s[j], add)
      ensures j == k
    {
      SharedPointSameIndex(s, j, k, add.begin);
    }
  }

  /** Two stored intervals that share a point are the same one. */
  lemma SharedPointSameIndex(s: seq<Interval>, i: nat, j: nat, v: int)
    requires Valid(s) && i < |s| && j < |s|
    ensures s[i].Contains(v) && s[j].Contains(v) ==> i == j
  {
    if i < j {
      assert Sep(s, i, j);
    } else if j < i {
      assert Sep(s, j, i);
    }
  }

  /**
   * Where the insert loop starts: u is upper_bound(add.begin); when the interval
   * before u does not cover add, the loop starts at the first interval reaching
   * add.begin, with add widened to that interval's begin when it touches add.
   */
  lemma StartOfMerge(s: seq<Interval>, add0: Interval, u: nat, next: nat, add: Interval)
    requires Valid(s) && add0.begin < add0.end
    requires u == UpperBound(s, add0.begin)
    requires u > 0 ==> s[u - 1].end < add0.end
    requires next == if u > 0 && s[u - 1].end >= add0.begin then u - 1 else u
    requires add == if u > 0 && s[u - 1].end >= add0.begin then Interval(s[u - 1].begin, add0.end) else add0
    ensures next == EndReach(s, add0.begin) <= UpperBound(s, add0.end)
    ensures add.begin == Fused(s, add0, next, UpperBound(s, add0.end)).begin
    ensures add.end == add0.end
    ensures forall k :: 0 <= k < |s| ==> !CoveredBy(s[k], add0)
  {
    var lo := EndReach(s, add0.begin);
    var hi := UpperBound(s, add0.end);
    InsertLoHi(s, add0);
    if u > 0 {
      assert s[u - 1].begin <= add0.begin;
      Ordered(s, u - 1);
    }
    if u < |s| {
      assert s[u].begin > add0.begin;
    }
    if lo < |s| {
      assert s[lo].end >= add0.begin;
    }
    forall k | 0 <= k < |s|
      ensures !CoveredBy(s[k], add0)
    {
      if k < u - 1 {
        assert Sep(s, k, u - 1);
      }
    }
  }

  /**
   * One turn of the insert loop: with e the end merged so far, s[k] still touches
   * the merged interval, so it lies before UpperBound(add.end) and e has not yet
   * grown past add.end.
   */
  lemma MergeStep(s: seq<Interval>, add0: Interval, lo: nat, hi: nat, k: nat, e: int)
    requires Valid(s) && hi == UpperBound(s, add0.end) && lo <= k < |s|
    requires e == if lo < k && s[k - 1].end > add0.end then s[k - 1].end else add0.end
    requires s[k].begin <= e
    ensures k < hi && e == add0.end
  {
    if lo < k {
      assert Sep(s, k - 1, k);
    }
  }

  /** The insert loop at position lo meets s[k], and erasing it moves on to s[k+1..]. */
  lemma SpliceAt(s: seq<Interval>, lo: nat, k: nat, t: seq<Interval>)
    requires lo <= k < |s| && t == s[..lo] + s[k..]
    ensures lo < |t| && t[lo] == s[k]
    ensures t[..lo] + t[lo + 1..] == s[..lo] + s[k + 1..]
  {
    assert t[..lo] == s[..lo];
    assert t[lo + 1..] == s[k + 1..];
  }

  /** The insert loop stops exactly at UpperBound(add.end). */
  lemma MergeExit(s: seq<Interval>, add0: Interval, hi: nat, k: nat, e: int)
    requires Valid(s) && hi == UpperBound(s, add0.end) && k <= hi && e >= add0.end
    requires k == |s| || s[k].begin > e
    ensures k == hi
  {
    if k < |s| {
      assert s[k].begin > add0.end;
    }
  }

  /** The kept prefix and suffix around the fused interval, as std::set::insert needs them. */
  lemma KeptAroundFused(s: seq<Interval>, add0: Interval, lo: nat, hi: nat)
    requires Valid(s) && add0.begin < add0.end
    requires lo == EndReach(s, add0.begin) && hi == UpperBound(s, add0.end) && lo <= hi
    ensures Valid(s[..lo] + s[hi..])
    ensures forall i :: 0 <= i < |s[..lo]| ==> s[..lo][i].begin < Fused(s, add0, lo, hi).begin
    ensures forall i :: 0 <= i < |s[hi..]| ==> s[hi..][i].begin > Fused(s, add0, lo, hi).begin
  {
    FusedFits(s, add0, lo, hi);
    ValidSkip(s, lo, hi);
    var x := Fused(s, add0, lo, hi);
    forall i | 0 <= i < lo
      ensures s[..lo][i].begin < x.begin
    {
      assert s[..lo][i] == s[i];
      if i < lo - 1 { assert Sep(s, i, lo - 1); }
    }
    forall i | 0 <= i < |s| - hi
      ensures s[hi..][i].begin > x.begin
    {
      assert s[hi..][i] == s[hi + i];
      if 0 < i { assert Sep(s, hi, hi + i); }
    }
  }

  /** After the insert loop: putting the merged interval back gives InsertSpec. */
  lemma MergeFinish(s: seq<Interval>, add0: Interval, t: seq<Interval>)
    requires Valid(s) && add0.begin < add0.end
    requires t == s[..EndReach(s, add0.begin)] + s[UpperBound(s, add0.end)..]
    ensures EndReach(s, add0.begin) <= UpperBound(s, add0.end)
    ensures Valid(t)
    ensures SetInsert(t, Fused(s, add0, EndReach(s, add0.begin), UpperBound(s, add0.end)))
        == InsertSpec(s, add0)
    ensures Valid(InsertSpec(s, add0))
    ensures var lo := EndReach(s, add0.begin);
      lo < |InsertSpec(s, add0)| && CoveredBy(InsertSpec(s, add0)[lo], add0)
  {
    var lo := EndReach(s, add0.begin);
    var hi := UpperBound(s, add0.end);
    InsertLoHi(s, add0);
    var x := Fused(s, add0, lo, hi);
    KeptAroundFused(s, add0, lo, hi);
    SetInsertBetween(s[..lo], x, s[hi..]);
    InsertValid(s, add0);
    assert InsertSpec(s, add0)[lo] == x;
  }

  // ---------------------------------------------------------------------------
  // Erase: the specification and its meaning
  // ---------------------------------------------------------------------------

  /** What remains of the first overlapped interval left of remove. */
  function LeftRest(s: seq<Interval>, r: Interval, lo: nat, hi: nat): seq<Interval>
    requires lo <= hi <= |s|
  {
    if lo < hi && s[lo].begin < r.begin then [Interval(s[lo].begin, r.begin)] else []
  }

  /** What remains of the last overlapped interval right of remove. */
  function RightRest(s: seq<Interval>, r: Interval, lo: nat, hi: nat): seq<Interval>
    requires lo <= hi <= |s|
  {
    if lo < hi && s[hi - 1].end > r.end then [Interval(r.end, s[hi - 1].end)] else []
  }

  /**
   * Erasing r keeps the intervals that end at or before r.begin and those that begin
   * at or after r.end; of the overlapped intervals only the part of the first one left
   * of r and the part of the last one right of r survive.  Empty r changes nothing.
   */
  /** What erase leaves in place of the overlapped intervals s[lo..hi]. */
  function Rests(s: seq<Interval>, r: Interval, lo: nat, hi: nat): seq<Interval>
    requires lo <= hi <= |s|
  {
    LeftRest(s, r, lo, hi) + RightRest(s, r, lo, hi)
  }

  function EraseSpec(s: seq<Interval>, r: Interval): (t: seq<Interval>)
    requires Valid(s)
  {
    if r.begin >= r.end then s
    else
      var lo := EndAfter(s, r.begin);
      var hi := LowerBound(s, r.end);
      EraseLoHi(s, r);
      s[..lo] + Rests(s, r, lo, hi) + s[hi..]
  }

  lemma EraseLoHi(s: seq<Interval>, r: Interval)
    requires Valid(s) && r.begin < r.end
    ensures EndAfter(s, r.begin) <= LowerBound(s, r.end)
  {
    var lo := EndAfter(s, r.begin);
    var hi := LowerBound(s, r.end);
    if hi < |s| { assert s[hi].begin >= r.end; }
  }

  /**
   * The two rests fit between the kept prefix and the suffix from hi on; hi may be
   * any index up to the first interval beginning at or after r.end, which is what
   * the erase loop needs part-way through.
   */
  lemma RestsFit(s: seq<Interval>, r: Interval, lo: nat, hi: nat)
    requires Valid(s) && r.begin < r.end && lo <= hi <= |s|
    requires forall i :: 0 <= i < lo ==> s[i].end <= r.begin
    requires forall i :: lo <= i < |s| ==> s[i].end > r.begin
    requires forall i :: 0 <= i < hi ==> s[i].begin < r.end
    ensures Valid(s[..lo] + Rests(s, r, lo, hi) + s[hi..])
  {
    var left := LeftRest(s, r, lo, hi);
    var right := RightRest(s, r, lo, hi);
    var mid := left + right;
    assert Valid(mid);
    if lo > 0 && mid != [] {
      assert s[lo - 1].end <= r.begin;
      if left != [] {
        assert Sep(s, lo - 1, lo);
      }
    }
    if hi < |s| && mid != [] {
      if right != [] {
        assert Sep(s, hi - 1, hi);
      } else {
        assert Sep(s, lo, hi);
      }
    }
    ValidAround(s, lo, hi, mid);
  }

  /** Valid pieces put in place of s[lo..hi], fitting strictly between their neighbours. */
  lemma ValidAround(s: seq<Interval>, lo: nat, hi: nat, mid: seq<Interval>)
    requires Valid(s) && lo <= hi <= |s| && Valid(mid)
    requires lo > 0 && mid != [] ==> s[lo - 1].end < mid[0].begin
    requires hi < |s| && mid != [] ==> mid[|mid| - 1].end < s[hi].begin
    ensures Valid(s[..lo] + mid + s[hi..])
  {
    ValidPrefixSuffix(s, lo);
    ValidPrefixSuffix(s, hi);
    if lo > 0 && mid != [] {
      assert s[..lo][lo - 1] == s[lo - 1];
    }
    ValidConcat(s[..lo], mid);
    var a := s[..lo] + mid;
    if |a| > 0 && hi < |s| {
      assert s[hi..][0] == s[hi];
      if mid != [] {
        assert a[|a| - 1] == mid[|mid| - 1];
      } else {
        assert a[|a| - 1] == s[lo - 1];
        assert Sep(s, lo - 1, hi);
      }
    }
    ValidConcat(a, s[hi..]);
  }

  /** The result of EraseSpec is again a valid representation. */
  lemma EraseValid(s: seq<Interval>, r: Interval)
    requires Valid(s)
    ensures Valid(EraseSpec(s, r))
  {
    if r.begin < r.end {
      var lo := EndAfter(s, r.begin);
      var hi := LowerBound(s, r.end);
      EraseLoHi(s, r);
      RestsFit(s, r, lo, hi);
    }
  }

  /** A point is in one of the rests iff an overlapped interval holds it and r does not. */
  lemma RestsContain(s: seq<Interval>, r: Interval, lo: nat, hi: nat, v: int)
    requires Valid(s) && r.begin < r.end && lo <= hi <= |s|
    requires forall i :: lo <= i < |s| ==> s[i].end > r.begin
    requires forall i :: 0 <= i < hi ==> s[i].begin < r.end
    ensures Covers(Rests(s, r, lo, hi), v)
        <==> Covers(s[lo..hi], v) && !r.Contains(v)
  {
    var left := LeftRest(s, r, lo, hi);
    var right := RightRest(s, r, lo, hi);
    CoversConcat(left, right, v);
    if left != [] { CoversSingle(left[0], v); assert left == [left[0]]; }
    if right != [] { CoversSingle(right[0], v); assert right == [right[0]]; }
    if Covers(s[lo..hi], v) && !r.Contains(v) {
      var i :| 0 <= i < hi - lo && s[lo..hi][i].Contains(v);
      var k := lo + i;
      assert s[k].Contains(v);
      if v < r.begin {
        assert s[lo].end > r.begin;
        Ordered(s, lo);
        assert k == lo;
        assert left[0].Contains(v);
      } else {
        assert s[hi - 1].begin < r.end;
        Ordered(s, hi - 1);
        assert k == hi - 1;
        assert right[0].Contains(v);
      }
    }
    if left != [] && left[0].Contains(v) {
      assert s[lo..hi][0] == s[lo];
    }
    if right != [] && right[0].Contains(v) {
      assert s[lo..hi][hi - 1 - lo] == s[hi - 1];
    }
  }

  /** Points of the kept prefix and suffix lie outside r. */
  lemma KeptOutsideErase(s: seq<Interval>, r: Interval, lo: nat, hi: nat, v: int)
    requires Valid(s) && lo <= hi <= |s|
    requires forall i :: 0 <= i < lo ==> s[i].end <= r.begin
    requires forall i :: hi <= i < |s| ==> s[i].begin >= r.end
    ensures Covers(s[..lo], v) ==> !r.Contains(v)
    ensures Covers(s[hi..], v) ==> !r.Contains(v)
  {
    if Covers(s[..lo], v) {
      var i :| 0 <= i < lo && s[..lo][i].Contains(v);
      assert s[i].Contains(v);
    }
    if Covers(s[hi..], v) {
      var i :| 0 <= i < |s| - hi && s[hi..][i].Contains(v);
      assert s[hi + i].Contains(v);
    }
  }

  /** Where the erase loop starts: the first interval ending after remove.begin. */
  lemma StartOfErase(s: seq<Interval>, r: Interval, next: nat)
    requires Valid(s) && r.begin < r.end
    requires next == var u := UpperBound(s, r.begin);
      if u > 0 && s[u - 1].end > r.begin then u - 1 else u
    ensures next == EndAfter(s, r.begin) <= LowerBound(s, r.end)
  {
    var u := UpperBound(s, r.begin);
    var lo := EndAfter(s, r.begin);
    EraseLoHi(s, r);
    if u > 0 {
      assert s[u - 1].begin <= r.begin;
      Ordered(s, u - 1);
    }
    if u < |s| {
      assert s[u].begin > r.begin;
    }
    if lo < |s| {
      assert s[lo].end > r.begin;
    }
  }

  /**
   * One turn of the erase loop at index k: k is still overlapped, only the first
   * overlapped interval can stick out left of remove, and no right rest has been
   * produced before k.
   */
  lemma EraseStepShape(s: seq<Interval>, r: Interval, lo: nat, hi: nat, k: nat)
    requires Valid(s) && r.begin < r.end
    requires lo == EndAfter(s, r.begin) && hi == LowerBound(s, r.end)
    requires lo <= k < |s| && s[k].begin < r.end
    ensures k < hi
    ensures lo < k ==> s[k].begin > r.begin && RightRest(s, r, lo, k) == []
  {
    if lo < k {
      assert Sep(s, lo, k);
      assert Sep(s, k - 1, k);
    }
  }

  /** std::set::insert of x between a and c, whose begins lie below and above x's. */
  lemma SetInsertBetween(a: seq<Interval>, x: Interval, c: seq<Interval>)
    requires Valid(a + c)
    requires forall i :: 0 <= i < |a| ==> a[i].begin < x.begin
    requires forall i :: 0 <= i < |c| ==> c[i].begin > x.begin
    ensures SetInsert(a + c, x) == a + [x] + c
  {
    var s := a + c;
    assert forall i :: 0 <= i < |a| ==> s[i] == a[i];
    assert forall i :: |a| <= i < |s| ==> s[i] == c[i - |a|];
    SetInsertAt(s, x, |a|);
    assert s[..|a|] == a && s[|a|..] == c;
  }

  /** The erase loop at position n meets s[k], and erasing it leaves the pieces and s[k+1..]. */
  lemma EraseAt(s: seq<Interval>, lo: nat, pieces: seq<Interval>, k: nat, t: seq<Interval>, n: nat)
    requires lo <= k < |s|
    requires t == s[..lo] + pieces + s[k..] && n == lo + |pieces|
    ensures n < |t| && t[n] == s[k]
    ensures t[..n] == s[..lo] + pieces && t[n + 1..] == s[k + 1..]
  {
    assert t[..n] == s[..lo] + pieces;
    assert t[n + 1..] == s[k + 1..];
  }

  /** The part of x left of r, which erase puts back. */
  function LeftPart(x: Interval, r: Interval): seq<Interval> {
    if x.begin < r.begin then [Interval(x.begin, r.begin)] else []
  }

  /** The part of x right of r, which erase puts back. */
  function RightPart(x: Interval, r: Interval): seq<Interval> {
    if x.end > r.end then [Interval(r.end, x.end)] else []
  }

  /** What one turn of the erase loop leaves in place of an overlapped interval x. */
  function Pieces(x: Interval, r: Interval): seq<Interval> {
    LeftPart(x, r) + RightPart(x, r)
  }

  /** For an x that r overlaps, the pieces hold exactly the points of x that r does not. */
  lemma PiecesCovers(x: Interval, r: Interval, v: int)
    requires r.begin < r.end && x.begin < r.end && x.end > r.begin
    ensures Covers(Pieces(x, r), v) <==> x.Contains(v) && !r.Contains(v)
  {
    var p := Pieces(x, r);
    if Covers(p, v) {
      var i :| 0 <= i < |p| && p[i].Contains(v);
      assert p[i] in LeftPart(x, r) || p[i] in RightPart(x, r);
    }
    if x.Contains(v) && !r.Contains(v) {
      if v < r.begin {
        assert p[0].Contains(v);
      } else {
        assert p[|p| - 1].Contains(v);
      }
    }
  }

  /** Erasing t[n] and putting back its left part, as std::set::insert places it. */
  lemma TrimLeft(t: seq<Interval>, n: nat, r: Interval)
    requires Valid(t) && n < |t|
    ensures Valid(t[..n] + t[n + 1..])
    ensures (if t[n].begin < r.begin then SetInsert(t[..n] + t[n + 1..], Interval(t[n].begin, r.begin))
             else t[..n] + t[n + 1..])
        == t[..n] + LeftPart(t[n], r) + t[n + 1..]
  {
    ValidRemove(t, n);
    Ordered(t, n);
    var a := t[..n];
    var c := t[n + 1..];
    if t[n].begin < r.begin {
      assert forall i :: 0 <= i < |c| ==> c[i] == t[n + 1 + i];
      SetInsertBetween(a, Interval(t[n].begin, r.begin), c);
    } else {
      assert a + [] + c == a + c;
    }
  }

  /** Replacing t[n] by its left part, or by all its pieces, keeps a representation valid. */
  lemma TrimValid(t: seq<Interval>, n: nat, r: Interval)
    requires Valid(t) && n < |t| && r.begin < r.end
    requires t[n].begin < r.end && t[n].end > r.begin
    ensures Valid(t[..n] + LeftPart(t[n], r) + t[n + 1..])
    ensures Valid(t[..n] + Pieces(t[n], r) + t[n + 1..])
  {
    if n + 1 < |t| { assert Sep(t, n, n + 1); }
    if n > 0 { assert Sep(t, n - 1, n); }
    ValidAround(t, n, n + 1, LeftPart(t[n], r));
    ValidAround(t, n, n + 1, Pieces(t[n], r));
  }

  /** Then putting back the right part of t[n], after the left part. */
  lemma TrimRight(t: seq<Interval>, n: nat, r: Interval)
    requires Valid(t) && n < |t| && r.begin < r.end
    requires t[n].begin < r.end && t[n].end > r.begin
    ensures Valid(t[..n] + LeftPart(t[n], r) + t[n + 1..])
    ensures var u := t[..n] + LeftPart(t[n], r) + t[n + 1..];
      (if t[n].end > r.end then SetInsert(u, Interval(r.end, t[n].end)) else u)
        == t[..n] + Pieces(t[n], r) + t[n + 1..]
    ensures Valid(t[..n] + Pieces(t[n], r) + t[n + 1..])
  {
    TrimValid(t, n, r);
    var left := LeftPart(t[n], r);
    if t[n].end > r.end {
      var x := Interval(r.end, t[n].end);
      RightPartFits(t, n, left, x);
      assert Pieces(t[n], r) == left + [x];
    } else {
      assert left + [] == Pieces(t[n], r);
    }
  }

  /** std::set::insert places x, which lies inside t[n] above the left part, just after it. */
  lemma RightPartFits(t: seq<Interval>, n: nat, left: seq<Interval>, x: Interval)
    requires Valid(t) && n < |t| && Valid(t[..n] + left + t[n + 1..])
    requires t[n].begin < x.begin < x.end == t[n].end
    requires forall i :: 0 <= i < |left| ==> left[i].begin < x.begin
    ensures SetInsert(t[..n] + left + t[n + 1..], x) == t[..n] + (left + [x]) + t[n + 1..]
  {
    var a := t[..n] + left;
    var c := t[n + 1..];
    forall i | 0 <= i < |a|
      ensures a[i].begin < x.begin
    {
      if i < n {
        assert a[i] == t[i];
        assert Sep(t, i, n);
      } else {
        assert a[i] == left[i - n];
      }
    }
    forall i | 0 <= i < |c|
      ensures c[i].begin > x.begin
    {
      assert c[i] == t[n + 1 + i];
      assert Sep(t, n, n + 1 + i);
    }
    SetInsertBetween(a, x, c);
    assert a + [x] + c == t[..n] + (left + [x]) + c;
  }

  /** Before the erase loop's first turn, the state relation holds with nothing erased. */
  lemma NothingErasedYet(s: seq<Interval>, r: Interval, lo: nat)
    requires lo <= |s|
    ensures s == s[..lo] + Rests(s, r, lo, lo) + s[lo..]
  {
    assert Rests(s, r, lo, lo) == [];
  }

  /**
   * One turn of the erase loop: the interval at position n is s[k], still
   * overlapped, and replacing it by its pieces advances the loop state to k + 1.
   */
  lemma EraseTurn(s: seq<Interval>, r: Interval, lo: nat, hi: nat, k: nat, t: seq<Interval>, n: nat)
    requires Valid(s) && r.begin < r.end
    requires lo == EndAfter(s, r.begin) && hi == LowerBound(s, r.end) && lo <= k <= hi
    requires t == s[..lo] + Rests(s, r, lo, k) + s[k..]
    requires n == lo + |Rests(s, r, lo, k)|
    requires n < |t| && t[n].begin < r.end
    ensures k < hi && t[n] == s[k] && t[n].end > r.begin && Valid(t)
    ensures t[..n] + Pieces(t[n], r) + t[n + 1..]
        == s[..lo] + Rests(s, r, lo, k + 1) + s[k + 1..]
    ensures n + |Pieces(t[n], r)| == lo + |Rests(s, r, lo, k + 1)|
  {
    var pieces := Rests(s, r, lo, k);
    assert k < |s|;
    EraseStepShape(s, r, lo, hi, k);
    RestsStep(s, r, lo, k);
    RestsFit(s, r, lo, k);
    SpliceStep(s, lo, k, pieces, Pieces(s[k], r), Rests(s, r, lo, k + 1), t, n);
  }

  /** Replacing the element at position n of s[..lo] + pieces + s[k..] by p. */
  lemma SpliceStep(s: seq<Interval>, lo: nat, k: nat, pieces: seq<Interval>, p: seq<Interval>,
                   next: seq<Interval>, t: seq<Interval>, n: nat)
    requires lo <= k < |s| && pieces + p == next
    requires t == s[..lo] + pieces + s[k..] && n == lo + |pieces|
    ensures n < |t| && t[n] == s[k]
    ensures t[..n] + p + t[n + 1..] == s[..lo] + next + s[k + 1..]
    ensures n + |p| == lo + |next|
  {
    EraseAt(s, lo, pieces, k, t, n);
    assert s[..lo] + pieces + p + s[k + 1..] == s[..lo] + next + s[k + 1..];
  }

  /** The pieces of s[k] extend the rests produced for s[lo..k] to those for s[lo..k+1]. */
  lemma RestsStep(s: seq<Interval>, r: Interval, lo: nat, k: nat)
    requires lo <= k < |s|
    requires lo < k ==> s[k].begin > r.begin && RightRest(s, r, lo, k) == []
    ensures Rests(s, r, lo, k) + Pieces(s[k], r)
        == Rests(s, r, lo, k + 1)
  {
    if lo < k {
      assert LeftPart(s[k], r) == [];
    }
  }

  /** The erase loop stops exactly at LowerBound(remove.end). */
  lemma EraseExit(s: seq<Interval>, r: Interval, lo: nat, hi: nat, k: nat, t: seq<Interval>, n: nat)
    requires Valid(s) && hi == LowerBound(s, r.end) && lo <= k <= hi
    requires t == s[..lo] + Rests(s, r, lo, k) + s[k..]
    requires n == lo + |Rests(s, r, lo, k)|
    requires n == |t| || t[n].begin >= r.end
    ensures k == hi
  {
    if k < |s| {
      EraseAt(s, lo, Rests(s, r, lo, k), k, t, n);
    }
  }

  /** After the erase loop: the representation is EraseSpec and the position is that of the suffix. */
  lemma EraseDone(s: seq<Interval>, r: Interval, hi: nat, t: seq<Interval>, n: nat)
    requires Valid(s) && r.begin < r.end && hi == LowerBound(s, r.end)
    requires EndAfter(s, r.begin) <= hi
    requires t == s[..EndAfter(s, r.begin)] + Rests(s, r, EndAfter(s, r.begin), hi) + s[hi..]
    requires n == EndAfter(s, r.begin) + |Rests(s, r, EndAfter(s, r.begin), hi)|
    ensures Valid(t) && t == EraseSpec(s, r)
    ensures n <= |t| && t[n..] == s[hi..]
    ensures forall i :: n <= i < |t| ==> t[i].begin >= r.end
    ensures forall i :: 0 <= i < n ==> t[i].begin <= r.end
  {
    var lo := EndAfter(s, r.begin);
    EraseValid(s, r);
    EraseResultPosition(s, r, lo, hi, t, n);
  }

  /** After the erase loop, the position reached is that of the untouched suffix. */
  lemma EraseResultPosition(s: seq<Interval>, r: Interval, lo: nat, hi: nat, t: seq<Interval>, n: nat)
    requires Valid(s) && r.begin < r.end
    requires lo == EndAfter(s, r.begin) && hi == LowerBound(s, r.end) && lo <= hi
    requires t == s[..lo] + Rests(s, r, lo, hi) + s[hi..]
    requires n == lo + |Rests(s, r, lo, hi)|
    ensures n <= |t| && t[n..] == s[hi..]
    ensures forall i :: n <= i < |t| ==> t[i].begin >= r.end
    ensures forall i :: 0 <= i < n ==> t[i].begin <= r.end
  {
    var mid := Rests(s, r, lo, hi);
    forall i | 0 <= i < n
      ensures t[i].begin <= r.end
    {
      if i < lo {
        assert t[i] == s[i];
      } else {
        assert t[i] == mid[i - lo];
      }
    }
    forall i | n <= i < |t|
      ensures t[i].begin >= r.end
    {
      assert t[i] == s[hi + (i - n)];
    }
  }

  /** Point-set difference: after erase(r), v is contained iff it was and r misses it. */
  lemma EraseCovers(s: seq<Interval>, r: Interval, v: int)
    requires Valid(s)
    ensures Covers(EraseSpec(s, r), v) <==> Covers(s, v) && !r.Contains(v)
  {
    if r.begin < r.end {
      var lo := EndAfter(s, r.begin);
      var hi := LowerBound(s, r.end);
      EraseLoHi(s, r);
      var mid := Rests(s, r, lo, hi);
      CoversThree(s[..lo], mid, s[hi..], v);
      CoversSplit(s, lo, hi, v);
      RestsContain(s, r, lo, hi, v);
      KeptOutsideErase(s, r, lo, hi, v);
    }
  }

  /**
   * The position erase returns follows the original intervals it removed, so a
   * trimmed right piece lies before it: erasing [2, 5) from {[0, 10)} leaves
   * [0, 2) and [5, 10) and returns end(), not the position of [5, 10).
   */
  lemma ErasePositionPastRightPiece()
    ensures var s, r := [Interval(0, 10)], Interval(2, 5);
      var lo, hi := EndAfter(s, r.begin), LowerBound(s, r.end);
      && lo == 0 && hi == 1
      && EraseSpec(s, r) == [Interval(0, 2), Interval(5, 10)]
      && lo + |Rests(s, r, lo, hi)| == 2 == |EraseSpec(s, r)|
  {
    var s, r := [Interval(0, 10)], Interval(2, 5);
    EraseHoleSplits(s, r, 0);
    var lo, hi := EndAfter(s, r.begin), LowerBound(s, r.end);
    assert lo == 0 && hi == 1;
    assert EraseSpec(s, r) == s[..lo] + Rests(s, r, lo, hi) + s[hi..];
  }

  /**
   * Erasing a hole strictly inside one stored interval splits it into two non-empty
   * pieces and leaves every other interval where it was.
   */
  lemma EraseHoleSplits(s: seq<Interval>, r: Interval, k: nat)
    requires Valid(s) && k < |s|
    requires s[k].begin < r.begin < r.end < s[k].end
    ensures EraseSpec(s, r) == s[..k] + [Interval(s[k].begin, r.begin), Interval(r.end, s[k].end)] + s[k + 1..]
  {
    var lo := EndAfter(s, r.begin);
    var hi := LowerBound(s, r.end);
    Ordered(s, k);
    assert lo <= k by { assert s[k].end > r.begin; }
    assert lo >= k by { assert 0 < k ==> s[k - 1].end < s[k].begin; }
    assert hi == k + 1 by {
      assert s[k].begin < r.end;
      if k + 1 < |s| { assert s[k + 1].begin >= r.end; }
    }
  }

  // ---------------------------------------------------------------------------
  // Bulk operations: insert(set) and erase(set) applied element by element
  // ---------------------------------------------------------------------------

  /** Inserts every interval of adds, in order. */
  function InsertEach(s: seq<Interval>, adds: seq<Interval>): (r: seq<Interval>)
    requires Valid(s)
    ensures Valid(r)
    decreases |adds|
  {
    if adds == [] then s
    else
      InsertValid(s, adds[0]);
      InsertEach(InsertSpec(s, adds[0]), adds[1..])
  }

  /** Inserting a set's own intervals from position j on changes nothing: each is already covered. */
  lemma {:induction false} InsertEachSuffix(s: seq<Interval>, j: nat)
    requires Valid(s) && j <= |s|
    ensures InsertEach(s, s[j..]) == s
    decreases |s| - j
  {
    if j < |s| {
      InsertCoveredUnchanged(s, s[j], j);
      assert s[j..][0] == s[j] && s[j..][1..] == s[j + 1..];
      InsertEachSuffix(s, j + 1);
    }
  }

  /** insert(*this): inserting a set into itself changes nothing. */
  lemma InsertEachSelf(s: seq<Interval>)
    requires Valid(s)
    ensures InsertEach(s, s) == s
  {
    InsertEachSuffix(s, 0);
    assert s[0..] == s;
  }

  /** Erases every interval of removes, in order. */
  function EraseEach(s: seq<Interval>, removes: seq<Interval>): (r: seq<Interval>)
    requires Valid(s)
    ensures Valid(r)
    decreases |removes|
  {
    if removes == [] then s
    else
      EraseValid(s, removes[0]);
      EraseEach(EraseSpec(s, removes[0]), removes[1..])
  }

  /** insert(IntervalSet): point-set union of the two sets. */
  lemma {:induction false} InsertEachCovers(s: seq<Interval>, adds: seq<Interval>, v: int)
    requires Valid(s)
    ensures Covers(InsertEach(s, adds), v) <==> Covers(s, v) || Covers(adds, v)
    decreases |adds|
  {
    if adds != [] {
      InsertValid(s, adds[0]);
      InsertCovers(s, adds[0], v);
      InsertEachCovers(InsertSpec(s, adds[0]), adds[1..], v);
      CoversFirst(adds, v);
    }
  }

  /** erase(IntervalSet): point-set difference of the two sets. */
  lemma {:induction false} EraseEachCovers(s: seq<Interval>, removes: seq<Interval>, v: int)
    requires Valid(s)
    ensures Covers(EraseEach(s, removes), v) <==> Covers(s, v) && !Covers(removes, v)
    decreases |removes|
  {
    if removes != [] {
      EraseValid(s, removes[0]);
      EraseCovers(s, removes[0], v);
      EraseEachCovers(EraseSpec(s, removes[0]), removes[1..], v);
      CoversFirst(removes, v);
    }
  }
}
