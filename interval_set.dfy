/**
 * IntervalSet<int> (interval_set.h): the private std::set<Interval> is the field
 * `ranges`, a seq in set order.  An iterator is an index into `ranges`, with
 * |ranges| standing for end().  insert and erase keep the source's loops, which
 * erase and insert elements of the set while widening or trimming the interval
 * at hand; each is proved against the specification in IntIntervals.
 */
module IntervalSets {
  import opened IntIntervals

  class IntervalSet {
    var ranges: seq<Interval>

    /** The class invariant of std::set under the begin-only order plus the gap rule. */
    ghost predicate Inv()
      reads this
    {
      Valid(ranges)
    }

    /** A default-constructed set is empty. */
    constructor ()
      ensures Inv() && ranges == []
    {
      ranges := [];
    }

    /**
     * insert(add).  An empty add returns end() and changes nothing.  An add covered
     * by a stored interval changes nothing and returns the iterator just past that
     * interval (the std::set::upper_bound position the source returns).  Otherwise
     * the result is the merged interval, which contains all of add.
     */
    method Insert(add0: Interval) returns (it: nat)
      requires Inv()
      modifies this
      ensures Inv()
      ensures ranges == InsertSpec(old(ranges), add0)
      ensures add0.Empty() ==> it == |ranges|
      ensures forall k :: 0 <= k < |old(ranges)| && !add0.Empty() && CoveredBy(old(ranges)[k], add0) ==>
        it == k + 1
      ensures !add0.Empty() && (forall k :: 0 <= k < |old(ranges)| ==> !CoveredBy(old(ranges)[k], add0)) ==>
        it < |ranges| && CoveredBy(ranges[it], add0)
    {
      if add0.begin >= add0.end {
        return |ranges|;
      }
      ghost var s := ranges;
      var add := add0;
      var next := UpperBound(ranges, add.begin);
      ghost var u := next;
      if next > 0 {
        var before := ranges[next - 1];
        if before.end >= add.end {
          InsertCoveredUnchanged(s, add0, next - 1);
          CoveringIndex(s, add0, next - 1);
          return next;
        }
        if before.end >= add.begin {
          next := next - 1;
          add := Interval(before.begin, add.end);
        }
      }
      StartOfMerge(s, add0, u, next, add);
      add := EraseTouching(next, add, add0);
      MergeFinish(s, add0, ranges);
      ranges := SetInsert(ranges, add);
      it := next;
    }

    /**
     * The loop of insert(add0): from position next, erase every stored interval
     * that touches the interval being built (add), widening add's end to cover it.
     * What is left is the prefix before the merge and the suffix after it, and add
     * has become the fused interval.
     */
    method EraseTouching(next: nat, add1: Interval, ghost add0: Interval) returns (add: Interval)
      requires Inv() && add0.begin < add0.end
      requires next == EndReach(ranges, add0.begin) <= UpperBound(ranges, add0.end)
      requires add1.begin == Fused(ranges, add0, next, UpperBound(ranges, add0.end)).begin
      requires add1.end == add0.end
      modifies this
      ensures ranges == old(ranges[..next] + ranges[UpperBound(ranges, add0.end)..])
      ensures add == old(Fused(ranges, add0, next, UpperBound(ranges, add0.end)))
    {
      ghost var s := ranges;
      ghost var lo := next;
      ghost var hi := UpperBound(s, add0.end);
      add := add1;
      ghost var k := lo;
      while next < |ranges| && ranges[next].begin <= add.end
        invariant lo <= k <= hi
        invariant ranges == s[..lo] + s[k..]
        invariant add.begin == Fused(s, add0, lo, hi).begin
        invariant add.end == if lo < k && s[k - 1].end > add0.end then s[k - 1].end else add0.end
        decreases |s| - k
      {
        SpliceAt(s, lo, k, ranges);
        MergeStep(s, add0, lo, hi, k, add.end);
        if ranges[next].end > add.end {
          add := Interval(add.begin, ranges[next].end);
        }
        ranges := ranges[..next] + ranges[next + 1..];
        k := k + 1;
      }
      if k < |s| { SpliceAt(s, lo, k, ranges); }
      MergeExit(s, add0, hi, k, add.end);
    }

    /**
     * erase(remove).  An empty remove returns end() and changes nothing; otherwise
     * the result is the first interval after the erased span, i.e. the position of
     * the first originally stored interval that begins at or after remove.end.
     */
    method Erase(r: Interval) returns (it: nat)
      requires Inv()
      modifies this
      ensures Inv()
      ensures ranges == EraseSpec(old(ranges), r)
      ensures r.Empty() ==> it == |ranges|
      ensures it <= |ranges|
      ensures !r.Empty() ==> ranges[it..] == old(ranges)[LowerBound(old(ranges), r.end)..]
      ensures !r.Empty() ==> forall i :: it <= i < |ranges| ==> ranges[i].begin >= r.end
      ensures !r.Empty() ==> forall i :: 0 <= i < it ==> ranges[i].begin <= r.end
    {
      if r.begin >= r.end {
        return |ranges|;
      }
      ghost var s := ranges;
      ghost var hi := LowerBound(s, r.end);
      var next := UpperBound(ranges, r.begin);
      if next > 0 && ranges[next - 1].end > r.begin {
        next := next - 1;
      }
      StartOfErase(s, r, next);
      next := EraseOverlapping(s, r, hi, next);
      EraseDone(s, r, hi, ranges, next);
      it := next;
    }

    /**
     * The loop of erase(remove): from position next, replace every stored interval
     * that begins before remove.end by its pieces outside remove.  What is left is
     * the prefix, the pieces and the suffix, and next is the position of the suffix.
     */
    method EraseOverlapping(ghost s: seq<Interval>, r: Interval, ghost hi: nat, start: nat)
      returns (next: nat)
      requires Valid(s) && r.begin < r.end && ranges == s
      requires start == EndAfter(s, r.begin) <= hi == LowerBound(s, r.end)
      modifies this
      ensures ranges == s[..start] + Rests(s, r, start, hi) + s[hi..]
      ensures next == start + |Rests(s, r, start, hi)|
    {
      ghost var lo: nat := start;
      ghost var k: nat := lo;
      ghost var done: seq<Interval> := [];
      next := start;
      NothingErasedYet(s, r, lo);
      while next < |ranges| && ranges[next].begin < r.end
        invariant lo <= k <= hi && done == Rests(s, r, lo, k)
        invariant ranges == s[..lo] + done + s[k..]
        invariant next == lo + |done|
        decreases |s| - k
      {
        next := TrimOverlap(s, r, lo, hi, k, next);
        k := k + 1;
        done := Rests(s, r, lo, k);
      }
      EraseExit(s, r, lo, hi, k, ranges, next);
    }

    /**
     * One turn of erase's loop at s[k], found at position next: the overlapped
     * interval is erased and its parts outside remove are inserted back; the result
     * is the position of the interval that followed it.
     */
    method TrimOverlap(ghost s: seq<Interval>, r: Interval, ghost lo: nat, ghost hi: nat, ghost k: nat, next: nat)
      returns (after: nat)
      requires Valid(s) && r.begin < r.end
      requires lo == EndAfter(s, r.begin) && hi == LowerBound(s, r.end) && lo <= k <= hi
      requires ranges == s[..lo] + Rests(s, r, lo, k) + s[k..] && next == lo + |Rests(s, r, lo, k)|
      requires next < |ranges| && ranges[next].begin < r.end
      modifies this
      ensures k < hi
      ensures ranges == s[..lo] + Rests(s, r, lo, k + 1) + s[k + 1..]
      ensures after == lo + |Rests(s, r, lo, k + 1)|
    {
      EraseTurn(s, r, lo, hi, k, ranges, next);
      ghost var t := ranges;
      var overlap := ranges[next];
      TrimLeft(t, next, r);
      TrimRight(t, next, r);
      ranges := ranges[..next] + ranges[next + 1..];
      after := next;
      if overlap.begin < r.begin {
        ranges := SetInsert(ranges, Interval(overlap.begin, r.begin));
        after := after + 1;
      }
      if overlap.end > r.end {
        ranges := SetInsert(ranges, Interval(r.end, overlap.end));
        after := after + 1;
      }
    }

    /** overlap_begin(t): the first stored interval that ends after t. */
    function OverlapBegin(t: int): (k: nat)
      reads this
      requires Inv()
      ensures k <= |ranges|
      ensures forall i :: 0 <= i < k ==> ranges[i].end <= t
      ensures forall i :: k <= i < |ranges| ==> ranges[i].end > t
    {
      IntIntervals.OverlapBegin(ranges, t)
    }

    /** overlap_end(t): the first stored interval that begins at or after t. */
    function OverlapEnd(t: int): (k: nat)
      reads this
      requires Inv()
      ensures k <= |ranges|
      ensures forall i :: 0 <= i < k ==> ranges[i].begin < t
      ensures forall i :: k <= i < |ranges| ==> ranges[i].begin >= t
    {
      LowerBound(ranges, t)
    }

    /** contains(v): half-open membership in one of the stored intervals. */
    function Contains(v: int): (b: bool)
      reads this
      requires Inv()
      ensures b <==> Covers(ranges, v)
    {
      ContainsQuery(ranges, v)
    }

    /** empty(): no interval is stored, so no point is covered. */
    function IsEmpty(): (b: bool)
      reads this
      requires Inv()
      ensures b <==> forall v :: !Covers(ranges, v)
    {
      if ranges == [] then true
      else
        assert Covers(ranges, ranges[0].begin);
        false
    }

    /** count(): the number of stored intervals. */
    function Count(): (n: nat)
      reads this
      ensures n == |ranges|
    {
      |ranges|
    }

    /** insert(IntervalSet): every interval of other is inserted in set order. */
    method InsertAll(other: IntervalSet)
      requires Inv() && other.Inv()
      modifies this
      ensures Inv()
      ensures ranges == InsertEach(old(ranges), old(other.ranges))
      ensures forall v :: Covers(ranges, v) <==> Covers(old(ranges), v) || Covers(old(other.ranges), v)
      ensures other == this ==> ranges == old(ranges)
    {
      ghost var s := ranges;
      if other == this {
        InsertEachSelf(s);
      }
      var src := other.ranges;
      var i := 0;
      while i < |src|
        invariant 0 <= i <= |src| && Inv()
        invariant InsertEach(s, src) == InsertEach(ranges, src[i..])
      {
        assert src[i..][1..] == src[i + 1..];
        ghost var before := ranges;
        var _ := Insert(src[i]);
        assert InsertEach(before, src[i..]) == InsertEach(ranges, src[i + 1..]);
        i := i + 1;
      }
      assert src[i..] == [];
      forall v | true
        ensures Covers(ranges, v) <==> Covers(s, v) || Covers(src, v)
      {
        InsertEachCovers(s, src, v);
      }
    }

    /** erase(IntervalSet): every interval of other is erased in set order. */
    method EraseAll(other: IntervalSet)
      requires Inv() && other.Inv() && other != this
      modifies this
      ensures Inv()
      ensures ranges == EraseEach(old(ranges), other.ranges)
      ensures forall v :: Covers(ranges, v) <==> Covers(old(ranges), v) && !Covers(other.ranges, v)
    {
      ghost var s := ranges;
      var i := 0;
      while i < |other.ranges|
        invariant 0 <= i <= |other.ranges| && Inv()
        invariant EraseEach(s, other.ranges) == EraseEach(ranges, other.ranges[i..])
      {
        assert other.ranges[i..][1..] == other.ranges[i + 1..];
        var _ := Erase(other.ranges[i]);
        i := i + 1;
      }
      assert other.ranges[i..] == [];
      forall v | true
        ensures Covers(ranges, v) <==> Covers(s, v) && !Covers(other.ranges, v)
      {
        EraseEachCovers(s, other.ranges, v);
      }
    }
  }
}
