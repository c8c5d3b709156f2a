/**
 * The frame-selection rule of ThreadFramePlayer::run in frame_player.cpp.
 * The timeline is a std::map from scheduled time to frame, here the map's
 * entries in key order; one iteration of the run loop, given the clock
 * reading and whether the driver's previous update is done, decides to show
 * a frame, to wait for one, or to idle, and reports the frames it skipped.
 */
module FramePlayers {

  datatype Entry<F> = Entry(time: real, frame: F)

  /** The entries of a std::map: strictly increasing keys. */
  predicate Sorted<F>(tl: seq<Entry<F>>) {
    forall i, j :: 0 <= i < j < |tl| ==> tl[i].time < tl[j].time
  }

  /** timeline.upper_bound(t): the first entry scheduled after t, or |tl| for end(). */
  function UpperBound<F>(tl: seq<Entry<F>>, t: real): (u: nat)
    requires Sorted(tl)
    ensures u <= |tl|
    ensures forall i :: 0 <= i < u ==> tl[i].time <= t
    ensures forall i :: u <= i < |tl| ==> tl[i].time > t
  {
    UpperBoundFrom(tl, t, 0)
  }

  function UpperBoundFrom<F>(tl: seq<Entry<F>>, t: real, k: nat): (u: nat)
    requires Sorted(tl) && k <= |tl|
    requires forall i :: 0 <= i < k ==> tl[i].time <= t
    ensures k <= u <= |tl|
    ensures forall i :: 0 <= i < u ==> tl[i].time <= t
    ensures forall i :: u <= i < |tl| ==> tl[i].time > t
    decreases |tl| - k
  {
    if k == |tl| || tl[k].time > t then k else UpperBoundFrom(tl, t, k + 1)
  }

  /**
   * The candidate: the latest entry due by now if it is later than the one
   * last shown, otherwise the first entry after now (|tl| if there is none).
   */
  function Candidate<F>(tl: seq<Entry<F>>, now: real, shown: real): (c: nat)
    requires Sorted(tl)
    ensures c <= |tl|
  {
    var u := UpperBound(tl, now);
    if u > 0 && tl[u - 1].time > shown then u - 1 else u
  }

  /** What one iteration of the run loop does. */
  datatype Action<F> =
    | Pending                                          // update not done: try again in 5ms
    | Idle(skipped: seq<real>)                         // no more frames: wait for a wakeup
    | Wait(until: real, skipped: seq<real>)            // the candidate is in the future
    | Show(time: real, frame: F, skipped: seq<real>)   // driver->update with the candidate

  function Times<F>(es: seq<Entry<F>>): (ts: seq<real>)
    ensures |ts| == |es|
    ensures forall k :: 0 <= k < |es| ==> ts[k] == es[k].time
  {
    seq(|es|, k requires 0 <= k < |es| => es[k].time)
  }

  /** The skip log runs from upper_bound(shown) up to the candidate. */
  lemma SkipRange<F>(tl: seq<Entry<F>>, now: real, shown: real)
    requires Sorted(tl) && shown <= now
    ensures UpperBound(tl, shown) <= Candidate(tl, now, shown)
  {
    var u := UpperBound(tl, now);
    if u < |tl| {
      assert tl[u].time > shown;
    }
  }

  /** One iteration of the loop, for the timeline and shown time it starts from. */
  function StepAction<F>(tl: seq<Entry<F>>, shown: real, now: real, done: bool): (a: Action<F>)
    requires Sorted(tl) && shown <= now
    ensures a.Show? ==> a.time <= now
    ensures a.Wait? ==> a.until > now
  {
    if !done then Pending
    else
      var c := Candidate(tl, now, shown);
      SkipRange(tl, now, shown);
      var skipped := Times(tl[UpperBound(tl, shown)..c]);
      if c == |tl| then Idle(skipped)
      else if tl[c].time > now then Wait(tl[c].time, skipped)
      else Show(tl[c].time, tl[c].frame, skipped)
  }

  /** The skip log's loop: for (s = upper_bound(shown); s != show; ++s). */
  method SkippedTimes<F>(tl: seq<Entry<F>>, from: nat, show: nat) returns (skipped: seq<real>)
    requires from <= show <= |tl|
    ensures skipped == Times(tl[from..show])
  {
    var s := from;
    skipped := [];
    while s != show
      invariant from <= s <= show
      invariant skipped == Times(tl[from..s])
    {
      assert tl[from..s + 1] == tl[from..s] + [tl[s]];
      skipped := skipped + [tl[s].time];
      s := s + 1;
    }
  }

  class FramePlayer<F> {
    var timeline: seq<Entry<F>>
    var shown: real

    predicate Valid()
      reads this
    {
      Sorted(timeline)
    }

    constructor ()
      ensures Valid() && timeline == [] && shown == 0.0
    {
      timeline := [];
      shown := 0.0;
    }

    /** set_timeline: the whole timeline is replaced; shown stays. */
    method SetTimeline(tl: seq<Entry<F>>)
      requires Sorted(tl)
      modifies this
      ensures Valid() && timeline == tl && shown == old(shown)
    {
      timeline := tl;
    }

    /** last_shown: the scheduled time of the frame shown last. */
    method LastShown() returns (t: real)
      ensures t == shown
    {
      t := shown;
    }

    /**
     * One iteration of run(). now is the steady clock's reading, which is
     * never earlier than the time of a frame shown before.
     */
    method Step(now: real, done: bool) returns (a: Action<F>)
      requires Valid() && shown <= now
      modifies this
      ensures Valid() && timeline == old(timeline) && shown <= now
      ensures a == StepAction(old(timeline), old(shown), now, done)
      ensures shown == if a.Show? then a.time else old(shown)
    {
      if !done {
        return Pending;
      }
      var show := UpperBound(timeline, now);
      if show != 0 {
        var before := show - 1;
        if timeline[before].time > shown {
          show := before;
        }
      }
      assert show == Candidate(timeline, now, shown);
      SkipRange(timeline, now, shown);
      var skipped := SkippedTimes(timeline, UpperBound(timeline, shown), show);
      if show == |timeline| {
        return Idle(skipped);
      }
      if timeline[show].time > now {
        return Wait(timeline[show].time, skipped);
      }
      a := Show(timeline[show].time, timeline[show].frame, skipped);
      shown := timeline[show].time;
    }
  }

  /** Nothing is shown while the previous update is pending. */
  lemma PendingShowsNothing<F>(tl: seq<Entry<F>>, shown: real, now: real, done: bool)
    requires Sorted(tl) && shown <= now
    ensures StepAction(tl, shown, now, done) == Pending <==> !done
  {
  }

  /**
   * A shown frame is a timeline entry that is due, is later than the one shown
   * before, and is the latest entry due: none lies between it and now.
   */
  lemma ShowIsLatestDue<F>(tl: seq<Entry<F>>, shown: real, now: real, done: bool)
    requires Sorted(tl) && shown <= now
    requires StepAction(tl, shown, now, done).Show?
    ensures var a := StepAction(tl, shown, now, done);
      shown < a.time <= now &&
      (exists i :: 0 <= i < |tl| && tl[i] == Entry(a.time, a.frame)) &&
      (forall i :: 0 <= i < |tl| && tl[i].time > a.time ==> tl[i].time > now)
  {
    var c := Candidate(tl, now, shown);
    var u := UpperBound(tl, now);
    assert c == u - 1;
    assert tl[c] == Entry(tl[c].time, tl[c].frame);
  }

  /**
   * A wait is for the first entry after now, and only when no entry later
   * than the shown one is due; nothing is skipped then.
   */
  lemma WaitIsForNextFrame<F>(tl: seq<Entry<F>>, shown: real, now: real, done: bool)
    requires Sorted(tl) && shown <= now
    requires StepAction(tl, shown, now, done).Wait?
    ensures var a := StepAction(tl, shown, now, done);
      a.until > now &&
      (exists i :: 0 <= i < |tl| && tl[i].time == a.until) &&
      (forall i :: 0 <= i < |tl| && tl[i].time > now ==> tl[i].time >= a.until) &&
      (forall i :: 0 <= i < |tl| && tl[i].time > shown ==> tl[i].time > now) &&
      a.skipped == []
  {
    var u := UpperBound(tl, now);
    assert Candidate(tl, now, shown) == u;
    assert u == 0 || tl[u - 1].time <= shown;
    forall i | 0 <= i < |tl| && tl[i].time > now
      ensures tl[i].time >= tl[u].time
    {
      assert i >= u;
    }
    assert UpperBound(tl, shown) == u;
  }

  /** Idling means every entry is at or before the one shown last; nothing is skipped. */
  lemma IdleMeansExhausted<F>(tl: seq<Entry<F>>, shown: real, now: real, done: bool)
    requires Sorted(tl) && shown <= now
    requires StepAction(tl, shown, now, done).Idle?
    ensures forall i :: 0 <= i < |tl| ==> tl[i].time <= shown
    ensures StepAction(tl, shown, now, done).skipped == []
  {
    var u := UpperBound(tl, now);
    assert u == |tl|;
    forall i | 0 <= i < |tl|
      ensures tl[i].time <= shown
    {
      assert tl[i].time <= tl[u - 1].time;
    }
    assert UpperBound(tl, shown) == |tl|;
  }

  /**
   * The skipped entries are exactly those strictly between the frame shown
   * before and the frame shown now, in order; all of them are earlier than the
   * new shown time, so no later step can show them.
   */
  lemma SkippedAreBetween<F>(tl: seq<Entry<F>>, shown: real, now: real, done: bool)
    requires Sorted(tl) && shown <= now
    requires StepAction(tl, shown, now, done).Show?
    ensures var a := StepAction(tl, shown, now, done);
      (forall k :: 0 <= k < |a.skipped| ==> shown < a.skipped[k] < a.time) &&
      (forall k, l :: 0 <= k < l < |a.skipped| ==> a.skipped[k] < a.skipped[l]) &&
      (forall i :: 0 <= i < |tl| && shown < tl[i].time < a.time ==> tl[i].time in a.skipped)
  {
    var c := Candidate(tl, now, shown);
    var s := UpperBound(tl, shown);
    SkipRange(tl, now, shown);
    SliceBetween(tl, shown, s, c);
  }

  /** The times from upper_bound(shown) up to an entry c lie strictly between, in order, and are all such. */
  lemma SliceBetween<F>(tl: seq<Entry<F>>, shown: real, s: nat, c: nat)
    requires Sorted(tl) && s == UpperBound(tl, shown) && s <= c < |tl|
    ensures var ts := Times(tl[s..c]);
      (forall k :: 0 <= k < |ts| ==> shown < ts[k] < tl[c].time) &&
      (forall k, l :: 0 <= k < l < |ts| ==> ts[k] < ts[l]) &&
      (forall i :: 0 <= i < |tl| && shown < tl[i].time < tl[c].time ==> tl[i].time in ts)
  {
    var ts := Times(tl[s..c]);
    forall k | 0 <= k < |ts|
      ensures ts[k] == tl[s + k].time
    {
      assert tl[s..c][k] == tl[s + k];
    }
    forall i | 0 <= i < |tl| && shown < tl[i].time < tl[c].time
      ensures tl[i].time in ts
    {
      assert s <= i < c;
      assert ts[i - s] == tl[i].time;
    }
  }
}
