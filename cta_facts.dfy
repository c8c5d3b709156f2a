/**
 * What the three CTA-861 passes of display_mode_gen.py do to the dictionary of
 * records, proved about the functions in CtaTables, and the two worked examples.
 */
module CtaFacts {
  import opened XYs
  import opened DisplayModes
  import opened Text
  import opened CtaTables

  // ---------------------------------------------------------------------------
  // The line loops
  // ---------------------------------------------------------------------------

  /** Running a table in two parts runs the second from where the first stopped; an exception ends it. */
  lemma {:induction false} RunLinesAppend(m: VicModes, a: seq<string>, b: seq<string>,
                                          step: (VicModes, string) -> Option<VicModes>)
    ensures RunLines(m, a + b, step) ==
      match RunLines(m, a, step)
      case None => None
      case Some(m1) => RunLines(m1, b, step)
    decreases |a|
  {
    if a == [] {
      assert a + b == b;
    } else {
      assert (a + b)[0] == a[0];
      assert (a + b)[1..] == a[1..] + b;
      match step(m, a[0])
      case None =>
      case Some(m1) => RunLinesAppend(m1, a[1..], b, step);
    }
  }

  /** A property every line step keeps holds after the whole loop. */
  lemma {:induction false} RunLinesKeeps(m: VicModes, lines: seq<string>,
                                         step: (VicModes, string) -> Option<VicModes>, p: VicModes -> bool)
    requires p(m)
    requires forall m1, line :: p(m1) && step(m1, line).Some? ==> p(step(m1, line).value)
    ensures RunLines(m, lines, step).Some? ==> p(RunLines(m, lines, step).value)
    decreases |lines|
  {
    if lines != [] {
      match step(m, lines[0])
      case None =>
      case Some(m1) => RunLinesKeeps(m1, lines[1..], step, p);
    }
  }

  // ---------------------------------------------------------------------------
  // Table 1
  // ---------------------------------------------------------------------------

  /** Every listed VIC gets the row's record over what it had; the others are untouched. */
  lemma {:induction false} SetTimingsEffect(m: VicModes, vics: seq<int>, t: Timing)
    ensures forall v :: v in SetTimings(m, vics, t) <==> v in m || v in vics
    ensures forall v :: v in vics ==> v in SetTimings(m, vics, t) && SetTimings(m, vics, t)[v] == TimingMode(Lookup(m, v), t)
    ensures forall v :: v in m && v !in vics ==> v in SetTimings(m, vics, t) && SetTimings(m, vics, t)[v] == m[v]
    decreases |vics|
  {
    if vics != [] {
      var m1 := m[vics[0] := TimingMode(Lookup(m, vics[0]), t)];
      SetTimingsEffect(m1, vics[1..], t);
      forall v | v in vics
        ensures v in SetTimings(m, vics, t) && SetTimings(m, vics, t)[v] == TimingMode(Lookup(m, v), t)
      {
        if v != vics[0] {
          assert v in vics[1..];
        }
      }
      forall v | v in vics[1..]
        ensures v in vics
      {
      }
    }
  }

  /**
   * A Table 1 row that passes its asserts creates or overwrites the record of every
   * VIC it lists: size, scan size, doubling (0 for Prog, -1 for Int), int(MHz * 1e3)
   * and round(Hz) come from the row, the sync fields and aspect from what was there,
   * and the blanking sums hold, the vertical blank doubled for an interlaced format.
   */
  lemma TimingRowSets(m: VicModes, t: Timing, r: VicModes)
    requires ApplyTiming(m, t) == Some(r)
    ensures forall v :: v in r <==> v in m || v in t.vics
    ensures forall v :: v in m && v !in t.vics ==> r[v] == m[v]
    ensures forall v :: v in t.vics ==>
      && r[v].size == t.size && r[v].scanSize == t.scanSize && r[v].doubling == XY(0, t.vDoubling)
      && r[v].pixelKhz == Trunc(t.pixelMhz * 1000.0) && r[v].nominalHz == RoundHalfEven(t.vHz)
      && r[v].syncStart == Lookup(m, v).syncStart && r[v].syncEnd == Lookup(m, v).syncEnd
      && r[v].syncPolarity == Lookup(m, v).syncPolarity && r[v].aspect == Lookup(m, v).aspect
      && r[v].scanSize.x == r[v].size.x + t.hBlank
      && r[v].scanSize.y as real == r[v].size.y as real + t.vBlank * LineFactor(r[v].doubling) as real
  {
    SetTimingsEffect(m, t.vics, t);
  }

  /**
   * A VIC listed by two rows ends with the later row's record: the earlier row's
   * assignments leave no trace on it.
   */
  lemma LaterRowWins(m: VicModes, t1: Timing, t2: Timing, v: int)
    requires v in t1.vics && v in t2.vics
    requires ApplyTiming(m, t1).Some? && ApplyTiming(ApplyTiming(m, t1).value, t2).Some?
    ensures v in ApplyTiming(ApplyTiming(m, t1).value, t2).value
    ensures ApplyTiming(ApplyTiming(m, t1).value, t2).value[v] == TimingMode(Lookup(m, v), t2)
  {
    var m1 := ApplyTiming(m, t1).value;
    SetTimingsEffect(m, t1.vics, t1);
    SetTimingsEffect(m1, t2.vics, t2);
  }

  // ---------------------------------------------------------------------------
  // Table 2
  // ---------------------------------------------------------------------------

  /** Applying a row's sync values a second time changes nothing. */
  lemma SyncModeTwice(o: DisplayMode, s: Sync)
    ensures SyncMode(SyncMode(o, s), s) == SyncMode(o, s)
  {
    assert SyncMode(o, s).doubling == o.doubling && SyncMode(o, s).size == o.size;
  }

  /**
   * The loop over a Table 2 row's VICs finishes exactly when every VIC has a record
   * and passes the checks, and then exactly the listed records are updated.
   */
  lemma {:induction false} SetSyncsEffect(m: VicModes, vics: seq<int>, s: Sync)
    ensures SetSyncs(m, vics, s).Some? <==>
      forall v :: v in vics ==> v in m && SyncChecks(SyncMode(m[v], s), s)
    ensures SetSyncs(m, vics, s).Some? ==>
      SetSyncs(m, vics, s).value.Keys == m.Keys
      && forall v :: v in m ==> SetSyncs(m, vics, s).value[v] == if v in vics then SyncMode(m[v], s) else m[v]
    decreases |vics|
  {
    if vics != [] {
      assert vics[0] in vics;
      if vics[0] in m && SyncChecks(SyncMode(m[vics[0]], s), s) {
        var m1 := m[vics[0] := SyncMode(m[vics[0]], s)];
        assert SetSyncs(m, vics, s) == SetSyncs(m1, vics[1..], s);
        assert m1.Keys == m.Keys;
        forall v | v in m
          ensures SyncMode(m1[v], s) == SyncMode(m[v], s)
        {
          if v == vics[0] {
            SyncModeTwice(m[v], s);
          }
        }
        SetSyncsEffect(m1, vics[1..], s);
        assert (forall v :: v in vics ==> v in m && SyncChecks(SyncMode(m[v], s), s)) <==>
               (forall v :: v in vics[1..] ==> v in m1 && SyncChecks(SyncMode(m1[v], s), s)) by {
          assert forall v :: v in vics <==> v == vics[0] || v in vics[1..];
        }
      } else {
        var v := vics[0];
        assert v in vics && !(v in m && SyncChecks(SyncMode(m[v], s), s));
      }
    }
  }

  /**
   * A Table 2 row that passes: each listed VIC's sync start is its size plus the front
   * porch, its sync end the start plus the pulse width, the vertical amounts doubled
   * when interlaced; the polarities are set; the horizontal back porch closes the
   * scan exactly and the vertical one leaves 0 to 2 lines; nothing else changes.
   */
  lemma SyncRowSets(m: VicModes, s: Sync, r: VicModes)
    requires ApplySync(m, s) == Some(r)
    ensures r.Keys == m.Keys
    ensures forall v :: v in m && v !in s.vics ==> r[v] == m[v]
    ensures forall v :: v in s.vics ==> v in m
    ensures forall v :: v in s.vics && v in m ==>
      var o := m[v];
      var i := LineFactor(o.doubling);
      && r[v].syncStart == XY(o.size.x + s.hFront, o.size.y + s.vFront * i)
      && r[v].syncEnd == XY(r[v].syncStart.x + s.hWidth, r[v].syncStart.y + s.vWidth * i)
      && r[v].syncPolarity == XY(s.hPolarity, s.vPolarity)
      && r[v].(syncStart := o.syncStart, syncEnd := o.syncEnd, syncPolarity := o.syncPolarity) == o
      && r[v].scanSize.x == r[v].syncEnd.x + s.hBack
      && 0 <= r[v].scanSize.y - (r[v].syncEnd.y + s.vBack * i) <= 2
  {
    SetSyncsEffect(m, s.vics, s);
  }

  /** A Table 2 row naming a VIC that Table 1 did not create raises KeyError. */
  lemma SyncNeedsRecord(m: VicModes, s: Sync, v: int)
    requires v in s.vics && v !in m
    ensures ApplySync(m, s) == None
  {
    SetSyncsEffect(m, s.vics, s);
  }

  // ---------------------------------------------------------------------------
  // Table 3
  // ---------------------------------------------------------------------------

  /**
   * A Table 3 row that passes: its VIC had a record, whose doubling agrees with the
   * name's p/i suffix and whose size is the name's (parenthesised) width and height;
   * aspect is set; a pixel-doubled format (the parenthesised width twice the leading
   * one) gets the leading width, floor-halved horizontal timings and pixel clock and
   * doubling.x = 1, with nothing vertical changed; any other format keeps its
   * timings.  No other record changes.
   */
  lemma FormatRowSets(m: VicModes, f: Format, r: VicModes)
    requires ApplyFormat(m, f) == Some(r)
    ensures f.vic in m && r.Keys == m.Keys
    ensures forall v :: v in m && v != f.vic ==> r[v] == m[v]
    ensures r[f.vic].aspect == f.aspect
    ensures f.suffix == (if m[f.vic].doubling.y < 0 then "i" else "p")
    ensures XY(f.name.x, f.name.v) == m[f.vic].size
    ensures f.name.x == f.name.h ==> r[f.vic] == m[f.vic].(aspect := f.aspect)
    ensures f.name.x != f.name.h ==>
      var o := m[f.vic];
      var n := r[f.vic];
      && f.name.x == 2 * f.name.h
      && n.size == XY(f.name.h, o.size.y) && n.doubling == XY(1, o.doubling.y)
      && 2 * n.pixelKhz <= o.pixelKhz <= 2 * n.pixelKhz + 1
      && 2 * n.scanSize.x <= o.scanSize.x <= 2 * n.scanSize.x + 1
      && 2 * n.syncStart.x <= o.syncStart.x <= 2 * n.syncStart.x + 1
      && 2 * n.syncEnd.x <= o.syncEnd.x <= 2 * n.syncEnd.x + 1
      && n.scanSize.y == o.scanSize.y && n.syncStart.y == o.syncStart.y && n.syncEnd.y == o.syncEnd.y
      && n.syncPolarity == o.syncPolarity && n.nominalHz == o.nominalHz
    ensures PixelAspectHolds(f.pixelAspect, r[f.vic].aspect, r[f.vic].size)
  {
  }

  /** A table made only of blank lines and rows without a format leaves the records as they were. */
  lemma {:induction false} NoFormatRowsSkipped(m: VicModes, lines: seq<string>)
    requires forall k :: 0 <= k < |lines| ==>
      Strip(lines[k]) == [] || (|Fields(lines[k])| >= 2 && NoFormat(Fields(lines[k])[1]))
    ensures FormatPass(m, lines) == Some(m)
    decreases |lines|
  {
    if lines != [] {
      assert FormatLine(m, lines[0]) == Some(m);
      assert forall k :: 0 <= k < |lines[1..]| ==> lines[1..][k] == lines[k + 1];
      NoFormatRowsSkipped(m, lines[1..]);
    }
  }

  // ---------------------------------------------------------------------------
  // The records the passes build
  // ---------------------------------------------------------------------------

  lemma {:induction false} SetTimingsDoublings(m: VicModes, vics: seq<int>, t: Timing)
    requires TableDoublings(m) && t.vDoubling in {0, -1}
    ensures TableDoublings(SetTimings(m, vics, t))
    decreases |vics|
  {
    if vics != [] {
      SetTimingsDoublings(m[vics[0] := TimingMode(Lookup(m, vics[0]), t)], vics[1..], t);
    }
  }

  lemma {:induction false} SetSyncsDoublings(m: VicModes, vics: seq<int>, s: Sync)
    requires TableDoublings(m)
    ensures SetSyncs(m, vics, s).Some? ==> TableDoublings(SetSyncs(m, vics, s).value)
    decreases |vics|
  {
    if vics != [] && vics[0] in m {
      SetSyncsDoublings(m[vics[0] := SyncMode(m[vics[0]], s)], vics[1..], s);
    }
  }

  lemma TimingLineDoublings(m: VicModes, line: string)
    requires TableDoublings(m) && TimingLine(m, line).Some?
    ensures TableDoublings(TimingLine(m, line).value)
  {
    if Strip(line) != [] {
      var t := ParseTiming(Fields(line)).value;
      SetTimingsDoublings(m, t.vics, t);
    }
  }

  lemma SyncLineDoublings(m: VicModes, line: string)
    requires TableDoublings(m) && SyncLine(m, line).Some?
    ensures TableDoublings(SyncLine(m, line).value)
  {
    if Strip(line) != [] {
      var s := ParseSync(Fields(line)).value;
      SetSyncsDoublings(m, s.vics, s);
    }
  }

  lemma FormatDoublings(m: VicModes, f: Format)
    requires TableDoublings(m) && ApplyFormat(m, f).Some?
    ensures TableDoublings(ApplyFormat(m, f).value)
  {
  }

  lemma FormatLineDoublings(m: VicModes, line: string)
    requires TableDoublings(m) && FormatLine(m, line).Some?
    ensures TableDoublings(FormatLine(m, line).value)
  {
    var f := Fields(line);
    if Strip(line) != [] && !NoFormat(f[1]) {
      FormatDoublings(m, ParseFormat(f).value);
    }
  }

  /**
   * Every record the three passes build has doubling.x in {0, 1} and doubling.y in
   * {0, -1}, so i_double = 2 ** -doubling.y is the LineFactor the passes use.
   */
  lemma TablesKeepDoublings(table1: string, table2: string, table3: string)
    ensures CtaModes(table1, table2, table3).Some? ==> TableDoublings(CtaModes(table1, table2, table3).value)
  {
    forall m1, line | TableDoublings(m1) && TimingLine(m1, line).Some?
      ensures TableDoublings(TimingLine(m1, line).value)
    {
      TimingLineDoublings(m1, line);
    }
    forall m1, line | TableDoublings(m1) && SyncLine(m1, line).Some?
      ensures TableDoublings(SyncLine(m1, line).value)
    {
      SyncLineDoublings(m1, line);
    }
    forall m1, line | TableDoublings(m1) && FormatLine(m1, line).Some?
      ensures TableDoublings(FormatLine(m1, line).value)
    {
      FormatLineDoublings(m1, line);
    }
    RunLinesKeeps(map[], Split(table1, "\n"), TimingLine, TableDoublings);
    match TimingPass(map[], Split(table1, "\n"))
    case None =>
    case Some(m1) =>
      RunLinesKeeps(m1, Split(table2, "\n"), SyncLine, TableDoublings);
      match SyncPass(m1, Split(table2, "\n"))
      case None =>
      case Some(m2) =>
        RunLinesKeeps(m2, Split(table3, "\n"), FormatLine, TableDoublings);
  }

  // ---------------------------------------------------------------------------
  // Worked examples
  // ---------------------------------------------------------------------------

  /** The three passes over one converted row of each table, from an empty dictionary. */
  function ThreeRows(t: Timing, s: Sync, f: Format): Option<VicModes> {
    match ApplyTiming(map[], t)
    case None => None
    case Some(m1) =>
      match ApplySync(m1, s)
      case None => None
      case Some(m2) => ApplyFormat(m2, f)
  }

  /** VIC 4 (1280x720p at 60 Hz): "4,69 1280 720 Prog 1650 370 750 30 45.000 60.0003 74.250" converted. */
  const Vic4Timing := Timing([4, 69], XY(1280, 720), 0, XY(1650, 750), 370, 30.0, 45.0, 60.0003, 74.25)
  /** "4,69 2 110 40 220 P 5 5 20 P 1 ..." converted. */
  const Vic4Sync := Sync([4, 69], 110, 40, 220, 1, 5, 5, 20, 1)
  /** "4 1280x720p 59.94Hz/60Hz 16:9 1:1" converted. */
  const Vic4Format := Format(4, "p", FormatName(1280, 1280, 720), XY(16, 9), Some(XY(1, 1)))

  lemma Vic4Example()
    ensures ThreeRows(Vic4Timing, Vic4Sync, Vic4Format).Some?
    ensures ThreeRows(Vic4Timing, Vic4Sync, Vic4Format).value[4] ==
      DisplayMode(XY(1280, 720), XY(1650, 750), XY(1390, 725), XY(1430, 730), XY(1, 1),
                  XY(0, 0), XY(16, 9), 74250, 60)
  {
  }

  /** VIC 6 (720(1440)x480i): "6,7 1440 480 Int 1716 276 525 22.5 15.734 59.9403 27.000" converted. */
  const Vic6Timing := Timing([6, 7], XY(1440, 480), -1, XY(1716, 525), 276, 22.5, 15.734, 59.9403, 27.0)
  /** "6,7 3 38 124 114 N 4 3 15 N 4 ..." converted. */
  const Vic6Sync := Sync([6, 7], 38, 124, 114, -1, 4, 3, 15, -1)
  /** "6 720(1440)x480i 59.94Hz/60Hz 4:3 8:9" converted. */
  const Vic6Format := Format(6, "i", FormatName(720, 1440, 480), XY(4, 3), Some(XY(8, 9)))

  lemma Vic6Example()
    ensures ThreeRows(Vic6Timing, Vic6Sync, Vic6Format).Some?
    ensures ThreeRows(Vic6Timing, Vic6Sync, Vic6Format).value[6] ==
      DisplayMode(XY(720, 480), XY(858, 525), XY(739, 488), XY(801, 494), XY(-1, -1),
                  XY(1, -1), XY(4, 3), 13500, 60)
  {
  }
}
