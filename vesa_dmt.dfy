/**
 * The VESA DMT pass of display_mode_gen.py: the table's text is cut into blocks at
 * each "Detailed Timing Parameters" heading, each block's "key = value; // comment"
 * lines are read into a dictionary, and every non-empty dictionary becomes one
 * DisplayMode appended to vesa_dmt_modes.  None stands for an exception (a line
 * without '=', a missing key, a failed float(), a division by zero, a failed
 * assert), which ends the generator without output.
 */
module VesaDmt {
  import opened XYs
  import opened DisplayModes
  import opened Text

  type Entries = map<string, string>

  const Heading := "Detailed Timing Parameters"

  /** s.split(sep)[0]: the text before the first occurrence of sep. */
  function BeforeFirst(s: string, sep: string): (r: string)
    requires |sep| > 0
    ensures |r| <= |s| && r == s[..|r|]
    ensures Find(r, sep).None?
    ensures r == s || IsAt(s, sep, |r|)
  {
    match Find(s, sep)
    case None => s
    case Some(k) =>
      PrefixHasNoSep(s, sep, k);
      s[..k]
  }

  /** value.split("//")[0].strip().strip(";"): the value without its comment, blanks and semicolons. */
  function ValueText(value: string): string {
    StripChar(Strip(BeforeFirst(value, "//")), ';')
  }

  /** key, value = line.split("=", 1) with the key stripped and the value cleaned; None is the ValueError of a line without '='. */
  function Entry(line: string): (e: Option<(string, string)>)
    ensures e.Some? <==> Find(line, "=").Some?
    ensures e.Some? ==>
      var k := Find(line, "=").value;
      e.value == (Strip(line[..k]), ValueText(line[k + 1..]))
  {
    var kv := SplitOnce(line, "=");
    if |kv| == 2 then
      var k := Find(line, "=").value;
      assert kv[0] == line[..k] && kv[1] == line[k + 1..];
      Some((Strip(kv[0]), ValueText(kv[1])))
    else None
  }

  /** One line of a block: blank or empty lines are skipped, later keys replace earlier ones. */
  function BlockLine(v: Entries, line: string): Option<Entries> {
    if IsBlankLine(line) || line == [] then Some(v)
    else
      match Entry(line)
      case None => None
      case Some((key, value)) => Some(v[key := value])
  }

  /** The loop over a block's lines, building the dictionary v. */
  function ReadEntries(v: Entries, lines: seq<string>): Option<Entries>
    decreases |lines|
  {
    if lines == [] then Some(v)
    else
      match BlockLine(v, lines[0])
      case None => None
      case Some(v1) => ReadEntries(v1, lines[1..])
  }

  /** int(v[key]); a missing key is a KeyError. */
  function IntegerAt(v: Entries, key: string): Option<int> {
    if key in v then ParseInt(v[key]) else None
  }

  /** float(v[key]), read as an exact rational. */
  function NumberAt(v: Entries, key: string): Option<real> {
    if key in v then ParseDecimal(v[key]) else None
  }

  /** {"NEGATIVE": -1, "POSITIVE": +1}[v[key]] */
  function PolarityAt(v: Entries, key: string): (p: Option<int>)
    ensures p == Some(1) <==> key in v && v[key] == "POSITIVE"
    ensures p == Some(-1) <==> key in v && v[key] == "NEGATIVE"
    ensures p.Some? ==> p == Some(1) || p == Some(-1)
  {
    if key !in v then None
    else if v[key] == "NEGATIVE" then Some(-1)
    else if v[key] == "POSITIVE" then Some(1)
    else None
  }

  /** {"NONINTERLACED": 0, "INTERLACED": -1}[v[key]] */
  function ScanAt(v: Entries, key: string): (d: Option<int>)
    ensures d == Some(0) <==> key in v && v[key] == "NONINTERLACED"
    ensures d == Some(-1) <==> key in v && v[key] == "INTERLACED"
    ensures d.Some? ==> d == Some(0) || d == Some(-1)
  {
    if key !in v then None
    else if v[key] == "NONINTERLACED" then Some(0)
    else if v[key] == "INTERLACED" then Some(-1)
    else None
  }

  /** The numbers a block's record is computed from. */
  datatype Timings = Timings(
    size: XY<int>,        // Hor Pixels, Ver Pixels
    verHz: real,          // Ver Frequency
    pixelMhz: real,       // Pixel Clock
    horTotal: real,       // Hor Total Time, usec
    verTotal: real,       // Ver Total Time, msec
    horSyncStart: real,   // Hor Sync Start, usec
    verSyncStart: real,   // Ver Sync Start, msec
    horSyncTime: real,    // Hor Sync Time, usec
    verSyncTime: real,    // Ver Sync Time, msec
    polarity: XY<int>,    // Hor Sync Polarity, Ver Sync Polarity
    scan: int,            // Scan Type: 0 progressive, -1 interlaced
    horAddr: real,        // Hor Addr Time, usec
    verAddr: real         // Ver Addr Time, msec
  )

  /** The lookups and conversions of a block's dictionary. */
  function BlockTimings(v: Entries): (r: Option<Timings>)
    ensures r.Some? ==> r.value.polarity.x in {-1, 1} && r.value.polarity.y in {-1, 1}
    ensures r.Some? ==> Some(r.value.scan) == ScanAt(v, "Scan Type")
    ensures r.Some? <==>
      IntegerAt(v, "Hor Pixels").Some? && IntegerAt(v, "Ver Pixels").Some?
      && NumberAt(v, "Ver Frequency").Some? && NumberAt(v, "Pixel Clock").Some?
      && NumberAt(v, "Hor Total Time").Some? && NumberAt(v, "Ver Total Time").Some?
      && NumberAt(v, "Hor Sync Start").Some? && NumberAt(v, "Ver Sync Start").Some?
      && NumberAt(v, "Hor Sync Time").Some? && NumberAt(v, "Ver Sync Time").Some?
      && PolarityAt(v, "Hor Sync Polarity").Some? && PolarityAt(v, "Ver Sync Polarity").Some?
      && ScanAt(v, "Scan Type").Some?
      && NumberAt(v, "Hor Addr Time").Some? && NumberAt(v, "Ver Addr Time").Some?
    ensures r.Some? ==>
      IntegerAt(v, "Hor Pixels") == Some(r.value.size.x) && IntegerAt(v, "Ver Pixels") == Some(r.value.size.y)
      && NumberAt(v, "Ver Frequency") == Some(r.value.verHz) && NumberAt(v, "Pixel Clock") == Some(r.value.pixelMhz)
      && NumberAt(v, "Hor Total Time") == Some(r.value.horTotal) && NumberAt(v, "Ver Total Time") == Some(r.value.verTotal)
      && NumberAt(v, "Hor Sync Start") == Some(r.value.horSyncStart)
      && NumberAt(v, "Ver Sync Start") == Some(r.value.verSyncStart)
      && NumberAt(v, "Hor Sync Time") == Some(r.value.horSyncTime)
      && NumberAt(v, "Ver Sync Time") == Some(r.value.verSyncTime)
      && PolarityAt(v, "Hor Sync Polarity") == Some(r.value.polarity.x)
      && PolarityAt(v, "Ver Sync Polarity") == Some(r.value.polarity.y)
      && NumberAt(v, "Hor Addr Time") == Some(r.value.horAddr) && NumberAt(v, "Ver Addr Time") == Some(r.value.verAddr)
  {
    var hp := IntegerAt(v, "Hor Pixels");
    var vp := IntegerAt(v, "Ver Pixels");
    var vf := NumberAt(v, "Ver Frequency");
    var pc := NumberAt(v, "Pixel Clock");
    var ht := NumberAt(v, "Hor Total Time");
    var vt := NumberAt(v, "Ver Total Time");
    var hss := NumberAt(v, "Hor Sync Start");
    var vss := NumberAt(v, "Ver Sync Start");
    var hst := NumberAt(v, "Hor Sync Time");
    var vst := NumberAt(v, "Ver Sync Time");
    var hpol := PolarityAt(v, "Hor Sync Polarity");
    var vpol := PolarityAt(v, "Ver Sync Polarity");
    var scan := ScanAt(v, "Scan Type");
    var ha := NumberAt(v, "Hor Addr Time");
    var va := NumberAt(v, "Ver Addr Time");
    if hp.Some? && vp.Some? && vf.Some? && pc.Some? && ht.Some? && vt.Some? && hss.Some?
      && vss.Some? && hst.Some? && vst.Some? && hpol.Some? && vpol.Some? && scan.Some?
      && ha.Some? && va.Some?
    then
      Some(Timings(XY(hp.value, vp.value), vf.value, pc.value, ht.value, vt.value, hss.value,
                   vss.value, hst.value, vst.value, XY(hpol.value, vpol.value), scan.value,
                   ha.value, va.value))
    else None
  }

  /** 1e3 / pixel_khz, the pixel period in microseconds. */
  function PixUsec(pk: int): real
    requires pk != 0
  {
    1000.0 / pk as real
  }

  /** Hor Total Time * 1e-3, the line period in milliseconds. */
  function LineMsec(t: Timings): real {
    t.horTotal * 0.001
  }

  /**
   * The Addr Time asserts as written, abs(addr - size * period < 1): abs of a
   * comparison is 1 or 0, so each only bounds the addressable time from above.
   */
  predicate AddrChecksAsWritten(t: Timings, pixUsec: real, lineMsec: real) {
    t.horAddr - t.size.x as real * pixUsec < 1.0 && t.verAddr - t.size.y as real * lineMsec < 1.0
  }

  /** The Addr Time asserts as meant, abs(addr - size * period) < 1. */
  predicate AddrChecks(t: Timings, pixUsec: real, lineMsec: real) {
    RealAbs(t.horAddr - t.size.x as real * pixUsec) < 1.0
    && RealAbs(t.verAddr - t.size.y as real * lineMsec) < 1.0
  }

  /**
   * The record the generator writes for a block: counts are times divided by the
   * pixel period or the line period, rounded half to even.  The Scan Type is stored
   * into mode.sync_doubling, a name the dataclass does not have, so doubling (and
   * aspect) stay zero.  A zero pixel clock or line period raises ZeroDivisionError.
   */
  function TimingsModeAsWritten(t: Timings): (r: Option<DisplayMode>)
    ensures Trunc(t.pixelMhz * 1000.0) == 0 || t.horTotal == 0.0 ==> r.None?
    ensures r.Some? ==>
      r.value.size == t.size && r.value.syncPolarity == t.polarity && r.value.doubling == XY(0, 0)
      && r.value.aspect == XY(0, 0) && r.value.pixelKhz == Trunc(t.pixelMhz * 1000.0)
  {
    var pk := Trunc(t.pixelMhz * 1000.0);
    if pk == 0 || LineMsec(t) == 0.0 then None
    else
      var pixUsec := PixUsec(pk);
      var lineMsec := LineMsec(t);
      if AddrChecksAsWritten(t, pixUsec, lineMsec) then
        Some(Counts(t, pk, pixUsec, lineMsec).(doubling := XY(0, 0)))
      else None
  }

  /** The record with the Scan Type in doubling.y and both Addr Time asserts two-sided. */
  function TimingsMode(t: Timings): (r: Option<DisplayMode>)
    ensures Trunc(t.pixelMhz * 1000.0) == 0 || t.horTotal == 0.0 ==> r.None?
    ensures r.Some? ==>
      r.value.size == t.size && r.value.syncPolarity == t.polarity && r.value.doubling == XY(0, t.scan)
      && r.value.aspect == XY(0, 0) && r.value.pixelKhz == Trunc(t.pixelMhz * 1000.0)
    ensures r.Some? ==> TimingsModeAsWritten(t).Some?
  {
    var pk := Trunc(t.pixelMhz * 1000.0);
    if pk == 0 || LineMsec(t) == 0.0 then None
    else
      var pixUsec := PixUsec(pk);
      var lineMsec := LineMsec(t);
      if AddrChecks(t, pixUsec, lineMsec) then
        Some(Counts(t, pk, pixUsec, lineMsec))
      else None
  }

  /** The fields both versions compute alike. */
  function Counts(t: Timings, pk: int, pixUsec: real, lineMsec: real): DisplayMode
    requires pixUsec != 0.0 && lineMsec != 0.0
  {
    var start := XY(RoundHalfEven(t.horSyncStart / pixUsec), RoundHalfEven(t.verSyncStart / lineMsec));
    DisplayMode(
      t.size,
      XY(RoundHalfEven(t.horTotal / pixUsec), RoundHalfEven(t.verTotal / lineMsec)),
      start,
      XY(start.x + RoundHalfEven(t.horSyncTime / pixUsec), start.y + RoundHalfEven(t.verSyncTime / lineMsec)),
      t.polarity,
      XY(0, t.scan),
      XY(0, 0),
      pk,
      RoundHalfEven(t.verHz))
  }

  /**
   * Which record computation a pass runs: the script's own (AsWritten), or the one
   * with both defects above corrected (Corrected).
   */
  datatype Version = AsWritten | Corrected

  function RecordOf(t: Timings, ver: Version): Option<DisplayMode> {
    match ver
    case AsWritten => TimingsModeAsWritten(t)
    case Corrected => TimingsMode(t)
  }

  /** A block's dictionary converted and turned into its record. */
  function BlockMode(v: Entries, ver: Version): (r: Option<DisplayMode>)
    ensures r.Some? ==>
      IntegerAt(v, "Hor Pixels") == Some(r.value.size.x) && IntegerAt(v, "Ver Pixels") == Some(r.value.size.y)
      && PolarityAt(v, "Hor Sync Polarity") == Some(r.value.syncPolarity.x)
      && PolarityAt(v, "Ver Sync Polarity") == Some(r.value.syncPolarity.y)
  {
    match BlockTimings(v)
    case None => None
    case Some(t) => RecordOf(t, ver)
  }

  /** One block: its dictionary, skipped when empty, else its record appended. */
  function BlockStep(modes: seq<DisplayMode>, block: string, ver: Version): (r: Option<seq<DisplayMode>>)
    ensures r.Some? ==> modes <= r.value && |r.value| <= |modes| + 1
  {
    match ReadEntries(map[], Split(block, "\n"))
    case None => None
    case Some(v) =>
      if v == map[] then Some(modes)
      else
        match BlockMode(v, ver)
        case None => None
        case Some(m) => Some(modes + [m])
  }

  /** The loop over the blocks. */
  function BlockPass(modes: seq<DisplayMode>, blocks: seq<string>, ver: Version): (r: Option<seq<DisplayMode>>)
    ensures r.Some? ==> modes <= r.value && |r.value| <= |modes| + |blocks|
    decreases |blocks|
  {
    if blocks == [] then Some(modes)
    else
      match BlockStep(modes, blocks[0], ver)
      case None => None
      case Some(m1) => BlockPass(m1, blocks[1..], ver)
  }

  /** vesa_dmt_modes for the table's text. */
  function VesaModes(table: string, ver: Version): (r: Option<seq<DisplayMode>>)
    ensures r.Some? ==> |r.value| <= |Split(table, Heading)|
  {
    BlockPass([], Split(table, Heading), ver)
  }

  // ---------------------------------------------------------------------------
  // Properties
  // ---------------------------------------------------------------------------

  lemma SliceOfSlice(s: string, i: nat, j: nat, a: nat, b: nat)
    requires i <= j <= |s| && a <= b <= j - i
    ensures s[i..j][a..b] == s[i + a..i + b]
  {
    var x := s[i..j][a..b];
    var y := s[i + a..i + b];
    forall q | 0 <= q < |x|
      ensures x[q] == y[q]
    {
    }
  }

  /** A piece of text without sep has no sep in any slice of it either. */
  lemma SliceHasNoSep(s: string, sep: string, i: nat, j: nat)
    requires i <= j <= |s| && |sep| > 0 && Find(s, sep).None?
    ensures Find(s[i..j], sep).None?
  {
    var p := s[i..j];
    forall m: nat | m + |sep| <= |p|
      ensures !IsAt(p, sep, m)
    {
      SliceOfSlice(s, i, j, m, m + |sep|);
      assert !IsAt(s, sep, i + m);
    }
  }

  /** A cleaned value holds no comment marker and neither starts nor ends with ';'. */
  lemma ValueTextClean(value: string)
    ensures Find(ValueText(value), "//").None?
    ensures var r := ValueText(value); r == [] || (r[0] != ';' && r[|r| - 1] != ';')
  {
    var b := BeforeFirst(value, "//");
    var i := SkipFrom(b, IsSpace, 0);
    var j := SkipBackFrom(b, IsSpace, i, |b|);
    SliceHasNoSep(b, "//", i, j);
    var s := Strip(b);
    var p := (x: char) => x == ';';
    var i2 := SkipFrom(s, p, 0);
    var j2 := SkipBackFrom(s, p, i2, |s|);
    SliceHasNoSep(s, "//", i2, j2);
  }

  /** A block of blank lines only reads as the empty dictionary and is skipped. */
  lemma {:induction false} BlankLinesReadNothing(v: Entries, lines: seq<string>)
    requires forall k :: 0 <= k < |lines| ==> AllAre(lines[k], IsSpace)
    ensures ReadEntries(v, lines) == Some(v)
    decreases |lines|
  {
    if lines != [] {
      assert BlockLine(v, lines[0]) == Some(v) by {
        if lines[0] != [] {
          assert IsBlankLine(lines[0]);
        }
      }
      assert forall k :: 0 <= k < |lines[1..]| ==> lines[1..][k] == lines[k + 1];
      BlankLinesReadNothing(v, lines[1..]);
    }
  }

  lemma EmptyBlockSkipped(modes: seq<DisplayMode>, block: string, ver: Version)
    requires forall k :: 0 <= k < |Split(block, "\n")| ==> AllAre(Split(block, "\n")[k], IsSpace)
    ensures BlockStep(modes, block, ver) == Some(modes)
  {
    BlankLinesReadNothing(map[], Split(block, "\n"));
  }

  /**
   * The properties every VESA record has: doubling only in y, for interlace, no
   * aspect, polarities of +1 or -1, and a pixel clock.
   */
  predicate DmtRecord(m: DisplayMode) {
    m.doubling.x == 0 && m.doubling.y in {0, -1} && m.aspect == XY(0, 0)
    && m.syncPolarity.x in {-1, 1} && m.syncPolarity.y in {-1, 1}
    && m.pixelKhz != 0
  }

  /** A time as a count of periods: within half a period of the exact quotient. */
  predicate NearestCount(n: int, time: real, period: real)
    requires period != 0.0
  {
    -0.5 <= time / period - n as real <= 0.5
  }

  /**
   * A block's record keeps its size, polarities and Scan Type; each count is the
   * nearest whole number of pixel or line periods to its time; both addressable
   * times are within 1 of size times period.
   */
  lemma TimingsRecord(t: Timings)
    requires t.polarity.x in {-1, 1} && t.polarity.y in {-1, 1} && t.scan in {0, -1}
    requires TimingsMode(t).Some?
    ensures DmtRecord(TimingsMode(t).value)
    ensures var r := TimingsMode(t).value;
      r.size == t.size && r.syncPolarity == t.polarity && r.doubling == XY(0, t.scan)
      && r.pixelKhz == Trunc(t.pixelMhz * 1000.0)
      && NearestCount(r.scanSize.x, t.horTotal, PixUsec(r.pixelKhz))
      && NearestCount(r.scanSize.y, t.verTotal, LineMsec(t))
      && NearestCount(r.syncStart.x, t.horSyncStart, PixUsec(r.pixelKhz))
      && NearestCount(r.syncStart.y, t.verSyncStart, LineMsec(t))
      && NearestCount(r.syncEnd.x - r.syncStart.x, t.horSyncTime, PixUsec(r.pixelKhz))
      && NearestCount(r.syncEnd.y - r.syncStart.y, t.verSyncTime, LineMsec(t))
      && RealAbs(t.horAddr - t.size.x as real * PixUsec(r.pixelKhz)) < 1.0
      && RealAbs(t.verAddr - t.size.y as real * LineMsec(t)) < 1.0
  {
    var r := TimingsMode(t).value;
    var pk := Trunc(t.pixelMhz * 1000.0);
    assert r == Counts(t, pk, PixUsec(pk), LineMsec(t));
  }

  /**
   * The record as written has the same counts, with doubling (0,0) whatever the Scan
   * Type, and each addressable time is less than 1 above size times period (it may
   * be any amount below).
   */
  lemma TimingsRecordAsWritten(t: Timings)
    requires t.polarity.x in {-1, 1} && t.polarity.y in {-1, 1}
    requires TimingsModeAsWritten(t).Some?
    ensures DmtRecord(TimingsModeAsWritten(t).value)
    ensures var r := TimingsModeAsWritten(t).value;
      r.size == t.size && r.syncPolarity == t.polarity && r.doubling == XY(0, 0)
      && r.pixelKhz == Trunc(t.pixelMhz * 1000.0)
      && NearestCount(r.scanSize.x, t.horTotal, PixUsec(r.pixelKhz))
      && NearestCount(r.scanSize.y, t.verTotal, LineMsec(t))
      && NearestCount(r.syncStart.x, t.horSyncStart, PixUsec(r.pixelKhz))
      && NearestCount(r.syncStart.y, t.verSyncStart, LineMsec(t))
      && NearestCount(r.syncEnd.x - r.syncStart.x, t.horSyncTime, PixUsec(r.pixelKhz))
      && NearestCount(r.syncEnd.y - r.syncStart.y, t.verSyncTime, LineMsec(t))
      && t.horAddr - t.size.x as real * PixUsec(r.pixelKhz) < 1.0
      && t.verAddr - t.size.y as real * LineMsec(t) < 1.0
  {
    var r := TimingsModeAsWritten(t).value;
    var pk := Trunc(t.pixelMhz * 1000.0);
    assert r == Counts(t, pk, PixUsec(pk), LineMsec(t)).(doubling := XY(0, 0));
  }

  /**
   * A block's record, if any, is such a record, and its block has a valid Scan Type.
   * As written the record is always progressive; corrected, doubling.y is -1 exactly
   * when the block's Scan Type is INTERLACED.
   */
  lemma BlockRecord(v: Entries, ver: Version)
    requires BlockMode(v, ver).Some?
    ensures DmtRecord(BlockMode(v, ver).value)
    ensures "Scan Type" in v && v["Scan Type"] in {"NONINTERLACED", "INTERLACED"}
    ensures ver == AsWritten ==> BlockMode(v, ver).value.doubling == XY(0, 0)
    ensures ver == Corrected ==> (BlockMode(v, ver).value.doubling.y == -1 <==> v["Scan Type"] == "INTERLACED")
  {
    var t := BlockTimings(v).value;
    if ver == AsWritten {
      TimingsRecordAsWritten(t);
    } else {
      TimingsRecord(t);
    }
  }

  /** One block leaves the records as they were or appends one such record. */
  lemma BlockStepAppends(modes: seq<DisplayMode>, block: string, ver: Version)
    requires BlockStep(modes, block, ver).Some?
    ensures BlockStep(modes, block, ver) == Some(modes)
      || (|BlockStep(modes, block, ver).value| == |modes| + 1
          && BlockStep(modes, block, ver).value[..|modes|] == modes
          && DmtRecord(BlockStep(modes, block, ver).value[|modes|]))
  {
    var v := ReadEntries(map[], Split(block, "\n")).value;
    if v != map[] {
      BlockRecord(v, ver);
    }
  }

  /**
   * The pass keeps the records it already has, in order, and appends one record per
   * non-empty block, each with the properties of DmtRecord.
   */
  lemma {:induction false} BlockPassAppends(modes: seq<DisplayMode>, blocks: seq<string>, ver: Version)
    requires BlockPass(modes, blocks, ver).Some?
    ensures var out := BlockPass(modes, blocks, ver).value;
      |modes| <= |out| <= |modes| + |blocks| && out[..|modes|] == modes
      && forall k :: |modes| <= k < |out| ==> DmtRecord(out[k])
    decreases |blocks|
  {
    if blocks == [] {
      assert modes[..|modes|] == modes;
    } else {
      var m1 := BlockStep(modes, blocks[0], ver).value;
      BlockStepAppends(modes, blocks[0], ver);
      assert Extends(modes, m1, 1) by {
        if m1 == modes {
          assert modes[..|modes|] == modes;
        }
      }
      BlockPassAppends(m1, blocks[1..], ver);
      ExtendsTrans(modes, m1, BlockPass(m1, blocks[1..], ver).value, |blocks[1..]|);
    }
  }

  /** out starts with modes and adds at most n records after them, each a DMT record. */
  predicate Extends(modes: seq<DisplayMode>, out: seq<DisplayMode>, n: nat) {
    |modes| <= |out| <= |modes| + n && out[..|modes|] == modes
    && forall k :: |modes| <= k < |out| ==> DmtRecord(out[k])
  }

  lemma ExtendsTrans(a: seq<DisplayMode>, b: seq<DisplayMode>, c: seq<DisplayMode>, n: nat)
    requires Extends(a, b, 1) && Extends(b, c, n)
    ensures Extends(a, c, n + 1)
  {
    assert c[..|b|][..|a|] == c[..|a|];
    forall k | |a| <= k < |c|
      ensures DmtRecord(c[k])
    {
      if k < |b| {
        assert c[k] == c[..|b|][k];
      }
    }
  }

  /** The pass over two runs of blocks is the pass over the second from where the first stopped. */
  lemma {:induction false} BlockPassAppend(modes: seq<DisplayMode>, a: seq<string>, b: seq<string>, ver: Version)
    ensures BlockPass(modes, a + b, ver) ==
      match BlockPass(modes, a, ver)
      case None => None
      case Some(m1) => BlockPass(m1, b, ver)
    decreases |a|
  {
    if a == [] {
      assert a + b == b;
    } else {
      assert (a + b)[0] == a[0];
      assert (a + b)[1..] == a[1..] + b;
      match BlockStep(modes, a[0], ver)
      case None =>
      case Some(m1) => BlockPassAppend(m1, a[1..], b, ver);
    }
  }

  /** The first block of the table, 640 x 350 at 85 Hz, with its values converted. */
  const Dmt640x350 := Timings(XY(640, 350), 85.080, 31.5, 26.413, 11.754, 21.333, 10.090, 2.032,
                              0.079, XY(1, -1), 0, 20.317, 9.244)

  lemma Dmt640x350Example()
    ensures TimingsModeAsWritten(Dmt640x350) == TimingsMode(Dmt640x350) ==
      Some(DisplayMode(XY(640, 350), XY(832, 445), XY(672, 382), XY(736, 385), XY(1, -1),
                       XY(0, 0), XY(0, 0), 31500, 85))
  {
    var t := Dmt640x350;
    TruncatesTo(t.pixelMhz * 1000.0, 31500);
    var p := PixUsec(31500);
    var l := LineMsec(t);
    assert p == 2.0 / 63.0 && l == 0.026413;
    RoundsTo(t.horTotal / p, 832);
    RoundsTo(t.verTotal / l, 445);
    RoundsTo(t.horSyncStart / p, 672);
    RoundsTo(t.verSyncStart / l, 382);
    RoundsTo(t.horSyncTime / p, 64);
    RoundsTo(t.verSyncTime / l, 3);
    RoundsTo(t.verHz, 85);
    assert AddrChecks(t, p, l);
    RecordVersions(t);
  }

  // ---------------------------------------------------------------------------
  // The two defects of the record computation as written
  // ---------------------------------------------------------------------------

  /** The table's one interlaced block, 1024 x 768 at 43 Hz, with its values converted. */
  const Dmt1024x768i := Timings(XY(1024, 768), 86.957, 44.9, 28.151, 23.000, 22.984, 21.620, 3.920,
                                0.113, XY(1, 1), -1, 22.806, 21.620)

  /** As written, every record claims progressive scan, whatever its Scan Type. */
  lemma AsWrittenNeverInterlaced(t: Timings)
    requires TimingsModeAsWritten(t).Some?
    ensures TimingsModeAsWritten(t).value.doubling == XY(0, 0)
  {
  }

  /** The interlaced block comes out progressive as written, and interlaced once corrected. */
  lemma InterlacedBlockExample()
    ensures TimingsModeAsWritten(Dmt1024x768i).Some?
    ensures TimingsModeAsWritten(Dmt1024x768i).value.doubling == XY(0, 0)
    ensures TimingsMode(Dmt1024x768i) ==
      Some(DisplayMode(XY(1024, 768), XY(1264, 817), XY(1032, 768), XY(1208, 772), XY(1, 1),
                       XY(0, -1), XY(0, 0), 44900, 87))
  {
    var t := Dmt1024x768i;
    TruncatesTo(t.pixelMhz * 1000.0, 44900);
    var p := PixUsec(44900);
    var l := LineMsec(t);
    assert p == 10.0 / 449.0 && l == 0.028151;
    RoundsTo(t.horTotal / p, 1264);
    RoundsTo(t.verTotal / l, 817);
    RoundsTo(t.horSyncStart / p, 1032);
    RoundsTo(t.verSyncStart / l, 768);
    RoundsTo(t.horSyncTime / p, 176);
    RoundsTo(t.verSyncTime / l, 4);
    RoundsTo(t.verHz, 87);
    assert AddrChecks(t, p, l);
  }

  /** The two versions' records differ only in doubling: the corrected record, made progressive. */
  lemma RecordVersions(t: Timings)
    requires TimingsMode(t).Some?
    ensures TimingsModeAsWritten(t) == Some(TimingsMode(t).value.(doubling := XY(0, 0)))
  {
    var pk := Trunc(t.pixelMhz * 1000.0);
    AddrChecksStricter(t, PixUsec(pk), LineMsec(t));
  }

  /** Every record with its doubling reset to (0,0). */
  function Progressive(ms: seq<DisplayMode>): (ps: seq<DisplayMode>)
    ensures |ps| == |ms|
    ensures forall k :: 0 <= k < |ms| ==> ps[k] == ms[k].(doubling := XY(0, 0))
  {
    seq(|ms|, k requires 0 <= k < |ms| => ms[k].(doubling := XY(0, 0)))
  }

  lemma BlockModeVersions(v: Entries)
    requires BlockMode(v, Corrected).Some?
    ensures BlockMode(v, AsWritten) == Some(BlockMode(v, Corrected).value.(doubling := XY(0, 0)))
  {
    RecordVersions(BlockTimings(v).value);
  }

  lemma ProgressiveSnoc(modes: seq<DisplayMode>, m: DisplayMode)
    ensures Progressive(modes + [m]) == Progressive(modes) + [m.(doubling := XY(0, 0))]
  {
  }

  /** A block the corrected step accepts, the step as written accepts, with the record made progressive. */
  lemma BlockStepVersions(modes: seq<DisplayMode>, block: string, out: seq<DisplayMode>)
    requires BlockStep(modes, block, Corrected) == Some(out)
    ensures BlockStep(Progressive(modes), block, AsWritten) == Some(Progressive(out))
  {
    var v := ReadEntries(map[], Split(block, "\n")).value;
    if v != map[] {
      var m := BlockMode(v, Corrected).value;
      BlockModeVersions(v);
      ProgressiveSnoc(modes, m);
    }
  }

  /**
   * Wherever the corrected pass succeeds, the pass as written succeeds too, with the
   * same records except that every doubling is (0,0).
   */
  lemma {:induction false} BlockPassVersions(modes: seq<DisplayMode>, blocks: seq<string>, out: seq<DisplayMode>)
    requires BlockPass(modes, blocks, Corrected) == Some(out)
    ensures BlockPass(Progressive(modes), blocks, AsWritten) == Some(Progressive(out))
    decreases |blocks|
  {
    if blocks != [] {
      var m1 := BlockStep(modes, blocks[0], Corrected).value;
      BlockStepVersions(modes, blocks[0], m1);
      BlockPassVersions(m1, blocks[1..], out);
    }
  }

  /** The table's records as written are the corrected ones with doubling (0,0). */
  lemma VesaModesVersions(table: string)
    requires VesaModes(table, Corrected).Some?
    ensures VesaModes(table, AsWritten) == Some(Progressive(VesaModes(table, Corrected).value))
  {
    assert Progressive([]) == [];
    BlockPassVersions([], Split(table, Heading), VesaModes(table, Corrected).value);
  }

  /** The two-sided check is the stricter one: whatever it accepts, the one-sided check accepts. */
  lemma AddrChecksStricter(t: Timings, pixUsec: real, lineMsec: real)
    ensures AddrChecks(t, pixUsec, lineMsec) ==> AddrChecksAsWritten(t, pixUsec, lineMsec)
  {
  }

  /**
   * As written, an addressable time far below size times period passes: the first
   * block with Hor Addr Time 0 is accepted, though 640 pixels take 20.317 usec.
   */
  lemma AsWrittenAcceptsShortAddr()
    ensures AddrChecksAsWritten(Dmt640x350.(horAddr := 0.0), PixUsec(31500), LineMsec(Dmt640x350))
    ensures !AddrChecks(Dmt640x350.(horAddr := 0.0), PixUsec(31500), LineMsec(Dmt640x350))
  {
  }
}
