/**
 * The three CTA-861 passes of display_mode_gen.py over the dictionary cta_vic_mode,
 * as functions of the dictionary before a line and the line's text.  None stands
 * for an exception (a failed int() or float(), a missing key or index, a failed
 * assert), which ends the generator without output.
 *
 * Each line is read in two steps: its fields are converted to numbers (ParseTiming,
 * ParseSync, ParseFormat), and the converted row is applied to the dictionary
 * (ApplyTiming, ApplySync, ApplyFormat).  The generator converts the fields inside
 * its loop over the row's VICs; a conversion does not depend on the VIC, so doing it
 * once first gives the same dictionary, and a failure aborts either way.
 */
module CtaTables {
  import opened XYs
  import opened DisplayModes
  import opened Text

  type VicModes = map<int, DisplayMode>

  /** cta_vic_mode.setdefault(vic, DisplayMode()): the stored record or a blank one. */
  function Lookup(m: VicModes, vic: int): DisplayMode {
    if vic in m then m[vic] else Blank
  }

  /**
   * i_double = 2 ** -doubling.y: 2 for an interlaced record (doubling.y == -1) and 1
   * for a progressive one (doubling.y == 0), the only values the tables produce
   * (see TablesKeepDoublings).
   */
  function LineFactor(d: XY<int>): (i: int)
    ensures d.y == 0 ==> i == 1
    ensures d.y == -1 ==> i == 2
  {
    if d.y < 0 then 2 else 1
  }

  /** The doubling values every record built by the three passes has. */
  predicate TableDoublings(m: VicModes) {
    forall v :: v in m ==> m[v].doubling.x in {0, 1} && m[v].doubling.y in {0, -1}
  }

  /** line.strip() then line.split(): the fields of one table row. */
  function Fields(line: string): seq<string> {
    Words(Strip(line))
  }

  /** [conv(p) for p in ps[i..]]; None as soon as one piece does not convert. */
  function ConvertFrom(ps: seq<string>, conv: string -> Option<int>, i: nat): (r: Option<seq<int>>)
    requires i <= |ps|
    ensures r.Some? <==> forall j :: i <= j < |ps| ==> conv(ps[j]).Some?
    ensures r.Some? ==> |r.value| == |ps| - i && forall j :: i <= j < |ps| ==> conv(ps[j]) == Some(r.value[j - i])
    decreases |ps| - i
  {
    if i == |ps| then Some([])
    else
      match conv(ps[i])
      case None => None
      case Some(n) =>
        match ConvertFrom(ps, conv, i + 1)
        case None => None
        case Some(ns) => Some([n] + ns)
  }

  /** [int(p) for p in ps] */
  function ParseInts(ps: seq<string>): (r: Option<seq<int>>)
    ensures r.Some? <==> forall i :: 0 <= i < |ps| ==> ParseInt(ps[i]).Some?
    ensures r.Some? ==> |r.value| == |ps| && forall i :: 0 <= i < |ps| ==> ParseInt(ps[i]) == Some(r.value[i])
  {
    ConvertFrom(ps, ParseInt, 0)
  }

  /** One table's loop: each line's step in turn, stopping at the first exception. */
  function RunLines(m: VicModes, lines: seq<string>, step: (VicModes, string) -> Option<VicModes>): Option<VicModes>
    decreases |lines|
  {
    if lines == [] then Some(m)
    else
      match step(m, lines[0])
      case None => None
      case Some(m1) => RunLines(m1, lines[1..], step)
  }

  // ---------------------------------------------------------------------------
  // Table 1: Video Format Timings (display_mode_gen.py:3160-3183)
  // ---------------------------------------------------------------------------

  /** A Table 1 row with its fields converted. */
  datatype Timing = Timing(
    vics: seq<int>,     // field 0, comma-separated
    size: XY<int>,      // fields 1 and 2
    vDoubling: int,     // field 3: 0 for Prog, -1 for Int
    scanSize: XY<int>,  // fields 4 and 6
    hBlank: int,        // field 5
    vBlank: real,       // field 7 (a half line, 22.5, for some interlaced formats)
    hKhz: real,         // field 8
    vHz: real,          // field 9
    pixelMhz: real      // field 10
  )

  /** {"Prog": 0, "Int": -1}[s] */
  function ScanDoubling(s: string): (d: Option<int>)
    ensures d.Some? <==> s == "Prog" || s == "Int"
    ensures d == Some(0) <==> s == "Prog"
    ensures d == Some(-1) <==> s == "Int"
  {
    if s == "Prog" then Some(0) else if s == "Int" then Some(-1) else None
  }

  /** The conversions of a Table 1 row's fields; a row has at least one VIC. */
  function ParseTiming(f: seq<string>): (r: Option<Timing>)
    ensures r.Some? ==> |f| >= 11 && |r.value.vics| > 0
    ensures r.Some? ==> ScanDoubling(f[3]) == Some(r.value.vDoubling) && r.value.vDoubling in {0, -1}
    ensures r.Some? <==>
      |f| >= 11 && ParseInts(Split(f[0], ",")).Some? && ParseInt(f[1]).Some? && ParseInt(f[2]).Some?
      && ScanDoubling(f[3]).Some? && ParseInt(f[4]).Some? && ParseInt(f[5]).Some? && ParseInt(f[6]).Some?
      && ParseDecimal(f[7]).Some? && ParseDecimal(f[8]).Some? && ParseDecimal(f[9]).Some?
      && ParseDecimal(f[10]).Some?
    ensures r.Some? ==>
      ParseInts(Split(f[0], ",")) == Some(r.value.vics)
      && ParseInt(f[1]) == Some(r.value.size.x) && ParseInt(f[2]) == Some(r.value.size.y)
      && ParseInt(f[4]) == Some(r.value.scanSize.x) && ParseInt(f[5]) == Some(r.value.hBlank)
      && ParseInt(f[6]) == Some(r.value.scanSize.y)
      && ParseDecimal(f[7]) == Some(r.value.vBlank) && ParseDecimal(f[8]) == Some(r.value.hKhz)
      && ParseDecimal(f[9]) == Some(r.value.vHz) && ParseDecimal(f[10]) == Some(r.value.pixelMhz)
  {
    if |f| < 11 then None
    else
      var vics := ParseInts(Split(f[0], ","));
      var w := ParseInt(f[1]);
      var h := ParseInt(f[2]);
      var d := ScanDoubling(f[3]);
      var sw := ParseInt(f[4]);
      var hb := ParseInt(f[5]);
      var sh := ParseInt(f[6]);
      var vb := ParseDecimal(f[7]);
      var khz := ParseDecimal(f[8]);
      var hz := ParseDecimal(f[9]);
      var mhz := ParseDecimal(f[10]);
      if vics.Some? && w.Some? && h.Some? && d.Some? && sw.Some? && hb.Some? && sh.Some?
        && vb.Some? && khz.Some? && hz.Some? && mhz.Some?
      then
        Some(Timing(vics.value, XY(w.value, h.value), d.value, XY(sw.value, sh.value),
                    hb.value, vb.value, khz.value, hz.value, mhz.value))
      else None
  }

  /**
   * The record after a Table 1 row's assignments: size, scan size, doubling, pixel
   * clock (int(MHz * 1e3)) and nominal rate (round(Hz)) are set; the sync fields,
   * polarity and aspect are kept from the record that was there.
   */
  function TimingMode(prev: DisplayMode, t: Timing): DisplayMode {
    prev.(size := t.size, scanSize := t.scanSize, doubling := XY(0, t.vDoubling),
          pixelKhz := Trunc(t.pixelMhz * 1000.0), nominalHz := RoundHalfEven(t.vHz))
  }

  /**
   * The asserts after each Table 1 assignment: the horizontal blanking sum, the
   * vertical one with the blank scaled by i_double, and both frequencies to their
   * tolerances (a zero scan size raises ZeroDivisionError).
   */
  predicate TimingChecks(t: Timing) {
    var i := LineFactor(XY(0, t.vDoubling)) as real;
    var pk := Trunc(t.pixelMhz * 1000.0) as real;
    && t.scanSize.x == t.size.x + t.hBlank
    && t.scanSize.y as real == t.size.y as real + t.vBlank * i
    && t.scanSize.x != 0
    && RealAbs(pk / t.scanSize.x as real - t.hKhz) < 0.001
    && t.scanSize.y != 0
    && RealAbs(pk * 1000.0 / t.scanSize.x as real / t.scanSize.y as real - t.vHz / i) < 0.01
  }

  /** The loop over a row's VICs: each one's record is created if need be and assigned. */
  function SetTimings(m: VicModes, vics: seq<int>, t: Timing): VicModes
    decreases |vics|
  {
    if vics == [] then m
    else SetTimings(m[vics[0] := TimingMode(Lookup(m, vics[0]), t)], vics[1..], t)
  }

  /** One converted Table 1 row applied to the dictionary. */
  function ApplyTiming(m: VicModes, t: Timing): Option<VicModes> {
    if TimingChecks(t) then Some(SetTimings(m, t.vics, t)) else None
  }

  /** One line of Table 1: blank lines are skipped. */
  function TimingLine(m: VicModes, line: string): Option<VicModes> {
    if Strip(line) == [] then Some(m)
    else
      match ParseTiming(Fields(line))
      case None => None
      case Some(t) => ApplyTiming(m, t)
  }

  /** The Table 1 loop over the lines of the table's text. */
  function TimingPass(m: VicModes, lines: seq<string>): Option<VicModes> {
    RunLines(m, lines, TimingLine)
  }


  // ---------------------------------------------------------------------------
  // Table 2: Detailed Sync Information (display_mode_gen.py:3185-3212)
  // ---------------------------------------------------------------------------

  /** A Table 2 row with its fields converted (field 1 is not read). */
  datatype Sync = Sync(
    vics: seq<int>,  // field 0, comma-separated
    hFront: int,     // field 2
    hWidth: int,     // field 3
    hBack: int,      // field 4
    hPolarity: int,  // field 5
    vFront: int,     // field 6, in lines per field
    vWidth: int,     // field 7
    vBack: int,      // field 8
    vPolarity: int   // field 9
  )

  /** {"P": +1, "N": -1}[s] */
  function Polarity(s: string): (p: Option<int>)
    ensures p == Some(1) <==> s == "P"
    ensures p == Some(-1) <==> s == "N"
    ensures p.Some? <==> s == "P" || s == "N"
  {
    if s == "P" then Some(1) else if s == "N" then Some(-1) else None
  }

  function ParseSync(f: seq<string>): (r: Option<Sync>)
    ensures r.Some? ==> |f| >= 10 && |r.value.vics| > 0
    ensures r.Some? ==> Polarity(f[5]) == Some(r.value.hPolarity) && Polarity(f[9]) == Some(r.value.vPolarity)
    ensures r.Some? <==>
      |f| >= 10 && ParseInts(Split(f[0], ",")).Some? && ParseInt(f[2]).Some? && ParseInt(f[3]).Some?
      && ParseInt(f[4]).Some? && Polarity(f[5]).Some? && ParseInt(f[6]).Some? && ParseInt(f[7]).Some?
      && ParseInt(f[8]).Some? && Polarity(f[9]).Some?
    ensures r.Some? ==>
      ParseInts(Split(f[0], ",")) == Some(r.value.vics)
      && ParseInt(f[2]) == Some(r.value.hFront) && ParseInt(f[3]) == Some(r.value.hWidth)
      && ParseInt(f[4]) == Some(r.value.hBack) && ParseInt(f[6]) == Some(r.value.vFront)
      && ParseInt(f[7]) == Some(r.value.vWidth) && ParseInt(f[8]) == Some(r.value.vBack)
  {
    if |f| < 10 then None
    else
      var vics := ParseInts(Split(f[0], ","));
      var hf := ParseInt(f[2]);
      var hw := ParseInt(f[3]);
      var hb := ParseInt(f[4]);
      var hp := Polarity(f[5]);
      var vf := ParseInt(f[6]);
      var vw := ParseInt(f[7]);
      var vb := ParseInt(f[8]);
      var vp := Polarity(f[9]);
      if vics.Some? && hf.Some? && hw.Some? && hb.Some? && hp.Some? && vf.Some? && vw.Some?
        && vb.Some? && vp.Some?
      then
        Some(Sync(vics.value, hf.value, hw.value, hb.value, hp.value, vf.value, vw.value,
                  vb.value, vp.value))
      else None
  }

  /**
   * The record after a Table 2 row's assignments: sync start is size plus the front
   * porch, sync end is start plus the pulse width, the vertical amounts scaled by
   * i_double; and the two polarities.
   */
  function SyncMode(prev: DisplayMode, s: Sync): DisplayMode {
    var i := LineFactor(prev.doubling);
    var start := XY(prev.size.x + s.hFront, prev.size.y + s.vFront * i);
    prev.(syncStart := start, syncEnd := XY(start.x + s.hWidth, start.y + s.vWidth * i),
          syncPolarity := XY(s.hPolarity, s.vPolarity))
  }

  /**
   * The asserts on the updated record: the horizontal back porch closes the scan
   * exactly, and the vertical one leaves 0 to 2 lines of the scan over.
   */
  predicate SyncChecks(r: DisplayMode, s: Sync) {
    && r.scanSize.x == r.syncEnd.x + s.hBack
    && 0 <= r.scanSize.y - (r.syncEnd.y + s.vBack * LineFactor(r.doubling)) <= 2
  }

  /** The loop over a row's VICs; a VIC without a Table 1 record raises KeyError. */
  function SetSyncs(m: VicModes, vics: seq<int>, s: Sync): Option<VicModes>
    decreases |vics|
  {
    if vics == [] then Some(m)
    else if vics[0] !in m then None
    else
      var r := SyncMode(m[vics[0]], s);
      if SyncChecks(r, s) then SetSyncs(m[vics[0] := r], vics[1..], s) else None
  }

  function ApplySync(m: VicModes, s: Sync): Option<VicModes> {
    SetSyncs(m, s.vics, s)
  }

  function SyncLine(m: VicModes, line: string): Option<VicModes> {
    if Strip(line) == [] then Some(m)
    else
      match ParseSync(Fields(line))
      case None => None
      case Some(s) => ApplySync(m, s)
  }

  function SyncPass(m: VicModes, lines: seq<string>): Option<VicModes> {
    RunLines(m, lines, SyncLine)
  }


  // ---------------------------------------------------------------------------
  // Table 3: Video ID Code and Aspect Ratios (display_mode_gen.py:3214-3252)
  // ---------------------------------------------------------------------------

  /** The second-field values of rows without a format, which are skipped. */
  predicate NoFormat(name: string) {
    name == "Forbidden" || name == "Reserved" || name == "No"
  }

  /** s[-1:] */
  function LastChar(s: string): (r: string)
    ensures |r| == if s == [] then 0 else 1
  {
    if s == [] then [] else s[|s| - 1..]
  }

  /** s[:-1] */
  function AllButLast(s: string): (r: string)
    ensures s == r + LastChar(s)
  {
    if s == [] then [] else s[..|s| - 1]
  }

  /** h, v = s.split(":"), as integers. */
  function ParseRatio(s: string): (r: Option<XY<int>>)
    ensures var ps := Split(s, ":");
      r.Some? <==> |ps| == 2 && ParseInt(ps[0]).Some? && ParseInt(ps[1]).Some?
    ensures var ps := Split(s, ":");
      r.Some? ==> ParseInt(ps[0]) == Some(r.value.x) && ParseInt(ps[1]) == Some(r.value.y)
  {
    var ps := Split(s, ":");
    if |ps| == 2 && ParseInt(ps[0]).Some? && ParseInt(ps[1]).Some? then
      Some(XY(ParseInt(ps[0]).value, ParseInt(ps[1]).value))
    else None
  }

  /** The text of a ratio h:v, like "16:9". */
  function RatioText(h: nat, v: nat): string {
    NatToString(h) + ":" + NatToString(v)
  }

  /** Reading a ratio back from its text gives its two numbers. */
  lemma RatioOfText(h: nat, v: nat)
    ensures ParseRatio(RatioText(h, v)) == Some(XY(h, v))
  {
    var a, b := NatToString(h), NatToString(v);
    DigitsLackChar(a, ':');
    DigitsLackChar(b, ':');
    SplitLine(a, b, ':');
    SplitNone(b, ':');
    assert Split(RatioText(h, v), ":") == [a, b];
    ParseIntOfString(h);
    ParseIntOfString(v);
  }

  /** A format name like 720(1440)x480: name_h, then name_x (the width in parentheses, else name_h), then name_v. */
  datatype FormatName = FormatName(h: int, x: int, v: int)

  /**
   * The widths and height of a format name whose p/i suffix is already cut off:
   * body.split("x") must give two pieces, the second being name_v; the first is
   * name_h alone, or name_h and then name_x in parentheses.
   */
  function ParseFormatName(body: string): (r: Option<FormatName>)
    ensures var hv := Split(body, "x");
      r.Some? <==>
        && |hv| == 2 && ParseInt(hv[1]).Some?
        && if Find(hv[0], "(").None? then ParseInt(hv[0]).Some?
           else var p := Split(hv[0], "(");
             |p| == 2 && ParseInt(p[0]).Some? && ParseInt(StripChar(p[1], ')')).Some?
    ensures var hv := Split(body, "x");
      r.Some? ==>
        && ParseInt(hv[1]) == Some(r.value.v)
        && if Find(hv[0], "(").None? then ParseInt(hv[0]) == Some(r.value.h) && r.value.x == r.value.h
           else var p := Split(hv[0], "(");
             ParseInt(p[0]) == Some(r.value.h) && ParseInt(StripChar(p[1], ')')) == Some(r.value.x)
  {
    var hv := Split(body, "x");
    if |hv| != 2 then None
    else
      var hx: Option<(string, string)> :=
        if Find(hv[0], "(").None? then Some((hv[0], hv[0]))
        else
          var p := Split(hv[0], "(");
          if |p| == 2 then Some((p[0], StripChar(p[1], ')'))) else None;
      match hx
      case None => None
      case Some((hs, xs)) =>
        var x := ParseInt(xs);
        var h := ParseInt(hs);
        var v := ParseInt(hv[1]);
        if x.Some? && h.Some? && v.Some? then Some(FormatName(h.value, x.value, v.value)) else None
  }

  /** The text of a plain format name like 1280x720. */
  function NameText(h: nat, v: nat): string {
    NatToString(h) + "x" + NatToString(v)
  }

  /** The text of a pixel-doubled format name like 720(1440)x480. */
  function DoubledNameText(h: nat, x: nat, v: nat): string {
    NatToString(h) + "(" + NatToString(x) + ")" + "x" + NatToString(v)
  }

  /** A plain name reads back as its width (twice) and height. */
  lemma NameOfText(h: nat, v: nat)
    ensures ParseFormatName(NameText(h, v)) == Some(FormatName(h, h, v))
  {
    var a, b := NatToString(h), NatToString(v);
    DigitsLackChar(a, 'x');
    DigitsLackChar(b, 'x');
    SplitLine(a, b, 'x');
    SplitNone(b, 'x');
    assert Split(NameText(h, v), "x") == [a, b];
    DigitsLackChar(a, '(');
    FindNone(a, '(');
    ParseIntOfString(h);
    ParseIntOfString(v);
  }

  /** Two digit strings joined as a(b) hold no x. */
  lemma FrontLacksX(a: string, b: string)
    requires AllDigits(a) && AllDigits(b)
    ensures NoChar(a + "(" + b + ")", 'x')
  {
    DigitsLackChar(a, 'x');
    DigitsLackChar(b, 'x');
    NoCharJoined(a, "(", 'x');
    NoCharJoined(a + "(", b, 'x');
    NoCharJoined(a + "(" + b, ")", 'x');
  }

  /** Two digit strings joined as a(b) split at the parenthesis into a and b), and b) strips to b. */
  lemma FrontSplits(a: string, b: string)
    requires AllDigits(a) && AllDigits(b) && |b| > 0
    ensures var front := a + "(" + b + ")";
      Find(front, "(").Some? && Split(front, "(") == [a, b + ")"] && StripChar(b + ")", ')') == b
  {
    var inner := b + ")";
    var front := a + "(" + inner;
    assert a + "(" + b + ")" == front;
    DigitsLackChar(a, '(');
    DigitsLackChar(b, '(');
    NoCharJoined(b, ")", '(');
    SplitLine(a, inner, '(');
    SplitNone(inner, '(');
    assert IsAt(front, "(", |a|);
    StripTrailing(b, ')');
  }

  /** The part of a pixel-doubled name before the x: its two widths, read as name_h and name_x. */
  lemma DoubledFront(h: nat, x: nat)
    ensures var a, b := NatToString(h), NatToString(x);
      var front := a + "(" + b + ")";
      && NoChar(front, 'x') && Find(front, "(").Some?
      && Split(front, "(") == [a, b + ")"]
      && ParseInt(a) == Some(h) && ParseInt(StripChar(b + ")", ')')) == Some(x)
  {
    var a, b := NatToString(h), NatToString(x);
    FrontLacksX(a, b);
    FrontSplits(a, b);
    ParseIntOfString(h);
    ParseIntOfString(x);
  }

  /** A pixel-doubled name reads back as its leading width, its width in parentheses and its height. */
  lemma DoubledNameOfText(h: nat, x: nat, v: nat)
    ensures ParseFormatName(DoubledNameText(h, x, v)) == Some(FormatName(h, x, v))
  {
    var a, b, c := NatToString(h), NatToString(x), NatToString(v);
    var front := a + "(" + b + ")";
    assert DoubledNameText(h, x, v) == front + "x" + c;
    DoubledFront(h, x);
    DigitsLackChar(c, 'x');
    SplitLine(front, c, 'x');
    SplitNone(c, 'x');
    assert Split(front + "x" + c, "x") == [front, c];
    ParseIntOfString(v);
  }

  /** The pixel aspect text holds a blank, '-' or ',', which skips the check. */
  predicate NoPixelAspect(pf: string) {
    ' ' in pf || '-' in pf || ',' in pf
  }

  /**
   * The pixel aspect field, fields[4:] joined by blanks: None when it holds a blank,
   * '-' or ',' (the check is skipped), else the ratio it must parse as.
   */
  function ParsePixelAspect(rest: seq<string>): (r: Option<Option<XY<int>>>)
    ensures var pf := Join(rest, " ");
      r == Some(None) <==> NoPixelAspect(pf)
    ensures var pf := Join(rest, " ");
      r.None? <==> !NoPixelAspect(pf) && ParseRatio(pf).None?
    ensures var pf := Join(rest, " ");
      r.Some? && r.value.Some? ==> ParseRatio(pf) == Some(r.value.value)
  {
    var pf := Join(rest, " ");
    if NoPixelAspect(pf) then Some(None)
    else
      match ParseRatio(pf)
      case None => None
      case Some(p) => Some(Some(p))
  }

  /** A single h:v field asks for that pixel aspect, and a "-" field asks for none. */
  lemma PixelAspectOfText(h: nat, v: nat)
    ensures ParsePixelAspect([RatioText(h, v)]) == Some(Some(XY(h, v)))
    ensures ParsePixelAspect(["-"]) == Some(None)
  {
    var a, b := NatToString(h), NatToString(v);
    DigitsLackChar(a, ' ');
    DigitsLackChar(a, '-');
    DigitsLackChar(a, ',');
    DigitsLackChar(b, ' ');
    DigitsLackChar(b, '-');
    DigitsLackChar(b, ',');
    NoCharJoined(a, ":", ' ');
    NoCharJoined(a, ":", '-');
    NoCharJoined(a, ":", ',');
    NoCharJoined(a + ":", b, ' ');
    NoCharJoined(a + ":", b, '-');
    NoCharJoined(a + ":", b, ',');
    var pf := RatioText(h, v);
    assert Join([pf], " ") == pf;
    assert !NoPixelAspect(pf) by {
      assert NoChar(pf, ' ') && NoChar(pf, '-') && NoChar(pf, ',');
    }
    RatioOfText(h, v);
    assert Join(["-"], " ") == "-";
  }

  /** A Table 3 row with a format, its fields converted. */
  datatype Format = Format(
    vic: int,                       // field 0
    suffix: string,                 // the last character of the name in field 1
    name: FormatName,               // the rest of that name
    aspect: XY<int>,                // field 3, h:v
    pixelAspect: Option<XY<int>>    // the pixel aspect to check, if any
  )

  function ParseFormat(f: seq<string>): (r: Option<Format>)
    ensures r.Some? <==>
      |f| >= 4 && ParseInt(f[0]).Some? && ParseRatio(f[3]).Some?
      && ParseFormatName(AllButLast(f[1])).Some? && ParsePixelAspect(f[4..]).Some?
    ensures r.Some? ==>
      ParseInt(f[0]) == Some(r.value.vic) && r.value.suffix == LastChar(f[1])
      && ParseFormatName(AllButLast(f[1])) == Some(r.value.name)
      && ParseRatio(f[3]) == Some(r.value.aspect) && ParsePixelAspect(f[4..]) == Some(r.value.pixelAspect)
  {
    if |f| < 4 then None
    else
      var vic := ParseInt(f[0]);
      var aspect := ParseRatio(f[3]);
      var name := ParseFormatName(AllButLast(f[1]));
      var pixel := ParsePixelAspect(f[4..]);
      if vic.Some? && aspect.Some? && name.Some? && pixel.Some? then
        Some(Format(vic.value, LastChar(f[1]), name.value, aspect.value, pixel.value))
      else None
  }

  /**
   * A pixel-doubled format: the width becomes the name's leading width, the
   * horizontal timings and the pixel clock are halved (floor division), and
   * doubling.x is set; nothing vertical changes.
   */
  function Halved(r: DisplayMode, width: int): DisplayMode {
    r.(size := XY(width, r.size.y), doubling := XY(1, r.doubling.y),
       pixelKhz := r.pixelKhz / 2,
       scanSize := XY(r.scanSize.x / 2, r.scanSize.y),
       syncStart := XY(r.syncStart.x / 2, r.syncStart.y),
       syncEnd := XY(r.syncEnd.x / 2, r.syncEnd.y))
  }

  /** The pixel aspect assert, |pixel h:v - (aspect.h / size.h) / (aspect.v / size.v)| < 1e-3. */
  predicate PixelAspectHolds(p: Option<XY<int>>, aspect: XY<int>, size: XY<int>) {
    match p
    case None => true
    case Some(q) =>
      && q.y != 0 && size.x != 0 && size.y != 0 && aspect.y != 0
      && RealAbs(q.x as real / q.y as real
                 - (aspect.x as real / size.x as real) / (aspect.y as real / size.y as real)) < 0.001
  }

  /** The interlace suffix a record's doubling calls for. */
  function ScanSuffix(r: DisplayMode): string {
    if r.doubling.y < 0 then "i" else "p"
  }

  /** The record a Table 3 row leaves, if its asserts hold. */
  function FormatMode(prev: DisplayMode, f: Format): Option<DisplayMode> {
    var r := prev.(aspect := f.aspect);
    var n := f.name;
    if f.suffix != ScanSuffix(r) || XY(n.x, n.v) != r.size then None
    else if n.x != n.h && n.x != n.h * 2 then None
    else
      var r2 := if n.x != n.h then Halved(r, n.h) else r;
      if PixelAspectHolds(f.pixelAspect, r2.aspect, r2.size) then Some(r2) else None
  }

  /** One converted Table 3 row applied to the dictionary; its VIC must have a record. */
  function ApplyFormat(m: VicModes, f: Format): Option<VicModes> {
    if f.vic !in m then None
    else
      match FormatMode(m[f.vic], f)
      case None => None
      case Some(r) => Some(m[f.vic := r])
  }

  function FormatLine(m: VicModes, line: string): Option<VicModes> {
    var f := Fields(line);
    if Strip(line) == [] then Some(m)
    else if |f| < 2 then None
    else if NoFormat(f[1]) then Some(m)
    else
      match ParseFormat(f)
      case None => None
      case Some(fm) => ApplyFormat(m, fm)
  }

  function FormatPass(m: VicModes, lines: seq<string>): Option<VicModes> {
    RunLines(m, lines, FormatLine)
  }

  /** The three passes in order over the three tables' texts, from an empty dictionary. */
  function CtaModes(table1: string, table2: string, table3: string): Option<VicModes> {
    match TimingPass(map[], Split(table1, "\n"))
    case None => None
    case Some(m1) =>
      match SyncPass(m1, Split(table2, "\n"))
      case None => None
      case Some(m2) => FormatPass(m2, Split(table3, "\n"))
  }
}
