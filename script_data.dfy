/**
 * script_data.cpp: how the JSON shorthand of a play script becomes cubic
 * Bezier segments and splines, and make_script_absolute, which moves a script
 * written relative to its run start onto the absolute clock.
 *
 * JSON is a datatype with the parts of nlohmann::json the decoders look at;
 * every number is a real.  A thrown exception (a failed CHECK_ARG, or a
 * nlohmann accessor applied to the wrong kind of value) is None.
 */
module ScriptData {
  import opened Text
  import opened XYs
  import opened RealIntervals

  datatype Json =
    | Null
    | Bool(b: bool)
    | Num(n: real)
    | Str(s: string)
    | Arr(items: seq<Json>)
    | Obj(fields: map<string, Json>)

  /** json::empty(): true for null and for an empty array or object. */
  predicate Empty(j: Json) {
    j == Null || j == Arr([]) || j == Obj(map[])
  }

  /** json::size(): 0 for null, the element count of an array or object, 1 otherwise. */
  function Size(j: Json): nat {
    match j
    case Null => 0
    case Arr(items) => |items|
    case Obj(fields) => |fields|
    case _ => 1
  }

  /** get<double>(): numbers only. */
  function AsNumber(j: Json): Option<real> {
    if j.Num? then Some(j.n) else None
  }

  /** j.value(key, json{}) on an object: the member, or null when it is missing. */
  function Member(j: Json, key: string): Json
    requires j.Obj?
  {
    if key in j.fields then j.fields[key] else Null
  }

  /** j.value(key, dflt) read as a double: the default only when the member is missing. */
  function NumberMember(j: Json, key: string, dflt: real): Option<real>
    requires j.Obj?
  {
    if key in j.fields then AsNumber(j.fields[key]) else Some(dflt)
  }

  /** j.value(key, false) read as a bool: the default only when the member is missing. */
  function BoolMember(j: Json, key: string): Option<bool>
    requires j.Obj?
  {
    if key !in j.fields then Some(false)
    else if j.fields[key].Bool? then Some(j.fields[key].b)
    else None
  }

  // ---------------------------------------------------------------------------
  // XY

  /**
   * from_json for XY<T>: an empty value is the zero pair; otherwise elements
   * 0 and 1 of an array, converted by get.
   */
  function XyFromJson<T>(j: Json, zero: T, get: Json -> Option<T>): (r: Option<XY<T>>)
    ensures Empty(j) ==> r == Some(XY(zero, zero))
    ensures !Empty(j) && !(j.Arr? && |j.items| >= 2) ==> r.None?
    ensures j.Arr? && |j.items| >= 2 ==>
      (r.Some? <==> get(j.items[0]).Some? && get(j.items[1]).Some?)
    ensures j.Arr? && |j.items| >= 2 && r.Some? ==>
      r.value == XY(get(j.items[0]).value, get(j.items[1]).value)
  {
    if Empty(j) then Some(XY(zero, zero))
    else if !j.Arr? || |j.items| < 2 then None
    else
      match (get(j.items[0]), get(j.items[1]))
      case (Some(x), Some(y)) => Some(XY(x, y))
      case _ => None
  }

  // ---------------------------------------------------------------------------
  // Bezier segments

  /** BezierSegment: a time interval and four control values. */
  datatype Segment = Segment(t: Interval, beginV: real, p1V: real, p2V: real, endV: real)

  /** The default end time and length: 1e12 seconds, "forever". */
  const Forever: real := 1_000_000_000_000.0

  /** The control points are evenly spaced: the cubic is the straight line from begin to end. */
  predicate Linear(s: Segment) {
    s.p1V - s.beginV == s.p2V - s.p1V == s.endV - s.p2V
  }

  /** The slope of the cubic at the start of the segment, dv/dt = 3 (p1 - begin) / dt. */
  function StartSlope(s: Segment): real
    requires s.t.begin < s.t.end
  {
    3.0 * (s.p1V - s.beginV) / (s.t.end - s.t.begin)
  }

  /** The slope of the cubic at the end of the segment, dv/dt = 3 (end - p2) / dt. */
  function EndSlope(s: Segment): real
    requires s.t.begin < s.t.end
  {
    3.0 * (s.endV - s.p2V) / (s.t.end - s.t.begin)
  }

  /**
   * parse_json_time: a number is itself; a string goes to parse_time, which is
   * the parameter parseTime; anything else is rejected.
   */
  function JsonTime(j: Json, parseTime: string -> Option<real>): (r: Option<real>)
    ensures r.Some? ==> j.Num? || j.Str?
    ensures j.Num? ==> r == Some(j.n)
  {
    match j
    case Num(n) => Some(n)
    case Str(s) => parseTime(s)
    case _ => None
  }

  /** The segment's "t" and "len" members turned into its interval. */
  function TimeFromJson(j: Json, parseTime: string -> Option<real>): (r: Option<Interval>)
    requires j.Obj?
    ensures Empty(Member(j, "t")) ==>
      r == (match NumberMember(j, "len", Forever)
            case Some(len) => Some(Interval(0.0, len))
            case None => None)
    ensures "t" in j.fields && j.fields["t"].Num? && "len" !in j.fields ==>
      r == Some(Interval(j.fields["t"].n, Forever))
    ensures "t" in j.fields && j.fields["t"].Num? && "len" in j.fields && j.fields["len"].Num? ==>
      r == Some(Interval(j.fields["t"].n, j.fields["t"].n + j.fields["len"].n))
    ensures "t" in j.fields && j.fields["t"].Arr? && |j.fields["t"].items| == 2 ==>
      (r.Some? <==>
        JsonTime(j.fields["t"].items[0], parseTime).Some? && JsonTime(j.fields["t"].items[1], parseTime).Some?)
    ensures r.Some? && !Empty(Member(j, "t")) && !j.fields["t"].Num? ==>
      j.fields["t"].Arr? && 1 <= |j.fields["t"].items| <= 2
    ensures r.Some? && Size(Member(j, "t")) == 2 ==>
      r.value == Interval(JsonTime(j.fields["t"].items[0], parseTime).value,
                          JsonTime(j.fields["t"].items[1], parseTime).value)
  {
    var tj := Member(j, "t");
    if Empty(tj) then
      match NumberMember(j, "len", Forever)
      case Some(len) => Some(Interval(0.0, len))
      case None => None
    else if tj.Num? || (tj.Arr? && |tj.items| == 1) then
      match JsonTime(if tj.Arr? then tj.items[0] else tj, parseTime)
      case None => None
      case Some(begin) =>
        match NumberMember(j, "len", Forever - begin)
        case Some(len) => Some(Interval(begin, begin + len))
        case None => None
    else if !tj.Arr? || |tj.items| != 2 then None
    else
      match (JsonTime(tj.items[0], parseTime), JsonTime(tj.items[1], parseTime))
      case (Some(b), Some(e)) => Some(Interval(b, e))
      case _ => None
  }

  /** A straight line from begin to end over t: p1 and p2 at one and two thirds. */
  function Thirds(t: Interval, begin: real, end: real): (s: Segment)
    ensures s.t == t && s.beginV == begin && s.endV == end && Linear(s)
  {
    Segment(t, begin, begin + (end - begin) / 3.0, end - (end - begin) / 3.0, end)
  }

  /** The value of a one-element "v": the number itself or the array's only element. */
  function SingleValue(vj: Json): Option<real> {
    if vj.Arr? && |vj.items| == 1 then AsNumber(vj.items[0]) else AsNumber(vj)
  }

  /** No "v", or one value: the line that starts there (0 when missing) and climbs at "rate" (default 0). */
  function LineValues(j: Json, t: Interval): (r: Option<Segment>)
    requires j.Obj?
    ensures r.Some? <==>
      NumberMember(j, "rate", 0.0).Some? && (Empty(Member(j, "v")) || SingleValue(Member(j, "v")).Some?)
    ensures r.Some? ==>
      r.value.t == t && Linear(r.value) &&
      r.value.beginV == (if Empty(Member(j, "v")) then 0.0 else SingleValue(Member(j, "v")).value) &&
      r.value.endV == r.value.beginV + NumberMember(j, "rate", 0.0).value * (t.end - t.begin)
  {
    var begin := if Empty(Member(j, "v")) then Some(0.0) else SingleValue(Member(j, "v"));
    match (begin, NumberMember(j, "rate", 0.0))
    case (Some(b), Some(rate)) => Some(Thirds(t, b, b + rate * (t.end - t.begin)))
    case _ => None
  }

  /** Two values: the line between them, or the cubic leaving and arriving at the two "rate"s. */
  function PairValues(j: Json, t: Interval, b: real, e: real): (r: Option<Segment>)
    requires j.Obj?
    ensures r.Some? ==> r.value.t == t && r.value.beginV == b && r.value.endV == e
    ensures Empty(Member(j, "rate")) ==> r == Some(Thirds(t, b, e))
    ensures !Empty(Member(j, "rate")) ==>
      (r.Some? <==>
        Member(j, "rate").Arr? && |Member(j, "rate").items| == 2 &&
        AsNumber(Member(j, "rate").items[0]).Some? && AsNumber(Member(j, "rate").items[1]).Some?)
    ensures !Empty(Member(j, "rate")) && r.Some? && t.begin < t.end ==>
      StartSlope(r.value) == Member(j, "rate").items[0].n &&
      EndSlope(r.value) == Member(j, "rate").items[1].n
  {
    var rj := Member(j, "rate");
    if Empty(rj) then Some(Thirds(t, b, e))
    else if !rj.Arr? || |rj.items| != 2 then None
    else
      match (AsNumber(rj.items[0]), AsNumber(rj.items[1]))
      case (Some(r0), Some(r1)) =>
        var dt := t.end - t.begin;
        var s := Segment(t, b, b + r0 * dt / 3.0, e - r1 * dt / 3.0, e);
        assert dt > 0.0 ==> StartSlope(s) == r0 && EndSlope(s) == r1 by {
          if dt > 0.0 {
            SlopeOf(r0, dt);
            SlopeOf(r1, dt);
          }
        }
        Some(s)
      case _ => None
  }

  lemma SlopeOf(r: real, dt: real)
    requires dt > 0.0
    ensures 3.0 * (r * dt / 3.0) / dt == r
  {
  }

  /** The control values from "v" and "rate", for a segment over t. */
  function ValuesFromJson(j: Json, t: Interval): (r: Option<Segment>)
    requires j.Obj?
    ensures r.Some? ==> r.value.t == t
    ensures var vj := Member(j, "v");
      Empty(vj) || vj.Num? || (vj.Arr? && |vj.items| == 1) ==> r == LineValues(j, t)
    ensures var vj := Member(j, "v");
      vj.Arr? && |vj.items| == 2 ==>
      r == (match (AsNumber(vj.items[0]), AsNumber(vj.items[1]))
            case (Some(b), Some(e)) => PairValues(j, t, b, e)
            case _ => None)
    // four values: the control points verbatim, and no "rate" beside them
    ensures var vj := Member(j, "v");
      vj.Arr? && |vj.items| == 4 ==>
      (r.Some? <==> "rate" !in j.fields && forall k :: 0 <= k < 4 ==> AsNumber(vj.items[k]).Some?) &&
      (r.Some? ==> r.value == Segment(t, vj.items[0].n, vj.items[1].n, vj.items[2].n, vj.items[3].n))
    // any other "v" leaves the values at their defaults
    ensures var vj := Member(j, "v");
      !Empty(vj) && !vj.Num? && !(vj.Arr? && |vj.items| in {1, 2, 4}) ==>
      r == Some(Segment(t, 0.0, 0.0, 0.0, 0.0))
  {
    var vj := Member(j, "v");
    if Empty(vj) || vj.Num? || (vj.Arr? && |vj.items| == 1) then LineValues(j, t)
    else if vj.Arr? && |vj.items| == 2 then
      match (AsNumber(vj.items[0]), AsNumber(vj.items[1]))
      case (Some(b), Some(e)) => PairValues(j, t, b, e)
      case _ => None
    else if vj.Arr? && |vj.items| == 4 then
      match (AsNumber(vj.items[0]), AsNumber(vj.items[1]), AsNumber(vj.items[2]), AsNumber(vj.items[3]))
      case (Some(b), Some(p1), Some(p2), Some(e)) =>
        if "rate" in j.fields then None else Some(Segment(t, b, p1, p2, e))
      case _ => None
    else Some(Segment(t, 0.0, 0.0, 0.0, 0.0))
  }


  /** from_json for BezierSegment. */
  function SegmentFromJson(j: Json, parseTime: string -> Option<real>): (r: Option<Segment>)
    // a bare number is that constant forever
    ensures j.Num? ==> r == Some(Segment(Interval(0.0, Forever), j.n, j.n, j.n, j.n))
    // anything else must be an object whose times do not run backwards
    ensures !j.Num? && !j.Obj? ==> r.None?
    ensures r.Some? ==> r.value.t.begin <= r.value.t.end
    ensures j.Obj? ==>
      r == (match TimeFromJson(j, parseTime)
            case Some(t) => if t.end - t.begin >= 0.0 then ValuesFromJson(j, t) else None
            case None => None)
  {
    if j.Num? then Some(Segment(Interval(0.0, Forever), j.n, j.n, j.n, j.n))
    else if !j.Obj? then None
    else
      match TimeFromJson(j, parseTime)
      case None => None
      case Some(t) =>
        if t.end - t.begin < 0.0 then None else ValuesFromJson(j, t)
  }

  /** A JSON array converted element by element into segments; one bad element rejects all. */
  function SegmentsFromJson(items: seq<Json>, parseTime: string -> Option<real>): (r: Option<seq<Segment>>)
    ensures r.Some? <==> forall i :: 0 <= i < |items| ==> SegmentFromJson(items[i], parseTime).Some?
    ensures r.Some? ==>
      |r.value| == |items| &&
      forall i :: 0 <= i < |items| ==> SegmentFromJson(items[i], parseTime) == Some(r.value[i])
    decreases |items|
  {
    if items == [] then Some([])
    else
      match (SegmentFromJson(items[0], parseTime), SegmentsFromJson(items[1..], parseTime))
      case (Some(s), Some(rest)) =>
        assert forall i :: 1 <= i < |items| ==> items[i] == items[1..][i - 1];
        Some([s] + rest)
      case (None, _) => None
      case (_, None) =>
        assert forall i :: 1 <= i < |items| ==> items[i] == items[1..][i - 1];
        None
  }

  // ---------------------------------------------------------------------------
  // Bezier splines

  /** BezierSpline: its segments and the repeat period (0 for none). */
  datatype Spline = Spline(segments: seq<Segment>, repeat: real)

  /** The check after decoding: each segment ends before the next begins. */
  predicate Ordered(segs: seq<Segment>) {
    forall i :: 0 <= i < |segs| - 1 ==> segs[i].t.end <= segs[i + 1].t.begin
  }

  /**
   * The spline before the time-sequence check: an object with "segments", an
   * array of segments, a single segment, or nothing for an empty value.  An
   * empty array is the empty spline, like null and {}.
   */
  function SplineShape(j: Json, parseTime: string -> Option<real>): Option<Spline> {
    if j.Obj? && "segments" in j.fields then
      var sj := j.fields["segments"];
      if !sj.Arr? then None
      else
        match (SegmentsFromJson(sj.items, parseTime), BoolMember(j, "repeat"))
        case (Some(segs), Some(rep)) => Some(Spline(segs, if rep then 1.0 else 0.0))
        case _ => None
    else if j.Arr? && |j.items| > 0 && !j.items[0].Num? then
      match SegmentsFromJson(j.items, parseTime)
      case Some(segs) => Some(Spline(segs, 0.0))
      case None => None
    else if !Empty(j) then
      match SegmentFromJson(j, parseTime)
      case Some(s) => Some(Spline([s], 0.0))
      case None => None
    else Some(Spline([], 0.0))
  }

  /** from_json for BezierSpline, with an empty array accepted as an empty spline. */
  function SplineFromJson(j: Json, parseTime: string -> Option<real>): (r: Option<Spline>)
    ensures Empty(j) ==> r == Some(Spline([], 0.0))
    ensures j.Num? ==> r == Some(Spline([Segment(Interval(0.0, Forever), j.n, j.n, j.n, j.n)], 0.0))
    ensures j.Obj? && "segments" !in j.fields && !Empty(j) ==>
      r == (match SegmentFromJson(j, parseTime)
            case Some(s) => Some(Spline([s], 0.0))
            case None => None)
    ensures j.Obj? && "segments" in j.fields && r.Some? ==> r.value.repeat in {0.0, 1.0}
    ensures r.Some? ==> Ordered(r.value.segments)
    ensures r.Some? ==> forall i :: 0 <= i < |r.value.segments| ==>
      r.value.segments[i].t.begin <= r.value.segments[i].t.end
  {
    match SplineShape(j, parseTime)
    case None => None
    case Some(sp) => if Ordered(sp.segments) then Some(sp) else None
  }

  /** from_json for BezierSpline as written: j.at(0) throws on an empty array. */
  function SplineFromJsonAsWritten(j: Json, parseTime: string -> Option<real>): (r: Option<Spline>)
    ensures j != Arr([]) ==> r == SplineFromJson(j, parseTime)
  {
    if j == Arr([]) then None else SplineFromJson(j, parseTime)
  }

  /** The empty array is rejected as written, while null and {} decode to the empty spline. */
  lemma AsWrittenRejectsEmptyArray(parseTime: string -> Option<real>)
    ensures SplineFromJsonAsWritten(Arr([]), parseTime).None?
    ensures SplineFromJsonAsWritten(Null, parseTime) == Some(Spline([], 0.0))
    ensures SplineFromJsonAsWritten(Obj(map[]), parseTime) == Some(Spline([], 0.0))
    ensures SplineFromJson(Arr([]), parseTime) == Some(Spline([], 0.0))
  {
  }

  /** The check loop: for (si = 0; si + 1 < size; ++si) CHECK_ARG(end <= next begin). */
  method CheckOrder(segs: seq<Segment>) returns (ok: bool)
    ensures ok == Ordered(segs)
  {
    var si := 0;
    while si + 1 < |segs|
      invariant si <= |segs| || |segs| == 0
      invariant forall i :: 0 <= i < si && i < |segs| - 1 ==> segs[i].t.end <= segs[i + 1].t.begin
    {
      if segs[si].t.end > segs[si + 1].t.begin {
        return false;
      }
      si := si + 1;
    }
    ok := true;
  }

  /** from_json for BezierSpline: the decoding, then the time-sequence check. */
  method ReadSpline(j: Json, parseTime: string -> Option<real>) returns (r: Option<Spline>)
    ensures r == SplineFromJson(j, parseTime)
  {
    r := SplineShape(j, parseTime);
    if r.Some? {
      var ok := CheckOrder(r.value.segments);
      if !ok {
        r := None;
      }
    }
  }

  /** Ordered segments with forward times follow one another: any earlier one ends before a later one begins. */
  lemma {:induction false} OrderedIsSorted(segs: seq<Segment>, i: nat, k: nat)
    requires Ordered(segs)
    requires forall m :: 0 <= m < |segs| ==> segs[m].t.begin <= segs[m].t.end
    requires i < k < |segs|
    ensures segs[i].t.end <= segs[k].t.begin
    decreases k - i
  {
    if i + 1 < k {
      OrderedIsSorted(segs, i + 1, k);
      assert segs[i].t.end <= segs[i + 1].t.begin;
      assert segs[i + 1].t.begin <= segs[i + 1].t.end;
    }
  }

  // ---------------------------------------------------------------------------
  // Scripts

  /** ScriptMedia: a file, its play-position spline and the buffer time (0.2 by default). */
  datatype Media = Media(file: string, play: Spline, buffer: real)

  /** ScriptLayer: the media and the splines that place it on the screen. */
  datatype Layer = Layer(media: Media, fromXy: XY<Spline>, fromSize: XY<Spline>,
                         toXy: XY<Spline>, toSize: XY<Spline>, opacity: Spline)

  /** ScriptScreen: the requested display mode and the layers shown on it. */
  datatype Screen = Screen(mode: XY<int>, modeHz: int, layers: seq<Layer>)

  /** Script: screens by connector name, standby media, and whether times count from the run start. */
  datatype Script = Script(screens: map<string, Screen>, standbys: seq<Media>, runRelative: bool)

  /**
   * Every segment time of a script mapped by f, everything else kept: the
   * shape of the edit make_script_absolute makes.
   */
  function RetimeSpline(sp: Spline, f: real -> real): (r: Spline)
    ensures |r.segments| == |sp.segments| && r.repeat == sp.repeat
    ensures forall i :: 0 <= i < |sp.segments| ==>
      r.segments[i] == sp.segments[i].(t := Interval(f(sp.segments[i].t.begin), f(sp.segments[i].t.end)))
  {
    Spline(seq(|sp.segments|, i requires 0 <= i < |sp.segments| =>
      sp.segments[i].(t := Interval(f(sp.segments[i].t.begin), f(sp.segments[i].t.end)))), sp.repeat)
  }

  function RetimeXy(xy: XY<Spline>, f: real -> real): XY<Spline> {
    XY(RetimeSpline(xy.x, f), RetimeSpline(xy.y, f))
  }

  function RetimeMedia(m: Media, f: real -> real): Media {
    m.(play := RetimeSpline(m.play, f))
  }

  function RetimeLayer(l: Layer, f: real -> real): Layer {
    Layer(RetimeMedia(l.media, f), RetimeXy(l.fromXy, f), RetimeXy(l.fromSize, f),
          RetimeXy(l.toXy, f), RetimeXy(l.toSize, f), RetimeSpline(l.opacity, f))
  }

  function RetimeScreen(s: Screen, f: real -> real): Screen {
    s.(layers := seq(|s.layers|, i requires 0 <= i < |s.layers| => RetimeLayer(s.layers[i], f)))
  }

  function RetimeScript(s: Script, f: real -> real): Script {
    s.(screens := map k | k in s.screens :: RetimeScreen(s.screens[k], f),
       standbys := seq(|s.standbys|, i requires 0 <= i < |s.standbys| => RetimeMedia(s.standbys[i], f)))
  }

  /** fix_time: a time within 1e12 of zero is moved by run_start; the "forever" sentinels stay. */
  function FixTime(t: real, runStart: real): real {
    if -Forever < t < Forever then t + runStart else t
  }

  function Fix(runStart: real): real -> real {
    t => FixTime(t, runStart)
  }

  /** make_script_absolute. */
  function AbsoluteScript(s: Script, runStart: real): (r: Script)
    ensures !s.runRelative ==> r == s
    ensures !r.runRelative
    ensures s.runRelative ==> r.screens.Keys == s.screens.Keys && |r.standbys| == |s.standbys|
  {
    if !s.runRelative then s else RetimeScript(s, Fix(runStart)).(runRelative := false)
  }

  /** Applying make_script_absolute again changes nothing, whatever the second start. */
  lemma AbsoluteIdempotent(s: Script, a: real, b: real)
    ensures AbsoluteScript(AbsoluteScript(s, a), b) == AbsoluteScript(s, a)
  {
  }

  /** Retiming by f and then by g is retiming by g after f. */
  lemma RetimeSplineCompose(sp: Spline, f: real -> real, g: real -> real, h: real -> real)
    requires forall t :: h(t) == g(f(t))
    ensures RetimeSpline(RetimeSpline(sp, f), g) == RetimeSpline(sp, h)
  {
    var a := RetimeSpline(RetimeSpline(sp, f), g);
    var b := RetimeSpline(sp, h);
    assert |a.segments| == |b.segments|;
    forall i | 0 <= i < |a.segments|
      ensures a.segments[i] == b.segments[i]
    {
      var s := sp.segments[i];
      assert h(s.t.begin) == g(f(s.t.begin)) && h(s.t.end) == g(f(s.t.end));
    }
  }

  lemma RetimeLayerCompose(l: Layer, f: real -> real, g: real -> real, h: real -> real)
    requires forall t :: h(t) == g(f(t))
    ensures RetimeLayer(RetimeLayer(l, f), g) == RetimeLayer(l, h)
  {
    RetimeSplineCompose(l.media.play, f, g, h);
    RetimeSplineCompose(l.fromXy.x, f, g, h);
    RetimeSplineCompose(l.fromXy.y, f, g, h);
    RetimeSplineCompose(l.fromSize.x, f, g, h);
    RetimeSplineCompose(l.fromSize.y, f, g, h);
    RetimeSplineCompose(l.toXy.x, f, g, h);
    RetimeSplineCompose(l.toXy.y, f, g, h);
    RetimeSplineCompose(l.toSize.x, f, g, h);
    RetimeSplineCompose(l.toSize.y, f, g, h);
    RetimeSplineCompose(l.opacity, f, g, h);
  }

  lemma RetimeScreenCompose(s: Screen, f: real -> real, g: real -> real, h: real -> real)
    requires forall t :: h(t) == g(f(t))
    ensures RetimeScreen(RetimeScreen(s, f), g) == RetimeScreen(s, h)
  {
    var a := RetimeScreen(RetimeScreen(s, f), g);
    var b := RetimeScreen(s, h);
    forall i | 0 <= i < |s.layers|
      ensures a.layers[i] == b.layers[i]
    {
      RetimeLayerCompose(s.layers[i], f, g, h);
    }
  }

  lemma RetimeScriptCompose(s: Script, f: real -> real, g: real -> real, h: real -> real)
    requires forall t :: h(t) == g(f(t))
    ensures RetimeScript(RetimeScript(s, f), g) == RetimeScript(s, h)
  {
    var a := RetimeScript(RetimeScript(s, f), g);
    var b := RetimeScript(s, h);
    forall k | k in s.screens
      ensures a.screens[k] == b.screens[k]
    {
      RetimeScreenCompose(s.screens[k], f, g, h);
    }
    forall i | 0 <= i < |s.standbys|
      ensures a.standbys[i] == b.standbys[i]
    {
      RetimeSplineCompose(s.standbys[i].play, f, g, h);
    }
  }

  function Zero(): real -> real {
    t => 0.0
  }

  /**
   * make_script_absolute changes nothing but segment times: with every time
   * erased, the result is the input with run_relative cleared.
   */
  lemma AbsoluteOnlyMovesTimes(s: Script, runStart: real)
    ensures RetimeScript(AbsoluteScript(s, runStart), Zero()) == RetimeScript(s, Zero()).(runRelative := false)
  {
    if s.runRelative {
      RetimeScriptCompose(s, Fix(runStart), Zero(), Zero());
    }
  }

  /** Which times move: those strictly within 1e12 of zero, by exactly run_start. */
  lemma AbsoluteMovesSegment(s: Script, runStart: real, k: string, li: nat, si: nat)
    requires s.runRelative && k in s.screens && li < |s.screens[k].layers|
    requires si < |s.screens[k].layers[li].opacity.segments|
    ensures var seg := s.screens[k].layers[li].opacity.segments[si];
      var out := AbsoluteScript(s, runStart).screens[k].layers[li].opacity.segments[si];
      out.(t := seg.t) == seg &&
      (-Forever < seg.t.begin < Forever ==> out.t.begin == seg.t.begin + runStart) &&
      (!(-Forever < seg.t.begin < Forever) ==> out.t.begin == seg.t.begin) &&
      (-Forever < seg.t.end < Forever ==> out.t.end == seg.t.end + runStart) &&
      (!(-Forever < seg.t.end < Forever) ==> out.t.end == seg.t.end)
  {
    var l := s.screens[k].layers[li];
    assert AbsoluteScript(s, runStart).screens[k].layers[li] == RetimeLayer(l, Fix(runStart));
  }

  /** A bare number's segment starts at run_start once made absolute and still lasts forever. */
  lemma ConstantStartsAtRunStart(v: real, runStart: real, parseTime: string -> Option<real>)
    ensures var sp := SplineFromJson(Num(v), parseTime).value;
      RetimeSpline(sp, Fix(runStart)).segments == [Segment(Interval(runStart, Forever), v, v, v, v)]
  {
  }

  // ---------------------------------------------------------------------------
  // make_script_absolute as the loops of the source

  /** fix_bezier: both times of every segment, in place. */
  method FixBezier(sp: Spline, runStart: real) returns (r: Spline)
    ensures r == RetimeSpline(sp, Fix(runStart))
  {
    var segs := sp.segments;
    var i := 0;
    while i < |segs|
      invariant i <= |segs| == |sp.segments|
      invariant forall m :: 0 <= m < i ==> segs[m] == RetimeSpline(sp, Fix(runStart)).segments[m]
      invariant forall m :: i <= m < |segs| ==> segs[m] == sp.segments[m]
    {
      var seg := segs[i];
      segs := segs[i := seg.(t := Interval(FixTime(seg.t.begin, runStart), FixTime(seg.t.end, runStart)))];
      i := i + 1;
    }
    r := Spline(segs, sp.repeat);
  }

  /** The body of the layer loop: the play spline and the five placement splines. */
  method FixLayer(l: Layer, runStart: real) returns (r: Layer)
    ensures r == RetimeLayer(l, Fix(runStart))
  {
    var play := FixBezier(l.media.play, runStart);
    var fx := FixBezier(l.fromXy.x, runStart);
    var fy := FixBezier(l.fromXy.y, runStart);
    var fw := FixBezier(l.fromSize.x, runStart);
    var fh := FixBezier(l.fromSize.y, runStart);
    var tx := FixBezier(l.toXy.x, runStart);
    var ty := FixBezier(l.toXy.y, runStart);
    var tw := FixBezier(l.toSize.x, runStart);
    var th := FixBezier(l.toSize.y, runStart);
    var op := FixBezier(l.opacity, runStart);
    r := Layer(l.media.(play := play), XY(fx, fy), XY(fw, fh), XY(tx, ty), XY(tw, th), op);
  }

  /** for (auto& layer : screen.second.layers). */
  method FixScreen(s: Screen, runStart: real) returns (r: Screen)
    ensures r == RetimeScreen(s, Fix(runStart))
  {
    var layers := s.layers;
    var i := 0;
    while i < |layers|
      invariant i <= |layers| == |s.layers|
      invariant forall m :: 0 <= m < i ==> layers[m] == RetimeLayer(s.layers[m], Fix(runStart))
      invariant forall m :: i <= m < |layers| ==> layers[m] == s.layers[m]
    {
      var fixed := FixLayer(layers[i], runStart);
      layers := layers[i := fixed];
      i := i + 1;
    }
    r := s.(layers := layers);
  }

  /** for (auto& standby : script.standbys). */
  method FixStandbys(ms: seq<Media>, runStart: real) returns (r: seq<Media>)
    ensures |r| == |ms| && forall m :: 0 <= m < |ms| ==> r[m] == RetimeMedia(ms[m], Fix(runStart))
  {
    r := ms;
    var i := 0;
    while i < |r|
      invariant i <= |r| == |ms|
      invariant forall m :: 0 <= m < i ==> r[m] == RetimeMedia(ms[m], Fix(runStart))
      invariant forall m :: i <= m < |r| ==> r[m] == ms[m]
    {
      var play := FixBezier(r[i].play, runStart);
      r := r[i := r[i].(play := play)];
      i := i + 1;
    }
  }

  /** make_script_absolute: every screen, then the standbys, then run_relative cleared. */
  method MakeScriptAbsolute(script: Script, runStart: real) returns (r: Script)
    ensures r == AbsoluteScript(script, runStart)
  {
    if !script.runRelative {
      return script;
    }
    var screens := script.screens;
    var todo := script.screens.Keys;
    while todo != {}
      invariant todo <= script.screens.Keys && screens.Keys == script.screens.Keys
      invariant forall k :: k in screens ==>
        screens[k] == if k in todo then script.screens[k] else RetimeScreen(script.screens[k], Fix(runStart))
      decreases |todo|
    {
      var k :| k in todo;
      var fixed := FixScreen(screens[k], runStart);
      screens := screens[k := fixed];
      todo := todo - {k};
    }
    var standbys := FixStandbys(script.standbys, runStart);
    r := Script(screens, standbys, false);
    assert r.screens == AbsoluteScript(script, runStart).screens;
    assert r.standbys == AbsoluteScript(script, runStart).standbys;
  }
}
