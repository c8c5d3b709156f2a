/**
 * The output of display_mode_gen.py: two C++ vector initialisers, cta_861_modes with
 * the CTA records in ascending VIC order and vesa_dmt_modes with the VESA records in
 * block order, one record per line.
 */
module ModeEmit {
  import opened XYs
  import opened DisplayModes
  import opened Text

  // ---------------------------------------------------------------------------
  // sorted(cta_vic_mode.keys())
  // ---------------------------------------------------------------------------

  predicate IsLeast(x: int, s: set<int>) {
    x in s && forall y :: y in s ==> x <= y
  }

  lemma {:induction false} HasLeast(s: set<int>)
    requires s != {}
    ensures exists x :: IsLeast(x, s)
    decreases |s|
  {
    if forall z :: z !in s {
      assert false;
    }
    var y :| y in s;
    if s != {y} {
      HasLeast(s - {y});
      var x :| IsLeast(x, s - {y});
      var m := if y < x then y else x;
      forall z | z in s
        ensures m <= z
      {
        if z != y {
          assert z in s - {y};
        }
      }
      assert IsLeast(m, s);
    } else {
      assert IsLeast(y, s);
    }
  }

  function Least(s: set<int>): (x: int)
    requires s != {}
    ensures x in s && forall y :: y in s ==> x <= y
  {
    HasLeast(s);
    var x :| IsLeast(x, s);
    x
  }

  /** Strictly ascending: no element twice, each below the ones after it. */
  predicate Increasing(r: seq<int>) {
    forall i, j :: 0 <= i < j < |r| ==> r[i] < r[j]
  }

  lemma ConsIncreasing(x: int, rest: seq<int>)
    requires Increasing(rest)
    requires forall k :: k in rest ==> x < k
    ensures Increasing([x] + rest)
  {
    var r := [x] + rest;
    forall i, j | 0 <= i < j < |r|
      ensures r[i] < r[j]
    {
      assert r[j] == rest[j - 1] && rest[j - 1] in rest;
      if i > 0 {
        assert r[i] == rest[i - 1];
      }
    }
  }

  /** sorted(s): the elements of s, each once, in ascending order. */
  function SortedKeys(s: set<int>): (r: seq<int>)
    ensures |r| == |s|
    ensures forall k :: k in r <==> k in s
    ensures Increasing(r)
    decreases |s|
  {
    if s == {} then []
    else
      var x := Least(s);
      var rest := SortedKeys(s - {x});
      ConsIncreasing(x, rest);
      [x] + rest
  }

  // ---------------------------------------------------------------------------
  // The printed text
  // ---------------------------------------------------------------------------

  /** f"{{{xy[0]}, {xy[1]}}}" */
  function XYText(a: XY<int>): string {
    "{" + IntToString(a.x) + ", " + IntToString(a.y) + "}"
  }

  /** f".{name}={value}, " */
  function Field(name: string, value: string): string {
    "." + name + "=" + value + ", "
  }

  /** The line printed for one record, without print's newline. */
  function RecordLine(m: DisplayMode): string {
    "  {"
    + Field("size", XYText(m.size))
    + Field("scan_size", XYText(m.scanSize))
    + Field("sync_start", XYText(m.syncStart))
    + Field("sync_end", XYText(m.syncEnd))
    + Field("sync_polarity", XYText(m.syncPolarity))
    + Field("doubling", XYText(m.doubling))
    + Field("aspect", XYText(m.aspect))
    + Field("pixel_khz", IntToString(m.pixelKhz))
    + Field("nominal_hz", IntToString(m.nominalHz))
    + "},"
  }

  function HeaderLine(table: string): string {
    "std::vector<pivid::DisplayMode> const " + table + " = {"
  }

  /** The records' lines, one per record, in order. */
  function Lines(modes: seq<DisplayMode>): seq<string> {
    seq(|modes|, i requires 0 <= i < |modes| => RecordLine(modes[i]))
  }

  /**
   * The lines printed for one table: the header, one line per record, and "};"
   * followed by the empty line that print("};\n") adds.
   */
  function TableLineSeq(table: string, modes: seq<DisplayMode>): seq<string> {
    [HeaderLine(table)] + Lines(modes) + ["};", ""]
  }

  function TableText(table: string, modes: seq<DisplayMode>): string {
    PrintLines(TableLineSeq(table, modes))
  }

  /** [cta_vic_mode[v] for v in sorted(cta_vic_mode.keys())] */
  function CtaList(cta: map<int, DisplayMode>): (r: seq<DisplayMode>)
    ensures |r| == |cta.Keys|
    ensures forall i :: 0 <= i < |r| ==> SortedKeys(cta.Keys)[i] in cta && r[i] == cta[SortedKeys(cta.Keys)[i]]
  {
    var ks := SortedKeys(cta.Keys);
    assert forall i :: 0 <= i < |ks| ==> ks[i] in ks;
    seq(|ks|, i requires 0 <= i < |ks| => cta[ks[i]])
  }

  /** Everything printed: the CTA table, then the VESA table. */
  function Output(cta: map<int, DisplayMode>, vesa: seq<DisplayMode>): string {
    TableText("cta_861_modes", CtaList(cta)) + TableText("vesa_dmt_modes", vesa)
  }

  // ---------------------------------------------------------------------------
  // Properties
  // ---------------------------------------------------------------------------

  lemma IntOnOneLine(n: int)
    ensures NoChar(IntToString(n), '\n')
  {
    var d := NatToString(if n < 0 then -n else n);
    assert AllDigits(d);
  }

  lemma XYOnOneLine(a: XY<int>)
    ensures NoChar(XYText(a), '\n')
  {
    IntOnOneLine(a.x);
    IntOnOneLine(a.y);
  }

  lemma FieldOnOneLine(name: string, value: string)
    requires NoChar(name, '\n') && NoChar(value, '\n')
    ensures NoChar(Field(name, value), '\n')
  {
    NoCharJoined("." + name + "=", value, '\n');
    NoCharJoined("." + name + "=" + value, ", ", '\n');
  }

  lemma XYFieldOnOneLine(name: string, a: XY<int>)
    requires NoChar(name, '\n')
    ensures NoChar(Field(name, XYText(a)), '\n')
  {
    XYOnOneLine(a);
    FieldOnOneLine(name, XYText(a));
  }

  /** No number or pair in a record's line holds a newline, so each record is printed on one line. */
  lemma NamesOnOneLine()
    ensures NoChar("size", '\n') && NoChar("scan_size", '\n') && NoChar("sync_start", '\n')
    ensures NoChar("sync_end", '\n') && NoChar("sync_polarity", '\n') && NoChar("doubling", '\n')
    ensures NoChar("aspect", '\n') && NoChar("pixel_khz", '\n') && NoChar("nominal_hz", '\n')
    ensures NoChar("  {", '\n') && NoChar("},", '\n')
  {
  }

  lemma JoinedOnOneLine(p0: string, p1: string, p2: string, p3: string, p4: string, p5: string,
                        p6: string, p7: string, p8: string, p9: string, p10: string)
    requires NoChar(p0, '\n') && NoChar(p1, '\n') && NoChar(p2, '\n') && NoChar(p3, '\n')
    requires NoChar(p4, '\n') && NoChar(p5, '\n') && NoChar(p6, '\n') && NoChar(p7, '\n')
    requires NoChar(p8, '\n') && NoChar(p9, '\n') && NoChar(p10, '\n')
    ensures NoChar(p0 + p1 + p2 + p3 + p4 + p5 + p6 + p7 + p8 + p9 + p10, '\n')
  {
    NoCharJoined(p0, p1, '\n');
    NoCharJoined(p0 + p1, p2, '\n');
    NoCharJoined(p0 + p1 + p2, p3, '\n');
    NoCharJoined(p0 + p1 + p2 + p3, p4, '\n');
    NoCharJoined(p0 + p1 + p2 + p3 + p4, p5, '\n');
    NoCharJoined(p0 + p1 + p2 + p3 + p4 + p5, p6, '\n');
    NoCharJoined(p0 + p1 + p2 + p3 + p4 + p5 + p6, p7, '\n');
    NoCharJoined(p0 + p1 + p2 + p3 + p4 + p5 + p6 + p7, p8, '\n');
    NoCharJoined(p0 + p1 + p2 + p3 + p4 + p5 + p6 + p7 + p8, p9, '\n');
    NoCharJoined(p0 + p1 + p2 + p3 + p4 + p5 + p6 + p7 + p8 + p9, p10, '\n');
  }

  lemma RecordOnOneLine(m: DisplayMode)
    ensures NoChar(RecordLine(m), '\n')
  {
    NamesOnOneLine();
    XYFieldOnOneLine("size", m.size);
    XYFieldOnOneLine("scan_size", m.scanSize);
    XYFieldOnOneLine("sync_start", m.syncStart);
    XYFieldOnOneLine("sync_end", m.syncEnd);
    XYFieldOnOneLine("sync_polarity", m.syncPolarity);
    XYFieldOnOneLine("doubling", m.doubling);
    XYFieldOnOneLine("aspect", m.aspect);
    IntOnOneLine(m.pixelKhz);
    FieldOnOneLine("pixel_khz", IntToString(m.pixelKhz));
    IntOnOneLine(m.nominalHz);
    FieldOnOneLine("nominal_hz", IntToString(m.nominalHz));
    JoinedOnOneLine("  {", Field("size", XYText(m.size)), Field("scan_size", XYText(m.scanSize)),
      Field("sync_start", XYText(m.syncStart)), Field("sync_end", XYText(m.syncEnd)),
      Field("sync_polarity", XYText(m.syncPolarity)), Field("doubling", XYText(m.doubling)),
      Field("aspect", XYText(m.aspect)), Field("pixel_khz", IntToString(m.pixelKhz)),
      Field("nominal_hz", IntToString(m.nominalHz)), "},");
  }

  lemma HeaderOnOneLine(table: string)
    requires NoChar(table, '\n')
    ensures NoChar(HeaderLine(table), '\n')
  {
    var pre := "std::vector<pivid::DisplayMode> const ";
    assert NoChar(pre, '\n');
    assert NoChar(" = {", '\n');
    NoCharJoined(pre, table, '\n');
    NoCharJoined(pre + table, " = {", '\n');
  }

  lemma RecordsOnLines(modes: seq<DisplayMode>)
    ensures SingleLines(Lines(modes))
  {
    forall k | 0 <= k < |modes|
      ensures NoChar(Lines(modes)[k], '\n')
    {
      RecordOnOneLine(modes[k]);
    }
  }

  lemma TableOnLines(table: string, modes: seq<DisplayMode>)
    requires NoChar(table, '\n')
    ensures SingleLines(TableLineSeq(table, modes))
  {
    HeaderOnOneLine(table);
    RecordsOnLines(modes);
    assert SingleLines(["};", ""]);
    SingleLinesJoined([HeaderLine(table)], Lines(modes));
    SingleLinesJoined([HeaderLine(table)] + Lines(modes), ["};", ""]);
  }

  /** Two tables printed one after the other split into their lines and a final empty piece. */
  lemma TwoTablesLines(t1: string, m1: seq<DisplayMode>, t2: string, m2: seq<DisplayMode>)
    requires NoChar(t1, '\n') && NoChar(t2, '\n')
    ensures Split(TableText(t1, m1) + TableText(t2, m2), "\n")
      == TableLineSeq(t1, m1) + TableLineSeq(t2, m2) + [""]
  {
    var a := TableLineSeq(t1, m1);
    var b := TableLineSeq(t2, m2);
    TableOnLines(t1, m1);
    TableOnLines(t2, m2);
    PrintLinesAppend(a, b);
    SingleLinesJoined(a, b);
    SplitPrintLines(a + b, "");
    assert PrintLines(a + b) + "" == PrintLines(a + b);
    assert Find("", "\n") == None;
  }

  /**
   * The whole output, line by line: the CTA table with one record per VIC in
   * ascending VIC order, then the VESA table with the records in block order, and
   * nothing after the last newline.
   */
  lemma OutputLines(cta: map<int, DisplayMode>, vesa: seq<DisplayMode>)
    ensures Split(Output(cta, vesa), "\n")
      == TableLineSeq("cta_861_modes", CtaList(cta)) + TableLineSeq("vesa_dmt_modes", vesa) + [""]
  {
    assert NoChar("cta_861_modes", '\n') && NoChar("vesa_dmt_modes", '\n');
    TwoTablesLines("cta_861_modes", CtaList(cta), "vesa_dmt_modes", vesa);
  }
}
