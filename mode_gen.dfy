/**
 * display_mode_gen.py as the program it is: module-level loops that fill the
 * dictionary cta_vic_mode in three passes, build vesa_dmt_modes block by block,
 * and print the two tables.  Each loop is proved to compute the function of
 * CtaTables, VesaDmt or ModeEmit that specifies it; a pass that returns false
 * stands for the exception that ends the script.
 */
module ModeGen {
  import opened XYs
  import opened DisplayModes
  import opened Text
  import opened CtaTables
  import opened VesaDmt
  import opened ModeEmit

  /** A left fold's loop state: the rest of the fold from line i on. */
  lemma RunLinesStep(m: VicModes, lines: seq<string>, i: nat, step: (VicModes, string) -> Option<VicModes>)
    requires i < |lines|
    ensures RunLines(m, lines[i..], step) ==
      match step(m, lines[i])
      case None => None
      case Some(m1) => RunLines(m1, lines[i + 1..], step)
  {
    assert lines[i..][0] == lines[i];
    assert lines[i..][1..] == lines[i + 1..];
  }

  lemma BlockPassStep(modes: seq<DisplayMode>, blocks: seq<string>, i: nat)
    requires i < |blocks|
    ensures BlockPass(modes, blocks[i..], AsWritten) ==
      match BlockStep(modes, blocks[i], AsWritten)
      case None => None
      case Some(m1) => BlockPass(m1, blocks[i + 1..], AsWritten)
  {
    assert blocks[i..][0] == blocks[i];
    assert blocks[i..][1..] == blocks[i + 1..];
  }

  lemma ReadEntriesStep(v: Entries, lines: seq<string>, i: nat)
    requires i < |lines|
    ensures ReadEntries(v, lines[i..]) ==
      match BlockLine(v, lines[i])
      case None => None
      case Some(v1) => ReadEntries(v1, lines[i + 1..])
  {
    assert lines[i..][0] == lines[i];
    assert lines[i..][1..] == lines[i + 1..];
  }

  /** The loop over ("scan_size", "sync_start", "sync_end") reads and writes these fields by index. */
  function HalvedField(r: DisplayMode, k: nat): XY<int>
    requires k < 3
  {
    if k == 0 then r.scanSize else if k == 1 then r.syncStart else r.syncEnd
  }

  function WithField(r: DisplayMode, k: nat, xy: XY<int>): (r2: DisplayMode)
    requires k < 3
    ensures HalvedField(r2, k) == xy
    ensures forall q :: 0 <= q < 3 && q != k ==> HalvedField(r2, q) == HalvedField(r, q)
    ensures r2.size == r.size && r2.syncPolarity == r.syncPolarity && r2.doubling == r.doubling
    ensures r2.aspect == r.aspect && r2.pixelKhz == r.pixelKhz && r2.nominalHz == r.nominalHz
  {
    if k == 0 then r.(scanSize := xy) else if k == 1 then r.(syncStart := xy) else r.(syncEnd := xy)
  }

  /**
   * for field in ("scan_size", "sync_start", "sync_end"): x, y = getattr(mode, field);
   * setattr(mode, field, (x // 2, y))
   */
  method HalveHorizontal(r: DisplayMode) returns (h: DisplayMode)
    ensures h == r.(scanSize := XY(r.scanSize.x / 2, r.scanSize.y),
                    syncStart := XY(r.syncStart.x / 2, r.syncStart.y),
                    syncEnd := XY(r.syncEnd.x / 2, r.syncEnd.y))
  {
    h := r;
    var k := 0;
    while k < 3
      invariant 0 <= k <= 3
      invariant forall q :: 0 <= q < k ==>
        HalvedField(h, q) == XY(HalvedField(r, q).x / 2, HalvedField(r, q).y)
      invariant forall q :: k <= q < 3 ==> HalvedField(h, q) == HalvedField(r, q)
      invariant h.size == r.size && h.syncPolarity == r.syncPolarity && h.doubling == r.doubling
      invariant h.aspect == r.aspect && h.pixelKhz == r.pixelKhz && h.nominalHz == r.nominalHz
    {
      var xy := HalvedField(h, k);
      h := WithField(h, k, XY(xy.x / 2, xy.y));
      k := k + 1;
    }
    assert HalvedField(h, 0) == h.scanSize && HalvedField(h, 1) == h.syncStart && HalvedField(h, 2) == h.syncEnd;
  }

  /** The script's state: the CTA dictionary and the VESA list. */
  class Generator {
    var ctaVicMode: VicModes
    var vesaDmtModes: seq<DisplayMode>

    constructor ()
      ensures ctaVicMode == map[] && vesaDmtModes == []
    {
      ctaVicMode := map[];
      vesaDmtModes := [];
    }

    /** The loop over one converted Table 1 row's VICs; the asserts follow each assignment. */
    method SetTimingRow(t: Timing) returns (ok: bool)
      requires |t.vics| > 0  // every converted row names a VIC (ParseTiming's contract)
      modifies this
      ensures ok == ApplyTiming(old(ctaVicMode), t).Some?
      ensures ok ==> ctaVicMode == ApplyTiming(old(ctaVicMode), t).value
      ensures vesaDmtModes == old(vesaDmtModes)
    {
      var j := 0;
      while j < |t.vics|
        invariant j <= |t.vics|
        invariant SetTimings(ctaVicMode, t.vics[j..], t) == SetTimings(old(ctaVicMode), t.vics, t)
        invariant j > 0 ==> TimingChecks(t)
        invariant vesaDmtModes == old(vesaDmtModes)
      {
        assert t.vics[j..][1..] == t.vics[j + 1..];
        var vic := t.vics[j];
        var mode := Lookup(ctaVicMode, vic);
        ctaVicMode := ctaVicMode[vic := TimingMode(mode, t)];
        if !TimingChecks(t) {
          return false;
        }
        j := j + 1;
      }
      assert t.vics[j..] == [];
      return true;
    }

    /** One line of Table 1: line.strip(), skip it if blank, split it and convert its fields. */
    method TimingRow(line: string) returns (ok: bool)
      modifies this
      ensures ok == TimingLine(old(ctaVicMode), line).Some?
      ensures ok ==> ctaVicMode == TimingLine(old(ctaVicMode), line).value
      ensures vesaDmtModes == old(vesaDmtModes)
    {
      var stripped := Strip(line);
      if stripped == [] {
        return true;
      }
      var row := ParseTiming(Words(stripped));
      if row.None? {
        return false;
      }
      ok := SetTimingRow(row.value);
    }

    /** The Table 1 loop: each row's VICs get a record, made with setdefault if need be. */
    method ReadTimings(table: string) returns (ok: bool)
      modifies this
      ensures ok == TimingPass(old(ctaVicMode), Split(table, "\n")).Some?
      ensures ok ==> ctaVicMode == TimingPass(old(ctaVicMode), Split(table, "\n")).value
      ensures vesaDmtModes == old(vesaDmtModes)
    {
      var lines := Split(table, "\n");
      var i := 0;
      while i < |lines|
        invariant i <= |lines|
        invariant RunLines(ctaVicMode, lines[i..], TimingLine) == TimingPass(old(ctaVicMode), lines)
        invariant vesaDmtModes == old(vesaDmtModes)
      {
        RunLinesStep(ctaVicMode, lines, i, TimingLine);
        ok := TimingRow(lines[i]);
        if !ok {
          return false;
        }
        i := i + 1;
      }
      return true;
    }

    /** The loop over one converted Table 2 row's VICs; each must already have a record. */
    method SetSyncRow(s: Sync) returns (ok: bool)
      modifies this
      ensures ok == ApplySync(old(ctaVicMode), s).Some?
      ensures ok ==> ctaVicMode == ApplySync(old(ctaVicMode), s).value
      ensures vesaDmtModes == old(vesaDmtModes)
    {
      var j := 0;
      while j < |s.vics|
        invariant j <= |s.vics|
        invariant SetSyncs(ctaVicMode, s.vics[j..], s) == SetSyncs(old(ctaVicMode), s.vics, s)
        invariant vesaDmtModes == old(vesaDmtModes)
      {
        assert s.vics[j..][1..] == s.vics[j + 1..];
        var vic := s.vics[j];
        if vic !in ctaVicMode {
          return false;
        }
        var mode := SyncMode(ctaVicMode[vic], s);
        ctaVicMode := ctaVicMode[vic := mode];
        if !SyncChecks(mode, s) {
          return false;
        }
        j := j + 1;
      }
      assert s.vics[j..] == [];
      return true;
    }

    method SyncRow(line: string) returns (ok: bool)
      modifies this
      ensures ok == SyncLine(old(ctaVicMode), line).Some?
      ensures ok ==> ctaVicMode == SyncLine(old(ctaVicMode), line).value
      ensures vesaDmtModes == old(vesaDmtModes)
    {
      var stripped := Strip(line);
      if stripped == [] {
        return true;
      }
      var row := ParseSync(Words(stripped));
      if row.None? {
        return false;
      }
      ok := SetSyncRow(row.value);
    }

    /** The Table 2 loop: each row's VICs must have a record, whose sync fields it sets. */
    method ReadSyncs(table: string) returns (ok: bool)
      modifies this
      ensures ok == SyncPass(old(ctaVicMode), Split(table, "\n")).Some?
      ensures ok ==> ctaVicMode == SyncPass(old(ctaVicMode), Split(table, "\n")).value
      ensures vesaDmtModes == old(vesaDmtModes)
    {
      var lines := Split(table, "\n");
      var i := 0;
      while i < |lines|
        invariant i <= |lines|
        invariant RunLines(ctaVicMode, lines[i..], SyncLine) == SyncPass(old(ctaVicMode), lines)
        invariant vesaDmtModes == old(vesaDmtModes)
      {
        RunLinesStep(ctaVicMode, lines, i, SyncLine);
        ok := SyncRow(lines[i]);
        if !ok {
          return false;
        }
        i := i + 1;
      }
      return true;
    }

    /** A Table 3 row's checks and updates to one record, as FormatMode specifies them. */
    static method FormatRecord(prev: DisplayMode, f: Format) returns (ok: bool, mode: DisplayMode)
      ensures ok == FormatMode(prev, f).Some?
      ensures ok ==> mode == FormatMode(prev, f).value
    {
      mode := prev.(aspect := f.aspect);
      var n := f.name;
      if f.suffix != ScanSuffix(mode) || XY(n.x, n.v) != mode.size {
        return false, mode;
      }
      if n.x != n.h {
        if n.x != n.h * 2 {
          return false, mode;
        }
        mode := mode.(size := XY(n.h, mode.size.y), doubling := XY(1, mode.doubling.y), pixelKhz := mode.pixelKhz / 2);
        mode := HalveHorizontal(mode);
      }
      ok := PixelAspectHolds(f.pixelAspect, mode.aspect, mode.size);
    }

    /** A converted Table 3 row applied to its VIC's record. */
    method SetFormatRow(f: Format) returns (ok: bool)
      modifies this
      ensures ok == ApplyFormat(old(ctaVicMode), f).Some?
      ensures ok ==> ctaVicMode == ApplyFormat(old(ctaVicMode), f).value
      ensures vesaDmtModes == old(vesaDmtModes)
    {
      if f.vic !in ctaVicMode {
        return false;
      }
      var mode;
      ok, mode := FormatRecord(ctaVicMode[f.vic], f);
      if ok {
        ctaVicMode := ctaVicMode[f.vic := mode];
      }
    }

    /** One line of Table 3: blank and format-less rows are skipped, the others update a record. */
    method FormatRow(line: string) returns (ok: bool)
      modifies this
      ensures ok == FormatLine(old(ctaVicMode), line).Some?
      ensures ok ==> ctaVicMode == FormatLine(old(ctaVicMode), line).value
      ensures vesaDmtModes == old(vesaDmtModes)
    {
      var stripped := Strip(line);
      if stripped == [] {
        return true;
      }
      var fields := Words(stripped);
      if |fields| < 2 {
        return false;
      }
      if NoFormat(fields[1]) {
        return true;
      }
      var row := ParseFormat(fields);
      if row.None? {
        return false;
      }
      ok := SetFormatRow(row.value);
    }

    /** The Table 3 loop over the lines of the table's text. */
    method ReadFormats(table: string) returns (ok: bool)
      modifies this
      ensures ok == FormatPass(old(ctaVicMode), Split(table, "\n")).Some?
      ensures ok ==> ctaVicMode == FormatPass(old(ctaVicMode), Split(table, "\n")).value
      ensures vesaDmtModes == old(vesaDmtModes)
    {
      var lines := Split(table, "\n");
      var i := 0;
      while i < |lines|
        invariant i <= |lines|
        invariant RunLines(ctaVicMode, lines[i..], FormatLine) == FormatPass(old(ctaVicMode), lines)
        invariant vesaDmtModes == old(vesaDmtModes)
      {
        RunLinesStep(ctaVicMode, lines, i, FormatLine);
        ok := FormatRow(lines[i]);
        if !ok {
          return false;
        }
        i := i + 1;
      }
      return true;
    }

    /** The loop over one block's lines, filling the dictionary v. */
    static method ReadBlock(block: string) returns (v: Option<Entries>)
      ensures v == ReadEntries(map[], Split(block, "\n"))
    {
      var lines := Split(block, "\n");
      var d: Entries := map[];
      var j := 0;
      while j < |lines|
        invariant j <= |lines|
        invariant ReadEntries(d, lines[j..]) == ReadEntries(map[], lines)
      {
        ReadEntriesStep(d, lines, j);
        var line := lines[j];
        if !(IsBlankLine(line) || line == []) {
          var e := Entry(line);
          if e.None? {
            return None;
          }
          var (key, value) := e.value;
          d := d[key := value];
        }
        j := j + 1;
      }
      assert lines[j..] == [];
      return Some(d);
    }

    /** The three CTA passes in order, starting from an empty dictionary. */
    method ReadCta(table1: string, table2: string, table3: string) returns (ok: bool)
      requires ctaVicMode == map[]
      modifies this
      ensures ok == CtaModes(table1, table2, table3).Some?
      ensures ok ==> ctaVicMode == CtaModes(table1, table2, table3).value
      ensures vesaDmtModes == old(vesaDmtModes)
    {
      ok := ReadTimings(table1);
      if !ok {
        return false;
      }
      ok := ReadSyncs(table2);
      if !ok {
        return false;
      }
      ok := ReadFormats(table3);
    }

    /** One block: its dictionary, and the record it appends unless it is empty. */
    method AddBlock(block: string) returns (ok: bool)
      modifies this
      ensures ok == BlockStep(old(vesaDmtModes), block, AsWritten).Some?
      ensures ok ==> vesaDmtModes == BlockStep(old(vesaDmtModes), block, AsWritten).value
      ensures ctaVicMode == old(ctaVicMode)
    {
      var v := ReadBlock(block);
      if v.None? {
        return false;
      }
      if v.value != map[] {
        var mode := BlockMode(v.value, AsWritten);
        if mode.None? {
          return false;
        }
        vesaDmtModes := vesaDmtModes + [mode.value];
      }
      return true;
    }

    /** The VESA loop: each non-empty block's dictionary appends one record. */
    method ReadVesa(table: string) returns (ok: bool)
      modifies this
      ensures ok == BlockPass(old(vesaDmtModes), Split(table, Heading), AsWritten).Some?
      ensures ok ==> vesaDmtModes == BlockPass(old(vesaDmtModes), Split(table, Heading), AsWritten).value
      ensures ctaVicMode == old(ctaVicMode)
    {
      var blocks := Split(table, Heading);
      var i := 0;
      while i < |blocks|
        invariant i <= |blocks|
        invariant BlockPass(vesaDmtModes, blocks[i..], AsWritten) == BlockPass(old(vesaDmtModes), blocks, AsWritten)
        invariant ctaVicMode == old(ctaVicMode)
      {
        BlockPassStep(vesaDmtModes, blocks, i);
        ok := AddBlock(blocks[i]);
        if !ok {
          return false;
        }
        i := i + 1;
      }
      return true;
    }

    /** The loop printing one line per record, given the records' formatted lines. */
    static method EmitLines(lines: seq<string>) returns (body: string)
      ensures body == PrintLines(lines)
    {
      body := [];
      var j := 0;
      while j < |lines|
        invariant j <= |lines|
        invariant body == PrintLines(lines[..j])
      {
        PrintLinesSnoc(lines, j);
        body := body + lines[j] + "\n";
        j := j + 1;
      }
      assert lines[..j] == lines;
    }

    /** One table's printing: the header, a line per record, the closing brace and a blank line. */
    static method EmitTable(table: string, modes: seq<DisplayMode>) returns (text: string)
      ensures text == TableText(table, modes)
    {
      var body := EmitLines(Lines(modes));
      PrintFramed(HeaderLine(table), Lines(modes), "};");
      text := HeaderLine(table) + "\n" + body + "};" + "\n" + "\n";
    }

    /** The printing loop over the two tables. */
    method Emit() returns (out: string)
      ensures out == Output(ctaVicMode, vesaDmtModes)
    {
      var tables := [("cta_861_modes", CtaList(ctaVicMode)), ("vesa_dmt_modes", vesaDmtModes)];
      out := [];
      var i := 0;
      while i < |tables|
        invariant i <= |tables|
        invariant out == if i == 0 then [] else if i == 1 then TableText(tables[0].0, tables[0].1)
          else TableText(tables[0].0, tables[0].1) + TableText(tables[1].0, tables[1].1)
      {
        var text := EmitTable(tables[i].0, tables[i].1);
        out := out + text;
        i := i + 1;
      }
    }
  }

  /** What the script prints for the four tables' texts, or None when it stops at an exception. */
  function GeneratorOutput(table1: string, table2: string, table3: string, vesaTable: string): Option<string> {
    match CtaModes(table1, table2, table3)
    case None => None
    case Some(cta) =>
      match VesaModes(vesaTable, AsWritten)
      case None => None
      case Some(vesa) => Some(Output(cta, vesa))
  }

  /** The script from top to bottom. */
  method Generate(table1: string, table2: string, table3: string, vesaTable: string) returns (out: Option<string>)
    ensures out == GeneratorOutput(table1, table2, table3, vesaTable)
  {
    var g := new Generator();
    var ok := g.ReadCta(table1, table2, table3);
    if !ok {
      return None;
    }
    ok := g.ReadVesa(vesaTable);
    if !ok {
      return None;
    }
    var text := g.Emit();
    return Some(text);
  }
}
