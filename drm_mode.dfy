/**
 * The pure helpers of display_output.cpp: DisplayMode to and from the Linux
 * KMS mode record drm_mode_modeinfo, the fourcc-to-DRM pixel format switch,
 * and the conversion of one row of straight-alpha pixels to premultiplied RGBA.
 * Flag values are those of the Linux DRM UAPI header drm_mode.h.
 */
module DrmModes {
  import opened XYs
  import opened DisplayModes
  import opened Text

  newtype u16 = x: int | 0 <= x < 0x1_0000
  newtype u32 = x: int | 0 <= x < 0x1_0000_0000
  newtype byte = x: int | 0 <= x < 0x100

  /** uint16_t(v): C++ conversion to an unsigned type keeps v modulo 2^16. */
  function U16(v: int): (r: u16)
    ensures 0 <= v < 0x1_0000 ==> r as int == v
  {
    (v % 0x1_0000) as u16
  }

  /** uint32_t(v), modulo 2^32. */
  function U32(v: int): (r: u32)
    ensures 0 <= v < 0x1_0000_0000 ==> r as int == v
  {
    (v % 0x1_0000_0000) as u32
  }

  /** int(u) for a uint32_t u: the two's-complement reading of its 32 bits. */
  function Int32(u: u32): (r: int)
    ensures -0x8000_0000 <= r < 0x8000_0000
    ensures U32(r) == u
  {
    if u < 0x8000_0000 then u as int else u as int - 0x1_0000_0000
  }

  /** The range of a C++ int. */
  predicate IsInt32(v: int) {
    -0x8000_0000 <= v < 0x8000_0000
  }

  lemma Int32OfU32(v: int)
    requires IsInt32(v)
    ensures Int32(U32(v)) == v
  {
  }

  // drm_mode.h flag bits
  const PHSYNC: bv32 := 1 << 0
  const NHSYNC: bv32 := 1 << 1
  const PVSYNC: bv32 := 1 << 2
  const NVSYNC: bv32 := 1 << 3
  const INTERLACE: bv32 := 1 << 4
  const DBLSCAN: bv32 := 1 << 5
  const DBLCLK: bv32 := 1 << 12
  const CLKDIV2: bv32 := 1 << 13
  const PIC_AR_4_3: bv32 := 1 << 19
  const PIC_AR_16_9: bv32 := 2 << 19
  const PIC_AR_64_27: bv32 := 3 << 19
  const PIC_AR_256_135: bv32 := 4 << 19
  /** The 4-bit picture aspect field the PIC_AR values live in. */
  const PIC_AR_MASK: bv32 := 0x0F << 19
  /** DRM_MODE_TYPE_USERDEF */
  const TYPE_USERDEF: u32 := 32  // 1 << 5

  /** struct drm_mode_modeinfo; name is the fixed char array, kept as text. */
  datatype ModeInfo = ModeInfo(
    clock: u32,
    hdisplay: u16, hsyncStart: u16, hsyncEnd: u16, htotal: u16, hskew: u16,
    vdisplay: u16, vsyncStart: u16, vsyncEnd: u16, vtotal: u16, vscan: u16,
    vrefresh: u32,
    flags: bv32,
    modeType: u32,
    name: string
  )

  /** The lambda sign(nflag, pflag) in mode_from_drm: the negative flag wins. */
  function Sign(flags: bv32, nflag: bv32, pflag: bv32): (r: int)
    ensures r == -1 <==> flags & nflag != 0
    ensures r == 1 <==> flags & nflag == 0 && flags & pflag != 0
    ensures r == 0 <==> flags & nflag == 0 && flags & pflag == 0
  {
    if flags & nflag != 0 then -1 else if flags & pflag != 0 then 1 else 0
  }

  /** The four aspect ratios DRM can name. */
  predicate KnownAspect(a: XY<int>) {
    a == XY(4, 3) || a == XY(16, 9) || a == XY(64, 27) || a == XY(256, 135)
  }

  /** mode_from_drm's aspect chain as written: each test is a bitwise and with a PIC_AR value. */
  function AspectAsWritten(flags: bv32): (a: XY<int>)
    ensures KnownAspect(a) || a == XY(0, 0)
  {
    if flags & PIC_AR_4_3 != 0 then XY(4, 3)
    else if flags & PIC_AR_16_9 != 0 then XY(16, 9)
    else if flags & PIC_AR_64_27 != 0 then XY(64, 27)
    else if flags & PIC_AR_256_135 != 0 then XY(256, 135)
    else XY(0, 0)
  }

  /** The aspect decoding as intended: the PIC_AR field compared as a whole. */
  function Aspect(flags: bv32): (a: XY<int>)
    ensures KnownAspect(a) || a == XY(0, 0)
  {
    var field := flags & PIC_AR_MASK;
    if field == PIC_AR_4_3 then XY(4, 3)
    else if field == PIC_AR_16_9 then XY(16, 9)
    else if field == PIC_AR_64_27 then XY(64, 27)
    else if field == PIC_AR_256_135 then XY(256, 135)
    else XY(0, 0)
  }

  /** The fields of mode_from_drm other than the aspect. */
  function FromDrmWith(drm: ModeInfo, aspect: XY<int>): DisplayMode {
    var f := drm.flags;
    DisplayMode(
      XY(drm.hdisplay as int, drm.vdisplay as int),
      XY(drm.htotal as int, drm.vtotal as int),
      XY(drm.hsyncStart as int, drm.vsyncStart as int),
      XY(drm.hsyncEnd as int, drm.vsyncEnd as int),
      XY(Sign(f, NHSYNC, PHSYNC), Sign(f, NVSYNC, PVSYNC)),
      XY(Sign(f, CLKDIV2, DBLCLK), Sign(f, INTERLACE, DBLSCAN)),
      aspect,
      Int32(drm.clock),
      Int32(drm.vrefresh))
  }

  /** mode_from_drm exactly as written (display_output.cpp:50-76). */
  function ModeFromDrmAsWritten(drm: ModeInfo): (m: DisplayMode)
    ensures Fits(m)
    ensures KnownAspect(m.aspect) || m.aspect == XY(0, 0)
    ensures m == ModeFromDrm(drm).(aspect := m.aspect)
  {
    FromDrmWith(drm, AspectAsWritten(drm.flags))
  }

  /** mode_from_drm with the aspect field decoded as intended. */
  function ModeFromDrm(drm: ModeInfo): (m: DisplayMode)
    ensures Fits(m)
    ensures KnownAspect(m.aspect) || m.aspect == XY(0, 0)
    ensures m.syncPolarity.x == -1 <==> drm.flags & NHSYNC != 0
    ensures m.syncPolarity.y == -1 <==> drm.flags & NVSYNC != 0
    ensures m.doubling.x == -1 <==> drm.flags & CLKDIV2 != 0
    ensures m.doubling.y == -1 <==> drm.flags & INTERLACE != 0
  {
    FromDrmWith(drm, Aspect(drm.flags))
  }

  function PicAr(a: XY<int>): bv32 {
    if a == XY(4, 3) then PIC_AR_4_3
    else if a == XY(16, 9) then PIC_AR_16_9
    else if a == XY(64, 27) then PIC_AR_64_27
    else if a == XY(256, 135) then PIC_AR_256_135
    else 0
  }

  function FlagIf(c: bool, bit: bv32): bv32 {
    if c then bit else 0
  }

  /** The flags word of mode_to_drm: one term per flag, or'ed together. */
  function ModeFlags(m: DisplayMode): bv32 {
    FlagIf(m.syncPolarity.x > 0, PHSYNC) |
    FlagIf(m.syncPolarity.x < 0, NHSYNC) |
    FlagIf(m.syncPolarity.y > 0, PVSYNC) |
    FlagIf(m.syncPolarity.y < 0, NVSYNC) |
    FlagIf(m.doubling.y < 0, INTERLACE) |
    FlagIf(m.doubling.y > 0, DBLSCAN) |
    FlagIf(m.doubling.x > 0, DBLCLK) |
    FlagIf(m.doubling.x < 0, CLKDIV2) |
    PicAr(m.aspect)
  }

  /** The bit arithmetic behind ModeFlagBits, on the nine terms alone. */
  lemma OrOfFlagTerms(a: bv32, b: bv32, c: bv32, d: bv32, e: bv32, f: bv32, g: bv32, h: bv32, p: bv32)
    requires a in {0, PHSYNC} && b in {0, NHSYNC} && c in {0, PVSYNC} && d in {0, NVSYNC}
    requires e in {0, INTERLACE} && f in {0, DBLSCAN} && g in {0, DBLCLK} && h in {0, CLKDIV2}
    requires p in {0, PIC_AR_4_3, PIC_AR_16_9, PIC_AR_64_27, PIC_AR_256_135}
    ensures var w := a | b | c | d | e | f | g | h | p;
      w & PHSYNC == a && w & NHSYNC == b && w & PVSYNC == c && w & NVSYNC == d &&
      w & INTERLACE == e && w & DBLSCAN == f && w & DBLCLK == g && w & CLKDIV2 == h &&
      w & PIC_AR_MASK == p &&
      w & !(PHSYNC | NHSYNC | PVSYNC | NVSYNC | INTERLACE | DBLSCAN | DBLCLK | CLKDIV2 | PIC_AR_MASK) == 0
  {
  }

  /** Each flag bit that mode_to_drm may set, and when it is set. */
  lemma ModeFlagBits(m: DisplayMode)
    ensures ModeFlags(m) & PHSYNC != 0 <==> m.syncPolarity.x > 0
    ensures ModeFlags(m) & NHSYNC != 0 <==> m.syncPolarity.x < 0
    ensures ModeFlags(m) & PVSYNC != 0 <==> m.syncPolarity.y > 0
    ensures ModeFlags(m) & NVSYNC != 0 <==> m.syncPolarity.y < 0
    ensures ModeFlags(m) & INTERLACE != 0 <==> m.doubling.y < 0
    ensures ModeFlags(m) & DBLSCAN != 0 <==> m.doubling.y > 0
    ensures ModeFlags(m) & DBLCLK != 0 <==> m.doubling.x > 0
    ensures ModeFlags(m) & CLKDIV2 != 0 <==> m.doubling.x < 0
    ensures ModeFlags(m) & PIC_AR_MASK == PicAr(m.aspect)
    ensures KnownAspect(m.aspect) <==> PicAr(m.aspect) != 0
    ensures ModeFlags(m) & !(PHSYNC | NHSYNC | PVSYNC | NVSYNC | INTERLACE | DBLSCAN | DBLCLK | CLKDIV2 | PIC_AR_MASK) == 0
  {
    OrOfFlagTerms(
      FlagIf(m.syncPolarity.x > 0, PHSYNC), FlagIf(m.syncPolarity.x < 0, NHSYNC),
      FlagIf(m.syncPolarity.y > 0, PVSYNC), FlagIf(m.syncPolarity.y < 0, NVSYNC),
      FlagIf(m.doubling.y < 0, INTERLACE), FlagIf(m.doubling.y > 0, DBLSCAN),
      FlagIf(m.doubling.x > 0, DBLCLK), FlagIf(m.doubling.x < 0, CLKDIV2),
      PicAr(m.aspect));
  }

  /** mode_to_drm (display_output.cpp:78-111). */
  function ModeToDrm(m: DisplayMode): (drm: ModeInfo)
    ensures drm.hskew == 0 && drm.modeType == TYPE_USERDEF && drm.name == []
    ensures drm.vscan == if m.doubling.y != 0 then 2 else 1
    ensures drm.flags == ModeFlags(m)
  {
    ModeInfo(
      U32(m.pixelKhz),
      U16(m.size.x), U16(m.syncStart.x), U16(m.syncEnd.x), U16(m.scanSize.x), 0,
      U16(m.size.y), U16(m.syncStart.y), U16(m.syncEnd.y), U16(m.scanSize.y),
      if m.doubling.y != 0 then 2 else 1,
      U32(m.nominalHz),
      ModeFlags(m),
      TYPE_USERDEF,
      [])
  }

  predicate IsU16(v: int) {
    0 <= v < 0x1_0000
  }

  predicate IsUnit(v: int) {
    v == -1 || v == 0 || v == 1
  }

  /** A DisplayMode whose fields survive mode_to_drm: the ranges of the drm_mode_modeinfo fields. */
  predicate Fits(m: DisplayMode) {
    IsU16(m.size.x) && IsU16(m.size.y) && IsU16(m.scanSize.x) && IsU16(m.scanSize.y) &&
    IsU16(m.syncStart.x) && IsU16(m.syncStart.y) && IsU16(m.syncEnd.x) && IsU16(m.syncEnd.y) &&
    IsUnit(m.syncPolarity.x) && IsUnit(m.syncPolarity.y) &&
    IsUnit(m.doubling.x) && IsUnit(m.doubling.y) &&
    IsInt32(m.pixelKhz) && IsInt32(m.nominalHz)
  }

  /** The sign lambda reads back the value a pair of flag terms encoded. */
  lemma SignOfFlags(v: int, flags: bv32, nflag: bv32, pflag: bv32)
    requires IsUnit(v)
    requires flags & nflag != 0 <==> v < 0
    requires flags & pflag != 0 <==> v > 0
    ensures Sign(flags, nflag, pflag) == v
  {
  }

  /**
   * Round trip: every field of a mode that fits comes back; an aspect DRM cannot
   * name comes back as (0, 0).
   */
  lemma RoundTrip(m: DisplayMode)
    requires Fits(m)
    ensures ModeFromDrm(ModeToDrm(m)) == m.(aspect := if KnownAspect(m.aspect) then m.aspect else XY(0, 0))
  {
    FlagsRoundTrip(m);
    Int32OfU32(m.pixelKhz);
    Int32OfU32(m.nominalHz);
  }

  /** The flags word alone: both polarities, both doublings and the aspect read back. */
  lemma FlagsRoundTrip(m: DisplayMode)
    requires IsUnit(m.syncPolarity.x) && IsUnit(m.syncPolarity.y)
    requires IsUnit(m.doubling.x) && IsUnit(m.doubling.y)
    ensures var f := ModeFlags(m);
      XY(Sign(f, NHSYNC, PHSYNC), Sign(f, NVSYNC, PVSYNC)) == m.syncPolarity &&
      XY(Sign(f, CLKDIV2, DBLCLK), Sign(f, INTERLACE, DBLSCAN)) == m.doubling &&
      Aspect(f) == if KnownAspect(m.aspect) then m.aspect else XY(0, 0)
  {
    var f := ModeFlags(m);
    ModeFlagBits(m);
    SignOfFlags(m.syncPolarity.x, f, NHSYNC, PHSYNC);
    SignOfFlags(m.syncPolarity.y, f, NVSYNC, PVSYNC);
    SignOfFlags(m.doubling.x, f, CLKDIV2, DBLCLK);
    SignOfFlags(m.doubling.y, f, INTERLACE, DBLSCAN);
  }

  /**
   * The CRTC scan stores mode_to_drm(mode_from_drm(x)) (display_output.cpp:888-889):
   * doing that twice gives the same record as doing it once.
   */
  lemma NormalizeIdempotent(drm: ModeInfo)
    ensures ModeToDrm(ModeFromDrm(ModeToDrm(ModeFromDrm(drm)))) == ModeToDrm(ModeFromDrm(drm))
  {
    var m := ModeFromDrm(drm);
    RoundTrip(m);
  }

  /** The as-written aspect tests read the 64:27 value 3 << 19 as 4:3, since it has the 4:3 bit. */
  lemma AsWrittenLosesWideAspect(m: DisplayMode)
    requires m.aspect == XY(64, 27)
    ensures ModeFromDrmAsWritten(ModeToDrm(m)).aspect == XY(4, 3)
    ensures ModeFromDrm(ModeToDrm(m)).aspect == XY(64, 27)
  {
    ModeFlagBits(m);
    assert ModeFlags(m) & PIC_AR_4_3 != 0 by {
      assert ModeFlags(m) & PIC_AR_MASK == PIC_AR_64_27;
    }
  }

  /** As written, mode_from_drm never yields 64:27 at all. */
  lemma AsWrittenNeverWideAspect(drm: ModeInfo)
    ensures ModeFromDrmAsWritten(drm).aspect != XY(64, 27)
  {
    var f := drm.flags;
    if f & PIC_AR_4_3 == 0 && f & PIC_AR_16_9 == 0 {
      assert f & PIC_AR_64_27 == 0;
    }
  }

  /** The as-written decoding agrees with the intended one on the other known aspects. */
  lemma AsWrittenAgreesElsewhere(m: DisplayMode)
    requires m.aspect != XY(64, 27)
    ensures ModeFromDrmAsWritten(ModeToDrm(m)).aspect == ModeFromDrm(ModeToDrm(m)).aspect
  {
    ModeFlagBits(m);
    var p := ModeFlags(m) & PIC_AR_MASK;
    assert ModeFlags(m) & PIC_AR_4_3 == p & PIC_AR_4_3;
    assert ModeFlags(m) & PIC_AR_16_9 == p & PIC_AR_16_9;
    assert ModeFlags(m) & PIC_AR_64_27 == p & PIC_AR_64_27;
    assert ModeFlags(m) & PIC_AR_256_135 == p & PIC_AR_256_135;
  }
  /** Round trip through the decoding as written: every mode that is not 64:27 comes back. */
  lemma AsWrittenRoundTrip(m: DisplayMode)
    requires Fits(m) && m.aspect != XY(64, 27)
    ensures ModeFromDrmAsWritten(ModeToDrm(m)) ==
      m.(aspect := if KnownAspect(m.aspect) then m.aspect else XY(0, 0))
  {
    RoundTrip(m);
    AsWrittenAgreesElsewhere(m);
  }

  /**
   * The CRTC scan as written (display_output.cpp:888-889) is idempotent too: the first
   * pass already loses 64:27, and every other mode survives the second.
   */
  lemma AsWrittenNormalizeIdempotent(drm: ModeInfo)
    ensures ModeToDrm(ModeFromDrmAsWritten(ModeToDrm(ModeFromDrmAsWritten(drm)))) ==
      ModeToDrm(ModeFromDrmAsWritten(drm))
  {
    var m := ModeFromDrmAsWritten(drm);
    AsWrittenNeverWideAspect(drm);
    AsWrittenRoundTrip(m);
  }



  // ---------------------------------------------------------------------------
  // format_to_drm (display_output.cpp:113-136)
  // ---------------------------------------------------------------------------

  /** The DRM formats format_to_drm can produce. */
  datatype DrmFormat =
    | RGBX8888 | BGRX8888 | RGBA8888 | BGRA8888 | XRGB8888 | ARGB8888
    | BGR565 | RGB888 | YUV420 | NV12 | NV21 | C8 | XBGR8888 | ABGR8888
    | RGB565 | BGR888 | YUV422

  /**
   * A 32-bit pixel format code: either fourcc() of a four-character tag or one
   * of the DRM_FORMAT_ constants, each kept distinct from all the others.
   */
  datatype PixelFormat = Fourcc(tag: Tag) | Drm(format: DrmFormat)

  /** The four characters given to fourcc(). */
  datatype Tag = Tag(c0: char, c1: char, c2: char, c3: char)

  /** The switch's cases: the tag each DRM format is produced from. */
  function TagOf(d: DrmFormat): Tag {
    match d
    case RGBX8888 => Tag('0', 'B', 'G', 'R')
    case BGRX8888 => Tag('0', 'R', 'G', 'B')
    case RGBA8888 => Tag('A', 'b', 'g', 'r')
    case BGRA8888 => Tag('A', 'r', 'g', 'b')
    case XRGB8888 => Tag('B', 'G', 'R', '0')
    case ARGB8888 => Tag('b', 'g', 'r', 'A')
    case BGR565 => Tag('B', 'G', 'R', 16 as char)
    case RGB888 => Tag('B', 'G', 'R', 24 as char)
    case YUV420 => Tag('I', '4', '2', '0')
    case NV12 => Tag('N', 'V', '1', '2')
    case NV21 => Tag('N', 'V', '2', '1')
    case C8 => Tag('P', 'A', 'L', 8 as char)
    case XBGR8888 => Tag('R', 'G', 'B', '0')
    case ABGR8888 => Tag('r', 'g', 'b', 'A')
    case RGB565 => Tag('R', 'G', 'B', 16 as char)
    case BGR888 => Tag('R', 'G', 'B', 24 as char)
    case YUV422 => Tag('Y', '4', '2', 'B')
  }

  /** The switch on the tag; None for the default case. */
  function SwitchCase(tag: Tag): Option<DrmFormat> {
    if tag == Tag('0', 'B', 'G', 'R') then Some(RGBX8888)
    else if tag == Tag('0', 'R', 'G', 'B') then Some(BGRX8888)
    else if tag == Tag('A', 'b', 'g', 'r') then Some(RGBA8888)
    else if tag == Tag('A', 'r', 'g', 'b') then Some(BGRA8888)
    else if tag == Tag('B', 'G', 'R', '0') then Some(XRGB8888)
    else if tag == Tag('b', 'g', 'r', 'A') then Some(ARGB8888)
    else if tag == Tag('B', 'G', 'R', 16 as char) then Some(BGR565)
    else if tag == Tag('B', 'G', 'R', 24 as char) then Some(RGB888)
    else if tag == Tag('I', '4', '2', '0') then Some(YUV420)
    else if tag == Tag('N', 'V', '1', '2') then Some(NV12)
    else if tag == Tag('N', 'V', '2', '1') then Some(NV21)
    else if tag == Tag('P', 'A', 'L', 8 as char) then Some(C8)
    else if tag == Tag('R', 'G', 'B', '0') then Some(XBGR8888)
    else if tag == Tag('r', 'g', 'b', 'A') then Some(ABGR8888)
    else if tag == Tag('R', 'G', 'B', 16 as char) then Some(RGB565)
    else if tag == Tag('R', 'G', 'B', 24 as char) then Some(BGR888)
    else if tag == Tag('Y', '4', '2', 'B') then Some(YUV422)
    else None
  }

  /** format_to_drm: a listed fourcc becomes its DRM format, anything else is returned as it is. */
  function FormatToDrm(format: PixelFormat): (r: PixelFormat)
    ensures r == format || (format.Fourcc? && r.Drm? && SwitchCase(format.tag) == Some(r.format))
    ensures format.Drm? ==> r == format
  {
    match format
    case Drm(_) => format
    case Fourcc(tag) =>
      match SwitchCase(tag)
      case None => format
      case Some(d) => Drm(d)
  }

  /** Each DRM format's tag reaches its own case of the switch. */
  lemma SwitchCaseOfTag(d: DrmFormat)
    ensures SwitchCase(TagOf(d)) == Some(d)
  {
    match d
    case RGBX8888 => case BGRX8888 => case RGBA8888 => case BGRA8888 =>
    case XRGB8888 => case ARGB8888 => case BGR565 => case RGB888 =>
    case YUV420 => case NV12 => case NV21 => case C8 =>
    case XBGR8888 => case ABGR8888 => case RGB565 => case BGR888 =>
    case YUV422 =>
  }

  /** Every DRM format has its case, and the case's tag is the only one that produces it. */
  lemma FormatToDrmCases(tag: Tag, d: DrmFormat)
    ensures FormatToDrm(Fourcc(tag)) == Drm(d) <==> tag == TagOf(d)
  {
    SwitchCaseOfTag(d);
  }

  /** A tag outside the seventeen cases passes through unchanged. */
  lemma FormatToDrmDefault(tag: Tag)
    requires forall d: DrmFormat :: tag != TagOf(d)
    ensures FormatToDrm(Fourcc(tag)) == Fourcc(tag)
  {
    match SwitchCase(tag)
    case None =>
    case Some(d) =>
      FormatToDrmCases(tag, d);
      assert tag != TagOf(d);
  }


  // ---------------------------------------------------------------------------
  // to_premultiplied_rgba (display_output.cpp:138-178)
  // ---------------------------------------------------------------------------

  /** Where a source pixel keeps its alpha, red, green and blue bytes (offsets 0..3). */
  datatype Layout = Layout(alpha: nat, red: nat, green: nat, blue: nat)

  /** The four source formats the switch converts; None for the others. */
  function LayoutOf(format: PixelFormat): (l: Option<Layout>)
    ensures l.Some? ==> l.value.alpha < 4 && l.value.red < 4 && l.value.green < 4 && l.value.blue < 4
  {
    if format == Fourcc(Tag('A', 'B', 'G', 'R')) then Some(Layout(0, 3, 2, 1))
    else if format == Fourcc(Tag('A', 'R', 'G', 'B')) then Some(Layout(0, 1, 2, 3))
    else if format == Fourcc(Tag('R', 'G', 'B', 'A')) then Some(Layout(3, 0, 1, 2))
    else if format == Fourcc(Tag('B', 'G', 'R', 'A')) then Some(Layout(3, 2, 1, 0))
    else None
  }

  predicate ValidLayout(l: Layout) {
    l.alpha < 4 && l.red < 4 && l.green < 4 && l.blue < 4
  }

  lemma MulBound(v: int, a: int)
    requires 0 <= v < 256 && 0 <= a < 256
    ensures 0 <= v * a && (v * a) / 255 <= a
  {
    assert v * a <= 255 * a;
  }

  /** from[i] * alpha / 255 on the promoted ints; never above alpha. */
  function Scale(v: byte, alpha: byte): (r: byte)
    ensures r <= alpha
    ensures alpha == 255 ==> r == v
    ensures alpha == 0 || v == 0 ==> r == 0
  {
    MulBound(v as int, alpha as int);
    ((v as int * alpha as int) / 255) as byte
  }

  /** Byte c of converted pixel x: R, G and B scaled by alpha, then alpha itself. */
  function PixelByte(l: Layout, src: seq<byte>, x: int, c: int): byte
    requires ValidLayout(l)
    requires 0 <= x && 4 * x + 4 <= |src| && 0 <= c < 4
  {
    var alpha := src[4 * x + l.alpha];
    if c == 3 then alpha
    else Scale(src[4 * x + Channel(l, c)], alpha)
  }

  /** The source offset of output channel c < 3: red, green, blue. */
  function Channel(l: Layout, c: int): nat {
    if c == 0 then l.red else if c == 1 then l.green else l.blue
  }

  /** One pixel x of the loop: alpha first, then the three scaled colours. */
  method ConvertPixel(l: Layout, x: int, from: array<byte>, to: array<byte>)
    requires ValidLayout(l) && from != to
    requires 0 <= x && 4 * x + 4 <= from.Length && 4 * x + 4 <= to.Length
    modifies to
    ensures to[4 * x + 3] == from[4 * x + l.alpha]
    ensures to[4 * x] == Scale(from[4 * x + l.red], from[4 * x + l.alpha])
    ensures to[4 * x + 1] == Scale(from[4 * x + l.green], from[4 * x + l.alpha])
    ensures to[4 * x + 2] == Scale(from[4 * x + l.blue], from[4 * x + l.alpha])
    ensures forall i :: 0 <= i < to.Length && !(4 * x <= i < 4 * x + 4) ==> to[i] == old(to[i])
  {
    var alpha := from[4 * x + l.alpha];
    to[3 + 4 * x] := alpha;
    to[0 + 4 * x] := Scale(from[4 * x + l.red], alpha);
    to[1 + 4 * x] := Scale(from[4 * x + l.green], alpha);
    to[2 + 4 * x] := Scale(from[4 * x + l.blue], alpha);
  }

  /** The pixel loop of the four switch cases; unknown formats write nothing. */
  method ToPremultipliedRgba(format: PixelFormat, width: int, from: array<byte>, to: array<byte>)
    requires from != to
    requires 4 * width <= from.Length && 4 * width <= to.Length
    modifies to
    ensures LayoutOf(format).None? ==> to[..] == old(to[..])
    ensures LayoutOf(format).Some? ==>
      forall x, c :: 0 <= x < width && 0 <= c < 4 ==>
        to[4 * x + c] == PixelByte(LayoutOf(format).value, from[..], x, c)
    ensures forall i :: 4 * width <= i < to.Length && 0 <= i ==> to[i] == old(to[i])
  {
    var layout := LayoutOf(format);
    if layout.None? {
      return;
    }
    var l := layout.value;
    ghost var src := from[..];
    var x := 0;
    while x < width
      invariant 0 <= x && (x <= width || x == 0)
      invariant from[..] == src
      invariant forall y, c :: 0 <= y < x && 0 <= c < 4 ==> to[4 * y + c] == PixelByte(l, src, y, c)
      invariant forall i :: 4 * x <= i < to.Length ==> to[i] == old(to[i])
    {
      ConvertPixel(l, x, from, to);
      assert from[..] == src;
      x := x + 1;
    }
  }

  /** What the converted row promises: alpha copied from the source, colours never above it. */
  lemma PixelByteBounds(l: Layout, src: seq<byte>, x: int, c: int)
    requires ValidLayout(l)
    requires 0 <= x && 4 * x + 4 <= |src| && 0 <= c < 4
    ensures c == 3 ==> PixelByte(l, src, x, c) == src[4 * x + l.alpha]
    ensures PixelByte(l, src, x, c) <= src[4 * x + l.alpha]
    ensures src[4 * x + l.alpha] == 255 ==> PixelByte(l, src, x, c) == src[4 * x + (if c == 3 then l.alpha else Channel(l, c))]
    ensures src[4 * x + l.alpha] == 0 ==> PixelByte(l, src, x, c) == 0
  {
  }
}
