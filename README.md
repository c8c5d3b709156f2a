# pivid display and timeline core in Dafny

This project models the core of pivid, a video compositor for Linux KMS displays. It covers the parts of the system that compute rather than talk to hardware.

- **The display-mode table generator**, `display_mode_gen.py`. It folds three CTA-861 tables into one `DisplayMode` record per Video ID Code (VIC). It reads the VESA DMT "Detailed Timing Parameters" blocks as key/value text and prints the two C++ mode tables.
  - `CtaTables` holds the per-row functions.
  - `VesaDmt` holds the block functions.
  - `ModeEmit` holds the printer.
  - `Text` holds the Python string and number conversions these use.
  - `VesaDmt` computes each block's record in two versions, selected by `Version`: `AsWritten`, the script's own computation, and `Corrected`, with the two defects under "## Findings" repaired. Lemmas relate the two.
  - `ModeGen` holds the script's loops, which run the VESA computation as written. Its class `Generator` has the two module-level variables `cta_vic_mode` and `vesa_dmt_modes` as fields, and each loop is a method proved against the functions above.
  - `CtaFacts` holds the properties of the three passes.
- **The pure helpers of `display_output.cpp`** (module `DrmModes`):
  - the `DisplayMode` ⇄ `drm_mode_modeinfo` codec and its flag bits, with the bit values of the Linux DRM UAPI header `drm_mode.h`;
  - the `format_to_drm` fourcc switch;
  - the in-place byte loop of `to_premultiplied_rgba`, over two `array<byte>`s.
- **Three copies of the sorted, disjoint, half-open interval set**:
  - `RangeSets.RangeSet` for `range_set.h`, over `int`;
  - `IntervalSets.IntervalSet` for `interval_set.h`, over `int`, returning iterators;
  - `Intervals.IntervalSet` for `interval.h` / `interval.cpp`, over `double` endpoints, modelled as `real` because they are only compared and copied.

  The private `std::set` is a `seq` field in set order, and an iterator is an index into it. `insert` and `erase` keep the source's loops, which erase and insert while widening or trimming the interval at hand. They are proved against the value-level specifications in `IntIntervals` and `RealIntervals`, whose lemmas state them as point-set union and difference.
- **`XY<T>`** (`xy.h`, module `XYs`) and **`filter_modes`** (`pivid_list_modes.cpp`, module `ListModes`).
- **The frame-selection step of `ThreadFramePlayer::run`** (`frame_player.cpp`, module `FramePlayers`). The timeline map is a strictly sorted `seq` of entries. One loop iteration, given the clock reading and the driver's "update done" flag, either shows a frame, waits for one or idles, and reports the frames it skipped.
- **The JSON readers of `script_data.cpp` and `make_script_absolute`** (module `ScriptData`). JSON values are a Dafny datatype, and nlohmann's accessors are written out:
  - `empty()` holds for null, `[]` and `{}`; `size()` of a scalar is 1;
  - `get<double>` accepts numbers only;
  - `value(key, default)` gives the default only for a missing key;
  - a failed `at()` or `CHECK_ARG` is `None`.

Python's `assert`s and exceptions, and C++'s `CHECK_ARG`, are modelled as an `Option` result. `None` is the run that stops. Decimal fields such as MHz, Hz and the `22.5` half-line blank are read as exact rationals. Python's `int()` on a float is `Text.Trunc`, `round()` is `Text.RoundHalfEven`, and C++ integer division, which truncates toward zero, is `XYs.TruncDiv`.

## Model

| member | source | states |
|---|---|---|
| XYs.IsNonZero | xy.h:17 | `bool(xy)` is false exactly when both components are zero |
| XYs.TruncDiv | xy.h:24 | C++ `/` on int: the remainder is smaller than the divisor in magnitude and has the dividend's sign (rounding toward zero) |
| XYs.TruncDivUnique | xy.h:24 | those remainder conditions determine the C++ quotient uniquely |
| XYs.AddSubInverse | xy.h:20-21 | component-wise `-` undoes `+` and vice versa, and `a - b == a + (-b)` |
| XYs.NegInverse | xy.h:22 | unary `-` is an involution and `a + (-a)` is the zero pair |
| XYs.MulDivInverse | xy.h:23-24 | scaling by a non-zero m and dividing by m gives the pair back |
| XYs.Examples | xy_test.cpp:13-25 | the test's integer checks: `{3,5}+{2,1}`, `-`, unary `-`, `*2`, `{3,5}/2 == {1,2}`, and `bool` of zero and non-zero pairs. It adds one case the test does not have, `{-3,-5}/2 == {-1,-2}`, where truncation and floor division differ. The test's `as<int>()` check (line 11) is not modelled |
| ListModes.FilterModes | pivid_list_modes.cpp:13-26 | the push_back loop returns exactly the matching modes in input order; the input is a value and is not changed |
| ListModes.Filtered | pivid_list_modes.cpp:16-25 | the matching modes: no more of them than input modes, and every one meets each non-zero criterion |
| ListModes.FilteredIsSubsequence | pivid_list_modes.cpp:16-25 | the output is a subsequence of the input in the input's order |
| ListModes.FilteredCount | pivid_list_modes.cpp:18-22 | each mode occurs in the output as often as in the input if it matches every non-zero criterion, and not at all otherwise |
| ListModes.FilteredMembership | pivid_list_modes.cpp:18-22 | a mode is kept iff it is in the input and each non-zero criterion equals its size.x, size.y or nominal_hz |
| ListModes.WildcardKeepsAll | pivid_list_modes.cpp:18-20 | all-zero criteria return the whole list |
| FramePlayers.UpperBound | frame_player.cpp:84 | `timeline.upper_bound(t)`: every entry before the index is at or before t, every entry from it on is after t |
| FramePlayers.Candidate | frame_player.cpp:84-89 | the chosen position lies within the timeline or is end() |
| FramePlayers.SkipRange | frame_player.cpp:92 | the skip loop's start `upper_bound(shown)` is never past the candidate, so the loop terminates |
| FramePlayers.SkippedTimes | frame_player.cpp:92-98 | the loop from `upper_bound(shown)` to the candidate lists exactly those entries' times in order |
| FramePlayers.StepAction | frame_player.cpp:76-114 | one iteration: a frame is shown only once it is due (time <= now), and a wait is for a time after now |
| FramePlayers.FramePlayer.constructor | frame_player.cpp:36-45 | a new player has an empty timeline and shown time 0 |
| FramePlayers.FramePlayer.SetTimeline | frame_player.cpp:36-40 | set_timeline replaces the whole timeline and leaves `shown` unchanged |
| FramePlayers.FramePlayer.LastShown | frame_player.cpp:42-45 | last_shown returns `shown` and changes nothing |
| FramePlayers.FramePlayer.Step | frame_player.cpp:75-117 | one iteration: its action is the step function's; the timeline is unchanged; `shown` moves only on a show, to the shown time, and never past now |
| FramePlayers.PendingShowsNothing | frame_player.cpp:76-82 | the step does nothing exactly when the previous update is not done |
| FramePlayers.ShowIsLatestDue | frame_player.cpp:84-89 | a shown frame is a timeline entry with shown < time <= now, and no entry lies strictly between it and now |
| FramePlayers.WaitIsForNextFrame | frame_player.cpp:107-114 | a wait is for the first entry after now, happens only when no entry later than `shown` is due, and skips nothing |
| FramePlayers.IdleMeansExhausted | frame_player.cpp:101-105 | idling means every entry is at or before `shown`, and nothing is skipped |
| FramePlayers.SkippedAreBetween | frame_player.cpp:92-98 | the skipped times are increasing and strictly between the old shown time and the new one, and every entry in that gap is among them; all are earlier than the new `shown`, so none can be shown later |
| IntIntervals.EmptyIffNoPoint | range_set.h:8-13 | a range is empty (begin >= end) iff no point lies in [begin, end) |
| IntIntervals.ValidDistinctBegins | interval_set.h:14-15 | in a valid set no two stored intervals share a begin, which is what the begin-only ordering of std::set needs |
| IntIntervals.OverlapBegin | range_set.h:88-94 | overlap_begin(t) is the first stored range with end > t; all earlier ones end at or before t |
| IntIntervals.OverlapEnd | range_set.h:32 | overlap_end(t) is the first stored range with begin >= t |
| IntIntervals.ContainsQuery | range_set.h:96-100 | contains(v) iff some stored range has begin <= v < end |
| IntIntervals.InsertValid | range_set.h:46-66 | insert keeps the set non-empty-per-range, sorted and strictly separated |
| IntIntervals.InsertCovers | range_set.h:46-66 | after insert(r), v is covered iff it was covered before or r.begin <= v < r.end |
| IntIntervals.InsertCoveredUnchanged | range_set.h:53 | inserting a range that one stored range already covers changes nothing |
| IntIntervals.InsertEachSelf | range_set.h:53 | inserting a set's own ranges into it changes nothing, since each insert finds its range already covered |
| IntIntervals.EraseValid | range_set.h:68-86 | erase keeps the set non-empty-per-range, sorted and strictly separated |
| IntIntervals.EraseCovers | range_set.h:68-86 | after erase(r), v is covered iff it was covered before and is not in [r.begin, r.end) |
| IntIntervals.EraseHoleSplits | range_set.h:81-84 | erasing a hole strictly inside one stored range replaces it by the two non-empty pieces on either side |
| IntIntervals.EraseResultPosition | interval_set.h:80-91 | the position erase returns is that of the first original interval that begins at or after the erased end, and everything from it on is unchanged; a trimmed right piece begins at the erased end and lies before it |
| IntIntervals.ErasePositionPastRightPiece | interval_set.h:80-91 | erasing [2, 5) from {[0, 10)} leaves [0, 2) and [5, 10) and returns position 2, the end: the right piece [5, 10) lies before the returned position |
| IntIntervals.PiecesCovers | range_set.h:78-84 | the pieces kept from a range overlapping an erased one cover exactly its points outside the erased range |
| IntIntervals.InsertEach | range_set.h:22 | inserting the ranges one by one keeps the set valid |
| IntIntervals.EraseEach | range_set.h:25 | erasing the ranges one by one keeps the set valid |
| IntIntervals.InsertEachCovers | range_set.h:22 | insert(RangeSet) covers the union of the two point sets |
| IntIntervals.EraseEachCovers | range_set.h:25 | erase(RangeSet) covers the difference of the two point sets |
| RangeSets.RangeSet.constructor | range_set.h:39 | a new RangeSet is empty and valid |
| RangeSets.RangeSet.Insert | range_set.h:46-66 | the merging loop leaves exactly the specified insert result and keeps the invariant |
| RangeSets.RangeSet.Erase | range_set.h:68-86 | the splitting loop leaves exactly the specified erase result and keeps the invariant |
| RangeSets.RangeSet.OverlapBegin | range_set.h:88-94 | the index of the first range ending after t |
| RangeSets.RangeSet.OverlapEnd | range_set.h:32 | the index of the first range beginning at or after t |
| RangeSets.RangeSet.Contains | range_set.h:96-100 | contains(v) iff some stored range has begin <= v < end |
| RangeSets.RangeSet.Size | range_set.h:29 | size() is the number of stored ranges |
| RangeSets.RangeSet.InsertAll | range_set.h:22 | insert(RangeSet) keeps the invariant and yields the union of the point sets; inserting the set into itself changes nothing |
| RangeSets.RangeSet.EraseAll | range_set.h:25 | erase(RangeSet) keeps the invariant and yields the difference of the point sets |
| IntervalSets.IntervalSet.constructor | interval_set.h:9-16 | a new IntervalSet is empty and valid |
| IntervalSets.IntervalSet.Insert | interval_set.h:50-70 | the loop leaves the specified insert result. An empty add returns end(). If the add was covered, the result is the position after the covering interval. Otherwise it is an interval that contains all of the add |
| IntervalSets.IntervalSet.Erase | interval_set.h:72-92 | the loop leaves the specified erase result. An empty interval returns end(). Otherwise the result is the position of the first original interval that begins at or after the erased end, and everything from it on is unchanged; a trimmed right piece lies before it |
| IntervalSets.IntervalSet.OverlapBegin | interval_set.h:94-100 | the index of the first interval ending after t |
| IntervalSets.IntervalSet.OverlapEnd | interval_set.h:36 | the index of the first interval beginning at or after t |
| IntervalSets.IntervalSet.Contains | interval_set.h:102-106 | contains(v) iff some stored interval has begin <= v < end |
| IntervalSets.IntervalSet.IsEmpty | interval_set.h:32 | empty() iff no point is covered |
| IntervalSets.IntervalSet.Count | interval_set.h:33 | count() is the number of stored intervals |
| IntervalSets.IntervalSet.InsertAll | interval_set.h:25 | insert(IntervalSet) yields the union of the point sets; inserting the set into itself changes nothing |
| IntervalSets.IntervalSet.EraseAll | interval_set.h:28 | erase(IntervalSet) yields the difference of the point sets |
| RealIntervals.EmptyIffNoPoint | interval.h:12-13 | an interval is empty (begin >= end) iff no point lies in [begin, end) |
| RealIntervals.ValidDistinctBegins | interval.h:14-15 | in a valid set no two stored intervals share a begin, so the begin-only ordering keeps one interval per begin |
| RealIntervals.OverlapBegin | interval.cpp:49-54 | overlap_begin(t) is the first stored interval with end > t |
| RealIntervals.OverlapEnd | interval.h:34 | overlap_end(t) is the first stored interval with begin >= t |
| RealIntervals.ContainsQuery | interval.cpp:56-59 | contains(v) iff some stored interval has begin <= v < end |
| RealIntervals.InsertValid | interval.cpp:14-23 | insert keeps the set non-empty, sorted and strictly separated |
| RealIntervals.InsertCovers | interval.cpp:7-26 | after insert, v is covered iff it was covered before or lies in the added interval |
| RealIntervals.InsertCoveredUnchanged | interval.cpp:10-13 | a covered insert is a no-op |
| RealIntervals.InsertEachSelf | interval.cpp:10-13 | inserting a set's own intervals into it changes nothing, since each insert finds its interval already covered |
| RealIntervals.EraseValid | interval.cpp:37-45 | erase keeps the set non-empty, sorted and strictly separated |
| RealIntervals.EraseCovers | interval.cpp:28-47 | after erase, v is covered iff it was covered before and is not in the erased interval |
| RealIntervals.EraseHoleSplits | interval.cpp:37-45 | erasing a hole inside one interval splits it into the two non-empty pieces around it |
| RealIntervals.EraseResultPosition | interval.cpp:34-46 | the position erase returns is that of the first original interval that begins at or after the erased end, and everything from it on is unchanged; a trimmed right piece begins at the erased end and lies before it |
| RealIntervals.PiecesCovers | interval.cpp:40-43 | the kept pieces of a straddling interval cover exactly its points outside the erased one |
| RealIntervals.BoundsCover | interval.cpp:61-64 | every covered point lies within {first.begin, last.end} |
| RealIntervals.InsertEach | interval.h:23 | inserting the intervals one by one keeps the set valid |
| RealIntervals.EraseEach | interval.h:26 | erasing the intervals one by one keeps the set valid |
| RealIntervals.InsertEachCovers | interval.h:23 | insert(IntervalSet) covers the union of the point sets |
| RealIntervals.EraseEachCovers | interval.h:26 | erase(IntervalSet) covers the difference of the point sets |
| Intervals.IntervalSet.constructor | interval.h:9-16 | a new IntervalSet is empty and valid |
| Intervals.IntervalSet.Insert | interval.cpp:7-26 | the loop leaves the specified insert result. An empty interval returns end(). A covered one returns the position after its coverer. Otherwise the result is an interval containing all of it |
| Intervals.IntervalSet.Erase | interval.cpp:28-47 | the loop leaves the specified erase result. An empty interval returns end(). Otherwise the result is the position of the first original interval that begins at or after the erased end, with everything from it on unchanged; a trimmed right piece lies before it |
| Intervals.IntervalSet.OverlapBegin | interval.cpp:49-54 | the index of the first interval ending after t |
| Intervals.IntervalSet.OverlapEnd | interval.h:34 | the index of the first interval beginning at or after t |
| Intervals.IntervalSet.Contains | interval.cpp:56-59 | contains(v) iff some stored interval has begin <= v < end |
| Intervals.IntervalSet.IsEmpty | interval.h:30 | empty() iff no point is covered |
| Intervals.IntervalSet.Count | interval.h:31 | count() is the number of stored intervals |
| Intervals.IntervalSet.Bounds | interval.cpp:61-64 | bounds() is {0,0} for an empty set, else {first.begin, last.end}, and contains every covered point |
| Intervals.IntervalSet.InsertAll | interval.h:23 | insert(IntervalSet) yields the union of the point sets; inserting the set into itself changes nothing |
| Intervals.IntervalSet.EraseAll | interval.h:26 | erase(IntervalSet) yields the difference of the point sets |
| DrmModes.U16 | display_output.cpp:83-91 | the uint16_t casts keep every value in [0, 65536) |
| DrmModes.U32 | display_output.cpp:82 | the uint32_t casts keep every value in [0, 2^32) |
| DrmModes.Int32 | display_output.cpp:75-76 | `int(uint32)` gives the two's-complement value in the int32 range, which the uint32_t cast maps back |
| DrmModes.Int32OfU32 | display_output.cpp:75-82 | for an int32 value, `int(uint32_t(v)) == v` |
| DrmModes.Sign | display_output.cpp:51-53 | the sign lambda is -1 when the negative flag is set (it wins), else +1 when the positive flag is set, else 0 |
| DrmModes.Aspect | display_output.cpp:69-74 | the PIC_AR field compared as a whole decodes to one of the four known aspects or to (0,0) |
| DrmModes.ModeFromDrm | display_output.cpp:50-78 | the decoded mode fits the drm field ranges; its aspect is known or (0,0); each polarity and doubling component is -1 exactly when its negative flag is set |
| DrmModes.ModeFlagBits | display_output.cpp:94-107 | PHSYNC iff polarity.x > 0, NHSYNC iff < 0 (same for V); INTERLACE iff doubling.y < 0, DBLSCAN iff > 0; DBLCLK iff doubling.x > 0, CLKDIV2 iff < 0; the PIC_AR field is set only for the four known aspects; no other bit is set |
| DrmModes.ModeToDrm | display_output.cpp:80-111 | hskew 0, type USERDEF, empty name, vscan 2 iff doubling.y != 0 (else 1), and the flag word of ModeFlagBits |
| DrmModes.SignOfFlags | display_output.cpp:51-53 | the sign lambda reads back any value in {-1,0,1} encoded as a negative/positive flag pair |
| DrmModes.RoundTrip | display_output.cpp:50-111 | for a mode whose fields fit uint16/int32 and whose polarity and doubling components are in {-1,0,1}, decoding the encoding gives the mode back, with an unknown aspect read as (0,0) |
| DrmModes.FlagsRoundTrip | display_output.cpp:51-74 | polarity, doubling and known aspects survive the flag word |
| DrmModes.NormalizeIdempotent | display_output.cpp:888-889 | with the aspect decoded as intended (the corrected half of the 64:27 finding), normalising a drm mode through DisplayMode twice gives the same as once |
| DrmModes.AspectAsWritten | display_output.cpp:69-74 | the `&`-test chain as written yields one of the four known aspects or (0,0) |
| DrmModes.ModeFromDrmAsWritten | display_output.cpp:50-78 | mode_from_drm as written: the mode fits the drm field ranges, its aspect is known or (0,0), and it equals the intended decoding in every field but the aspect |
| DrmModes.AsWrittenLosesWideAspect | display_output.cpp:69-74 | a 64:27 mode encodes to a flag word that the decoder as written reads as 4:3, and the intended one as 64:27 |
| DrmModes.AsWrittenNeverWideAspect | display_output.cpp:69-74 | as written, no drm mode decodes to 64:27 |
| DrmModes.AsWrittenAgreesElsewhere | display_output.cpp:69-74 | for every aspect but 64:27 the decoder as written and the intended one agree on the encoded mode |
| DrmModes.AsWrittenRoundTrip | display_output.cpp:50-111 | as written: a mode that fits and is not 64:27 comes back from encoding and decoding, with an unknown aspect read as (0,0) |
| DrmModes.AsWrittenNormalizeIdempotent | display_output.cpp:888-889 | the CRTC scan as written is idempotent too: normalising twice gives the same drm mode as once |
| DrmModes.FormatToDrm | display_output.cpp:113-136 | a listed fourcc becomes its DRM format; every other value is returned unchanged |
| DrmModes.SwitchCaseOfTag | display_output.cpp:117-133 | each of the 17 DRM formats has its case in the switch |
| DrmModes.FormatToDrmCases | display_output.cpp:113-136 | fourcc(tag) maps to a DRM format d exactly when tag is the case listed for d |
| DrmModes.FormatToDrmDefault | display_output.cpp:134 | a tag not in the switch is returned as it is |
| DrmModes.LayoutOf | display_output.cpp:141-176 | only ABGR, ARGB, RGBA and BGRA are converted, each with byte offsets below 4 |
| DrmModes.Scale | display_output.cpp:145 | `from * alpha / 255` never exceeds alpha, is the value itself at alpha 255 and 0 at alpha 0 |
| DrmModes.ConvertPixel | display_output.cpp:143-148 | one pixel writes A = the source alpha and R, G, B = the source colours scaled by it, at bytes 4x..4x+3, and nothing else |
| DrmModes.ToPremultipliedRgba | display_output.cpp:138-178 | for a known format, byte c of every pixel x < width is PixelByte: the premultiplied R, G, B and then A; bytes past 4·width are unchanged; an unknown format writes nothing |
| DrmModes.PixelByteBounds | display_output.cpp:143-175 | A is the source alpha; each colour is at most alpha; alpha 255 keeps the colour; alpha 0 zeroes it |
| Text.StripAny | display_mode_gen.py:3161 | str.strip: the result neither starts nor ends with a stripped character |
| Text.StripCutsOnlyEnds | display_mode_gen.py:3161 | strip removes only leading and trailing stripped characters |
| Text.StripIdempotent | display_mode_gen.py:3261-3262 | stripping twice is stripping once |
| Text.Words | display_mode_gen.py:3165 | str.split(): every word is non-empty and blank-free |
| Text.WordsSkipBlank | display_mode_gen.py:3165 | a leading blank starts no word: `Words([c] + s) == Words(s)` for a blank c |
| Text.WordsOfWord | display_mode_gen.py:3165 | a non-empty blank-free text is one word |
| Text.WordsAfterWord | display_mode_gen.py:3165 | a word ends exactly at the first blank: `Words(w + [c] + rest) == [w] + Words(rest)` for a word w and a blank c, and `Words("") == []`; with WordsSkipBlank this fixes every break |
| Text.WordsAreNonBlanks | display_mode_gen.py:3165 | the words joined are the line's non-blank characters in order |
| Text.Find | display_mode_gen.py:3230 | the first occurrence of a separator, or none at all |
| Text.Split | display_mode_gen.py:3166 | str.split(sep) always returns at least one part |
| Text.SplitJoin | display_mode_gen.py:3224 | joining the parts of split with the separator gives the string back, and no part holds the separator |
| Text.SplitOnce | display_mode_gen.py:3260 | split(sep, 1): one part iff sep does not occur, else the text before the first sep and the rest |
| Text.SplitNone | display_mode_gen.py:3166 | split(c) of text without c gives the text alone (a single VIC) |
| Text.SplitPrintLines | display_mode_gen.py:3310-3328 | the printed lines split at "\n" give the lines back |
| Text.ParseIntOfString | display_mode_gen.py:3167 | `int(str(n)) == n` |
| Text.ParseInt | display_mode_gen.py:3167 | int() accepts exactly optional blanks and a sign around one or more digits; the magnitude is the digits' value, and a negative result needs a leading minus |
| Text.ParseDecimalOfInt | display_mode_gen.py:3177 | text that int() accepts is read by float() as the same number |
| Text.ParseDecimal | display_mode_gen.py:3177 | float() accepts exactly optional blanks and a sign around an unsigned decimal; the magnitude is that decimal's value, and a negative result needs a leading minus |
| Text.ParseDecimalOfParts | display_mode_gen.py:3177 | float() of digits w, a point and digits f is w + f / 10^len(f), as in "74.250" = 74 + 250/1000 |
| Text.Trunc | display_mode_gen.py:3172 | `int(x)` rounds toward zero |
| Text.RoundHalfEven | display_mode_gen.py:3173 | `round(x)` is within 1/2 of x, and a tie goes to the even integer |
| CtaTables.LineFactor | display_mode_gen.py:3175 | `i_double` is 1 for a progressive record and 2 for an interlaced one |
| CtaTables.ConvertFrom | display_mode_gen.py:3166-3167 | converting a list succeeds iff every element converts, and each result is its element's conversion |
| CtaTables.ParseInts | display_mode_gen.py:3166-3167 | `int()` over the comma-separated VICs succeeds iff each converts |
| CtaTables.ScanDoubling | display_mode_gen.py:3171 | `{"Prog": 0, "Int": -1}[f]`: 0 iff Prog, -1 iff Int, KeyError otherwise |
| CtaTables.ParseTiming | display_mode_gen.py:3165-3173 | a Table 1 row converts iff it has at least 11 fields and each converts: the VICs and fields 1, 2, 4, 5, 6 by int(), field 3 by {Prog, Int}, fields 7-10 by float(); each Timing field is its field's conversion, and a row names at least one VIC |
| CtaTables.Polarity | display_mode_gen.py:3204-3207 | `{"P": +1, "N": -1}`: +1 iff P, -1 iff N, KeyError otherwise |
| CtaTables.ParseSync | display_mode_gen.py:3190-3207 | a Table 2 row converts iff it has at least 10 fields and the VICs and fields 2-4 and 6-8 convert by int() and fields 5 and 9 by {P, N}; each Sync field is its field's conversion |
| CtaTables.LastChar | display_mode_gen.py:3228 | `name[-1:]` is one character, or none for an empty name |
| CtaTables.AllButLast | display_mode_gen.py:3229 | `name[:-1]` followed by `name[-1:]` is the name |
| CtaTables.ParseRatio | display_mode_gen.py:3224-3225 | an `h:v` ratio converts iff splitting at `:` gives exactly two pieces that both pass `int()`, and then its value is those two integers |
| CtaTables.RatioOfText | display_mode_gen.py:3224-3225 | the text `h:v` of two numbers (like `16:9`) reads back as (h, v) |
| CtaTables.ParseFormatName | display_mode_gen.py:3229-3236 | a name converts iff splitting at `x` gives two pieces, the second passing `int()` as name_v, and the first is either a number (name_h, with name_x equal to it) or splits at `(` into two pieces giving name_h and, with `)` stripped, name_x; the value is those numbers |
| CtaTables.NameOfText | display_mode_gen.py:3229-3236 | a plain name like `1280x720` reads back as h = x = 1280, v = 720 |
| CtaTables.DoubledNameOfText | display_mode_gen.py:3229-3236 | a pixel-doubled name like `720(1440)x480` reads back as h = 720, x = 1440, v = 480 |
| CtaTables.ParsePixelAspect | display_mode_gen.py:3247-3249 | the joined pixel-aspect text skips the check (Some(None)) iff it holds a blank, `-` or `,`; otherwise it fails iff it is not a ratio, and asks for exactly the ratio it reads as |
| CtaTables.PixelAspectOfText | display_mode_gen.py:3247-3249 | a single `h:v` field asks for pixel aspect (h, v), and a `-` field asks for none |
| CtaTables.ParseFormat | display_mode_gen.py:3219-3236 | a Table 3 row converts iff it has at least four fields and field 0 converts by int(), field 3 as h:v, field 1 without its last character as a format name and the rest as a pixel aspect; the suffix is field 1's last character |
| CtaFacts.RunLinesAppend | display_mode_gen.py:3160-3162 | running a pass over two line lists is running it over the first and then over the second |
| CtaFacts.RunLinesKeeps | display_mode_gen.py:3160-3162 | a property that every line step keeps holds after the pass |
| CtaFacts.SetTimingsEffect | display_mode_gen.py:3166-3173 | the VIC loop of a Table 1 row creates or overwrites one record per VIC, from setdefault's record, and leaves other VICs alone |
| CtaFacts.TimingRowSets | display_mode_gen.py:3165-3177 | a Table 1 row sets size, scan_size, doubling = (0, d), pixel_khz = trunc(MHz·1000) and nominal_hz = round(Hz); it keeps the sync fields and aspect; its horizontal blank check is exact; the vertical blank is scaled by i_double |
| CtaFacts.LaterRowWins | display_mode_gen.py:3166-3173 | a VIC repeated in a later row keeps the later row's values |
| CtaFacts.SyncModeTwice | display_mode_gen.py:3195-3207 | a Table 2 row's assignments read only size and doubling, which they leave alone, so applying them to a VIC listed twice changes nothing the second time |
| CtaFacts.SetSyncsEffect | display_mode_gen.py:3191-3212 | a Table 2 row succeeds iff every VIC has a record and passes its checks; only its VICs change |
| CtaFacts.SyncRowSets | display_mode_gen.py:3193-3212 | sync_start = size + front porch and sync_end = sync_start + width, with the vertical values times i_double; polarity from P/N; nothing else changes; scan_size.h == sync_end.h + back porch, and the vertical remainder lies in [0, 2] |
| CtaFacts.SyncNeedsRecord | display_mode_gen.py:3193 | a Table 2 VIC without a Table 1 record aborts the run |
| CtaFacts.FormatRowSets | display_mode_gen.py:3220-3252 | see below |
| CtaFacts.NoFormatRowsSkipped | display_mode_gen.py:3220 | rows whose second field is Forbidden, Reserved or No, and blank lines, change nothing |
| CtaFacts.TablesKeepDoublings | display_mode_gen.py:3171 | every record the three passes leave has doubling.y in {0, -1}, so i_double is always 1 or 2 |
| CtaFacts.Vic4Example | display_mode_gen.py:79 | VIC 4's three rows give size (1280,720), scan_size (1650,750), sync_start (1390,725), sync_end (1430,730), polarity (1,1), doubling (0,0), aspect (16,9), 74250 kHz, 60 Hz |
| CtaFacts.Vic6Example | display_mode_gen.py:81 | VIC 6's three rows give size (720,480), scan_size (858,525), sync_start (739,488), sync_end (801,494), polarity (-1,-1), doubling (1,-1), aspect (4,3), 13500 kHz, 60 Hz |
| VesaDmt.BeforeFirst | display_mode_gen.py:3262 | `split("//")[0]` is a prefix with no "//" in it that is either the whole text or stops at the first "//" |
| VesaDmt.Entry | display_mode_gen.py:3260-3263 | a line gives an entry iff it holds an "="; the key is the stripped text before the first "=", and the value is the cleaned text after it |
| VesaDmt.ValueTextClean | display_mode_gen.py:3262 | a cleaned value holds no "//" and neither starts nor ends with ";" |
| VesaDmt.BlankLinesReadNothing | display_mode_gen.py:3259 | blank lines add no entries |
| VesaDmt.EmptyBlockSkipped | display_mode_gen.py:3265 | in either version a block with no entries adds no mode |
| VesaDmt.PolarityAt | display_mode_gen.py:3286-3289 | POSITIVE gives +1, NEGATIVE gives -1, and anything else is a KeyError |
| VesaDmt.ScanAt | display_mode_gen.py:3290-3292 | NONINTERLACED gives 0, INTERLACED gives -1, and anything else is a KeyError |
| VesaDmt.BlockTimings | display_mode_gen.py:3267-3292 | a block converts iff each of its 15 keys is present and converts; each Timings field is int() or float() of its key's value, the polarities are +1 or -1, and the scan is its "Scan Type" |
| VesaDmt.TimingsModeAsWritten | display_mode_gen.py:3267-3296 | the record as written: none when the pixel clock truncates to 0 kHz or Hor Total Time is 0 (ZeroDivisionError); otherwise the block's size and polarity, pixel_khz = trunc(MHz·1000), and doubling and aspect (0,0) |
| VesaDmt.TimingsMode | display_mode_gen.py:3267-3296 | the corrected record: the same, with doubling (0, scan); whatever it accepts, the record as written accepts too |
| VesaDmt.TimingsRecordAsWritten | display_mode_gen.py:3267-3296 | as written, a record has the block's size, polarity and trunc(MHz·1000); each of scan_size, sync_start and sync width is the count nearest its time / period; doubling is (0,0); each Addr time is less than 1 above size × period, with no bound below |
| VesaDmt.TimingsRecord | display_mode_gen.py:3267-3296 | the corrected record: the same counts, doubling (0, scan), and both Addr times within 1 of size × period on either side |
| VesaDmt.BlockMode | display_mode_gen.py:3267-3296 | in either version a block's record has the block's Hor and Ver Pixels as size and its two sync polarities |
| VesaDmt.BlockRecord | display_mode_gen.py:3267-3296 | in either version a block's record is a DMT record and its Scan Type is NONINTERLACED or INTERLACED; as written doubling is always (0,0); corrected, doubling.y == -1 exactly when the Scan Type is INTERLACED |
| VesaDmt.BlockStep | display_mode_gen.py:3257-3296 | one block keeps the records so far as a prefix and adds at most one |
| VesaDmt.BlockStepAppends | display_mode_gen.py:3265-3296 | in either version, the script's as written included, one block appends at most one record, a DMT record, and keeps the earlier ones |
| VesaDmt.BlockPass | display_mode_gen.py:3256-3296 | the block loop keeps the records it started from as a prefix and adds at most one per block |
| VesaDmt.BlockPassAppends | display_mode_gen.py:3256-3296 | in either version, the script's as written included, the block loop only appends, at most one record per block, each a DMT record, in block order |
| VesaDmt.BlockPassAppend | display_mode_gen.py:3256 | in either version the block loop over a + b is the loop over a followed by the loop over b |
| VesaDmt.VesaModes | display_mode_gen.py:3255-3296 | the table gives at most one record per block |
| VesaDmt.Dmt640x350Example | display_mode_gen.py:413-443 | the 640x350 @ 85 Hz block gives, as written and corrected alike, scan (832,445), sync (672,382)-(736,385), polarity (+1,-1), 31500 kHz, 85 Hz |
| VesaDmt.AsWrittenNeverInterlaced | display_mode_gen.py:3290-3292 | as written, no VESA record ever has a non-zero doubling |
| VesaDmt.InterlacedBlockExample | display_mode_gen.py:847-877 | the 1024x768 interlaced block keeps doubling (0,0) as written, and gets (0,-1) as intended |
| VesaDmt.AddrChecksStricter | display_mode_gen.py:3294-3295 | the two-sided Addr check implies the one-sided one as written |
| VesaDmt.AsWrittenAcceptsShortAddr | display_mode_gen.py:3294-3295 | a block whose Hor Addr Time is 0 passes the check as written but fails the two-sided one |
| VesaDmt.RecordVersions | display_mode_gen.py:3290-3295 | where the corrected computation gives a record, the computation as written gives the same record with doubling (0,0) |
| VesaDmt.BlockStepVersions | display_mode_gen.py:3257-3296 | a block the corrected step accepts, the step as written accepts, appending the same record made progressive |
| VesaDmt.BlockPassVersions | display_mode_gen.py:3256-3296 | wherever the corrected block loop succeeds, the loop as written succeeds too, with the same records except that every doubling is (0,0) |
| VesaDmt.VesaModesVersions | display_mode_gen.py:3255-3296 | the table as written gives the corrected records with every doubling (0,0), wherever the corrected reading succeeds |
| ModeEmit.Least | display_mode_gen.py:3307 | the least element of a non-empty key set |
| ModeEmit.SortedKeys | display_mode_gen.py:3307 | `sorted(keys)` holds each key exactly once, in increasing order |
| ModeEmit.CtaList | display_mode_gen.py:3307 | the CTA records in ascending VIC order, one per key |
| ModeEmit.RecordOnOneLine | display_mode_gen.py:3313-3326 | each record prints on a single line |
| ModeEmit.HeaderOnOneLine | display_mode_gen.py:3310 | each table header is a single line |
| ModeEmit.RecordsOnLines | display_mode_gen.py:3311-3326 | one line per record, none holding a newline |
| ModeEmit.TableOnLines | display_mode_gen.py:3310-3328 | one table prints as the header, the record lines, "};" and a blank line |
| ModeEmit.TwoTablesLines | display_mode_gen.py:3306-3328 | the two tables' text splits into exactly their lines in order |
| ModeEmit.OutputLines | display_mode_gen.py:3306-3328 | the whole output is the CTA table (ascending VIC) then the VESA table (block order), line for line |
| ModeGen.WithField | display_mode_gen.py:3243-3245 | `setattr(mode, field, …)` changes that field and no other |
| ModeGen.HalveHorizontal | display_mode_gen.py:3243-3245 | the setattr loop floor-halves x of scan_size, sync_start and sync_end and changes nothing else |
| ModeGen.Generator.constructor | display_mode_gen.py:3158 | the dictionary and the VESA list start empty |
| ModeGen.Generator.SetTimingRow | display_mode_gen.py:3166-3183 | the VIC loop of one Table 1 row leaves the dictionary its row function gives, or reports the failed assert |
| ModeGen.Generator.TimingRow | display_mode_gen.py:3161-3183 | one Table 1 line, per its line function |
| ModeGen.Generator.ReadTimings | display_mode_gen.py:3160-3183 | the Table 1 loop leaves the dictionary of TimingPass, or fails exactly when it does |
| ModeGen.Generator.SetSyncRow | display_mode_gen.py:3191-3212 | the VIC loop of one Table 2 row, per its row function |
| ModeGen.Generator.SyncRow | display_mode_gen.py:3186-3212 | one Table 2 line, per its line function |
| ModeGen.Generator.ReadSyncs | display_mode_gen.py:3185-3212 | the Table 2 loop, per SyncPass |
| ModeGen.Generator.FormatRecord | display_mode_gen.py:3224-3252 | one Table 3 record update with its asserts, per FormatMode |
| ModeGen.Generator.SetFormatRow | display_mode_gen.py:3221-3252 | one converted Table 3 row applied to the dictionary |
| ModeGen.Generator.FormatRow | display_mode_gen.py:3215-3252 | one Table 3 line, per its line function |
| ModeGen.Generator.ReadFormats | display_mode_gen.py:3214-3252 | the Table 3 loop, per FormatPass |
| ModeGen.Generator.ReadCta | display_mode_gen.py:3160-3252 | the three passes in order from an empty dictionary give CtaModes |
| ModeGen.Generator.ReadBlock | display_mode_gen.py:3257-3263 | the line loop of one block fills `v` as ReadEntries does |
| ModeGen.Generator.AddBlock | display_mode_gen.py:3257-3296 | one block appends the record the script as written computes, or nothing for an empty block |
| ModeGen.Generator.ReadVesa | display_mode_gen.py:3255-3296 | the block loop leaves vesa_dmt_modes as the block pass as written does, so it only appends DMT records with doubling (0,0) |
| ModeGen.Generator.EmitLines | display_mode_gen.py:3311-3326 | the per-record print loop prints each line followed by a newline |
| ModeGen.Generator.EmitTable | display_mode_gen.py:3310-3328 | one table's printing |
| ModeGen.Generator.Emit | display_mode_gen.py:3306-3328 | the printing loop over the two tables gives Output |
| ModeGen.Generate | display_mode_gen.py:3158-3328 | the whole script's output as written, its VESA records with doubling (0,0), or None when it stops at an exception |
| ScriptData.XyFromJson | script_data.cpp:19-27 | an empty JSON value gives the zero pair; otherwise both `at(0)` and `at(1)` must exist and convert |
| ScriptData.JsonTime | script_data.cpp:29-33 | only a number or a string is a time; a number is itself |
| ScriptData.TimeFromJson | script_data.cpp:43-53 | see below |
| ScriptData.Thirds | script_data.cpp:62-63 | the control points at 1/3 and 2/3 of the straight line between the end values |
| ScriptData.LineValues | script_data.cpp:59-68 | a missing or single `v`: begin_v is 0 or that value, end_v = begin_v + rate·dt with rate defaulting to 0, and the segment is a straight line |
| ScriptData.PairValues | script_data.cpp:69-81 | two values: without a rate, the thirds rule; with a rate it must be a pair of numbers, and p1 = begin + r0·dt/3, p2 = end − r1·dt/3, so the end slopes are r0 and r1 |
| ScriptData.ValuesFromJson | script_data.cpp:58-90 | dispatch on `v`: empty, number or `[x]`; a pair; four values taken verbatim, rejected when a `rate` is present; any other `v` leaves the values at zero |
| ScriptData.SegmentFromJson | script_data.cpp:35-91 | a number v is the constant v over [0, 1e12]; anything but a number or an object is rejected; dt < 0 is rejected |
| ScriptData.SegmentsFromJson | script_data.cpp:95 | a segment array decodes iff each element does, element by element |
| ScriptData.SplineFromJson | script_data.cpp:93-110 | see below |
| ScriptData.SplineFromJsonAsWritten | script_data.cpp:93-110 | as written it agrees with SplineFromJson on every value other than `[]` |
| ScriptData.AsWrittenRejectsEmptyArray | script_data.cpp:97 | as written, `[]` is rejected (`j.at(0)` throws) while null and `{}` give the empty spline |
| ScriptData.CheckOrder | script_data.cpp:104-109 | the checking loop succeeds iff each segment ends no later than the next begins |
| ScriptData.ReadSpline | script_data.cpp:93-110 | the decoder with its checking loop gives SplineFromJson |
| ScriptData.OrderedIsSorted | script_data.cpp:104-109 | in an accepted spline every segment ends no later than any later one begins |
| ScriptData.RetimeSpline | script_data.cpp:152-157 | retiming changes only the two times of each segment and keeps the count and the repeat |
| ScriptData.AbsoluteScript | script_data.cpp:145-180 | a script that is not run-relative is returned unchanged; afterwards the script is never run-relative; screens, layers and standbys keep their keys and counts |
| ScriptData.AbsoluteIdempotent | script_data.cpp:146-178 | a second application is a no-op |
| ScriptData.RetimeSplineCompose | script_data.cpp:152-157 | retiming by f then g is retiming by their composition |
| ScriptData.RetimeLayerCompose | script_data.cpp:165-172 | the same for every spline of a layer |
| ScriptData.RetimeScreenCompose | script_data.cpp:164-173 | the same for every layer of a screen |
| ScriptData.RetimeScriptCompose | script_data.cpp:164-176 | the same for a whole script |
| ScriptData.AbsoluteOnlyMovesTimes | script_data.cpp:145-180 | apart from segment times and the run_relative flag, the absolute script equals the original |
| ScriptData.AbsoluteMovesSegment | script_data.cpp:148-156 | each segment keeps its values; a begin or end with abs(t) < 1e12 moves by run_start, and any other stays |
| ScriptData.ConstantStartsAtRunStart | script_data.cpp:36-40 | a bare-number spline made absolute runs from run_start to 1e12 |
| ScriptData.FixBezier | script_data.cpp:152-157 | the segment loop of fix_bezier retimes by fix_time |
| ScriptData.FixLayer | script_data.cpp:165-172 | the six fix calls on a layer retime every spline of it |
| ScriptData.FixScreen | script_data.cpp:164-173 | the layer loop retimes every layer |
| ScriptData.FixStandbys | script_data.cpp:175-176 | the standby loop retimes each standby's play spline |
| ScriptData.MakeScriptAbsolute | script_data.cpp:145-180 | the nested loops over screens, layers and standbys give AbsoluteScript |

Three rows above would not fit in a table cell:

- **CtaFacts.FormatRowSets.** A Table 3 row needs a Table 1 record and sets its aspect.
  - The name's suffix must be "i" exactly for an interlaced record.
  - The name's (pixel width, height) must equal the record's size.
  - Without doubling, nothing else changes.
  - With doubling, the pixel width must be twice the leading width. Then size.h becomes that width, doubling.x becomes 1, pixel_khz, scan_size.h, sync_start.h and sync_end.h are floor-halved, and no vertical field changes.
  - The pixel-aspect check holds.
- **ScriptData.TimeFromJson.** This is the decoding of `t`.
  - An empty `t` gives [0, len), with len defaulting to 1e12.
  - A number or `[t0]` gives [t0, t0 + len), which ends at 1e12 by default.
  - Otherwise `t` must be a pair of times.
- **ScriptData.SplineFromJson.** Empty input gives no segments, and so does `[]`.
  - A number, or an object without "segments", is a one-segment spline.
  - An accepted spline's segments are in time order, and each has begin <= end.
  - Its repeat is 0 or 1.

## Left out

- KMS device I/O in `display_output.cpp` (opening drivers, scanning, updates, buffers, events) and `size_vec`, which resizes a vector in place behind a raw pointer for the ioctl protocol: hardware and pointer plumbing.
- The thread, the mutex, the logger and the timed waits of `ThreadFramePlayer::run`. The clock reading and `update_done_yet` become parameters of `FramePlayer.Step`. The warn log of skipped frames is the `skipped` list of the action. The driver update is the `Show` action.
- FramePlayers.FramePlayer.Step: requires now >= shown. The source reads a steady clock, which never runs back behind a frame it showed.
- The argparse options and the output file of `display_mode_gen.py` (3299-3304). Printing is modelled as the text produced. The four table texts are parameters rather than the 160 kB constant. Two concrete blocks and rows serve as worked examples.
- Floating-point rounding: every float in `display_mode_gen.py` and `script_data.cpp` is an exact rational. The tolerance asserts (3179-3183, 3252) and the VESA time-to-count rounding (3274-3285) are evaluated exactly, so binary rounding error is not modelled.
- Text.ParseDecimal and Text.ParseInt: accept only plain decimal text (optional blanks and sign, digits, at most one point). They model none of the exponents, `inf`, `nan` or underscores that Python's `float()` and `int()` also take; the tables hold none.
- JSON text parsing and `parse_time` for string times (`script_data.cpp:32`): the JSON value is a datatype and `parse_time` is a parameter.
- The `from_json` readers for media, layers, screens and scripts (`script_data.cpp:112-143`): nlohmann plumbing with no logic beyond field defaults. `make_script_absolute` is modelled on the Script value they produce.
- ScriptData.SplineFromJson: a spline with "segments" takes `repeat` from a JSON boolean as 0 or 1. A non-boolean `repeat` is rejected, as nlohmann's `get<bool>` throws.
- ScriptData.SegmentFromJson: decodes into a default-constructed segment, so a `v` of an unhandled size leaves zeros. Decoding into a segment that already holds values is not modelled.
- std::map iteration order in `make_script_absolute` does not affect the result. The loop over screens picks keys in any order, and the proof covers every order.
- RangeSets.RangeSet.EraseAll, IntervalSets.IntervalSet.EraseAll and Intervals.IntervalSet.EraseAll require `other != this`: erasing a set from itself would erase elements under its own range-for iterator, which has no defined result.
- DrmModes.ToPremultipliedRgba: requires `from != to`, so it does not model the conversion of a buffer onto itself. The caller must also supply 4·width bytes on both sides.
- DrmModes: fourcc codes are distinct opaque tags rather than 32-bit integers. `fourcc()` is not part of this model, so a collision between a fourcc and a DRM_FORMAT number is not modelled.
- IntervalSets.IntervalSet.Insert and Intervals.IntervalSet.Insert: for an interval already covered, the model returns the position after the covering interval, and does not claim it points at the coverer.
- IntervalSets.IntervalSet and RangeSets.RangeSet are instantiated at `int` only. Other element types of the templates are not part of this model.
- XYs.Add, XYs.Sub, XYs.Neg, XYs.Mul, XYs.Div: defined for `XY<int>` only, the instantiation the display code uses; their properties are the lemmas in the table.
- XYs.Examples: the conversion `as<T>()` (`XY{1.1, 2.2}.as<int>()` in xy_test.cpp) is not modelled, since the model has no real-valued pairs.
- Build scripts, the command-line tools, the libav and syscall wrappers, the frame loader, the HTTP server and the Bezier evaluation code are outside the modelled core.

## Findings

| source | as written | input that shows it | evidently intended | confidence | as-written member | corrected member |
|---|---|---|---|---|---|---|
| display_mode_gen.py:3290-3292 | the scan type is stored in `mode.sync_doubling`, which the dataclass does not declare, so every VESA record keeps doubling (0,0) | the 1024x768 @ 43 Hz INTERLACED block | `mode.doubling = (0, -1)` for interlaced blocks | high, not executed | VesaDmt.TimingsModeAsWritten, VesaDmt.AsWrittenNeverInterlaced, VesaDmt.InterlacedBlockExample | VesaDmt.TimingsMode, VesaDmt.BlockRecord, VesaDmt.VesaModesVersions |
| display_mode_gen.py:3294-3295 | `abs(x - y < 1)` takes abs of a boolean and so checks only x − y < 1 | the 640x350 block with Hor Addr Time 0 passes | `abs(x - y) < 1`, a two-sided tolerance | high, not executed | VesaDmt.TimingsRecordAsWritten, VesaDmt.AsWrittenAcceptsShortAddr | VesaDmt.TimingsRecord, VesaDmt.AddrChecksStricter |
| display_output.cpp:69-74 | the aspect is decoded with `flags & PIC_AR_x`, but PIC_AR_64_27 = 3<<19 shares its bit with PIC_AR_4_3 = 1<<19 | a mode with aspect 64:27 encodes and decodes to 4:3 | compare the whole PIC_AR field against each value | high, not executed | DrmModes.ModeFromDrmAsWritten, DrmModes.AsWrittenLosesWideAspect | DrmModes.ModeFromDrm, DrmModes.RoundTrip, DrmModes.NormalizeIdempotent |
| script_data.cpp:97 | `j.is_array() && !j.at(0).is_number()` calls `at(0)` on an empty array, which throws | the spline `[]` | `[]` gives an empty spline, like null and `{}` | medium, not executed | ScriptData.SplineFromJsonAsWritten, ScriptData.AsWrittenRejectsEmptyArray | ScriptData.SplineFromJson, ScriptData.ReadSpline |

The generator (`ModeGen`) runs the VESA computation as written, since that is what the script prints. `VesaDmt.VesaModesVersions` ties it to the corrected reading: the same records, with every doubling (0,0). `DrmModes` and `ScriptData` build on the corrected decoders. Beside them, the as-written DRM decoder has its own round trip and idempotence lemmas, minus the 64:27 aspect.
