/**
 * The string and number conversions display_mode_gen.py relies on, written out:
 * str.strip, str.split (with and without a separator, and with a limit of one),
 * str.join, int(str), float(str) on plain decimals (as an exact rational), str(int),
 * int(float) and round(float).
 */
module Text {

  datatype Option<T> = None | Some(value: T)

  // ---------------------------------------------------------------------------
  // Characters
  // ---------------------------------------------------------------------------

  /** The characters str.isspace() and the separator-less str.split() treat as blank. */
  predicate IsSpace(c: char) {
    || '\U{9}' <= c <= '\U{d}' || '\U{1c}' <= c <= '\U{20}' || c == '\U{85}' || c == '\U{a0}'
    || c == '\U{1680}' || '\U{2000}' <= c <= '\U{200a}' || c == '\U{2028}' || c == '\U{2029}'
    || c == '\U{202f}' || c == '\U{205f}' || c == '\U{3000}'
  }

  /** str.isspace(): non-empty and blank throughout. */
  predicate IsBlankLine(s: string) {
    |s| > 0 && forall k :: 0 <= k < |s| ==> IsSpace(s[k])
  }

  predicate IsDigit(c: char) {
    '0' <= c <= '9'
  }

  predicate AllDigits(s: string) {
    forall k :: 0 <= k < |s| ==> IsDigit(s[k])
  }

  predicate AllAre(s: string, p: char -> bool) {
    forall k :: 0 <= k < |s| ==> p(s[k])
  }

  // ---------------------------------------------------------------------------
  // str.strip
  // ---------------------------------------------------------------------------

  /** Index of the first character at or after i that fails p. */
  function SkipFrom(s: string, p: char -> bool, i: nat): (k: nat)
    requires i <= |s|
    ensures i <= k <= |s|
    ensures forall m :: i <= m < k ==> p(s[m])
    ensures k < |s| ==> !p(s[k])
    decreases |s| - i
  {
    if i == |s| || !p(s[i]) then i else SkipFrom(s, p, i + 1)
  }

  /** One past the last character before j, and not before lo, that fails p. */
  function SkipBackFrom(s: string, p: char -> bool, lo: nat, j: nat): (k: nat)
    requires lo <= j <= |s|
    ensures lo <= k <= j
    ensures forall m :: k <= m < j ==> p(s[m])
    ensures k > lo ==> !p(s[k - 1])
    decreases j - lo
  {
    if j == lo || !p(s[j - 1]) then j else SkipBackFrom(s, p, lo, j - 1)
  }

  /**
   * str.strip: s without its leading and trailing characters that satisfy p.  The
   * result is a slice of s that neither starts nor ends with such a character, and
   * everything cut off on either side satisfies p.
   */
  function StripAny(s: string, p: char -> bool): (r: string)
    ensures r == [] || (!p(r[0]) && !p(r[|r| - 1]))
  {
    var i := SkipFrom(s, p, 0);
    var j := SkipBackFrom(s, p, i, |s|);
    s[i..j]
  }

  /** What str.strip cuts off on either side satisfies p, and the rest is kept whole. */
  lemma StripCutsOnlyEnds(s: string, p: char -> bool)
    ensures exists i :: (0 <= i <= i + |StripAny(s, p)| <= |s| && StripAny(s, p) == s[i..i + |StripAny(s, p)|]
                         && AllAre(s[..i], p) && AllAre(s[i + |StripAny(s, p)|..], p))
  {
    var i := SkipFrom(s, p, 0);
    var j := SkipBackFrom(s, p, i, |s|);
    assert AllAre(s[..i], p);
    assert AllAre(s[j..], p);
  }

  /** str.strip() with no argument. */
  function Strip(s: string): string {
    StripAny(s, IsSpace)
  }

  /** str.strip(c) for a one-character argument. */
  function StripChar(s: string, c: char): string {
    StripAny(s, x => x == c)
  }

  /** str.strip(c) removes one trailing c from text that neither starts nor ends with c. */
  lemma StripTrailing(d: string, c: char)
    requires |d| > 0 && d[0] != c && d[|d| - 1] != c
    ensures StripChar(d + [c], c) == d
  {
    var s := d + [c];
    var p := (x: char) => x == c;
    var i := SkipFrom(s, p, 0);
    assert i == 0 by { assert !p(s[0]); }
    var j := SkipBackFrom(s, p, i, |s|);
    assert j == |d| by { assert p(s[|s| - 1]) && !p(s[|d| - 1]); }
    assert s[..|d|] == d;
  }

  /** Stripping twice strips nothing more. */
  lemma StripIdempotent(s: string, p: char -> bool)
    ensures StripAny(StripAny(s, p), p) == StripAny(s, p)
  {
    var r := StripAny(s, p);
    var i := SkipFrom(r, p, 0);
    assert i == 0;
    var j := SkipBackFrom(r, p, 0, |r|);
    assert j == |r|;
  }

  // ---------------------------------------------------------------------------
  // str.split() without a separator
  // ---------------------------------------------------------------------------

  /** A non-empty run of non-blank characters. */
  predicate IsWord(w: string) {
    |w| > 0 && forall k :: 0 <= k < |w| ==> !IsSpace(w[k])
  }

  /** Index of the first blank at or after i. */
  function WordEnd(s: string, i: nat): (k: nat)
    requires i <= |s|
    ensures i <= k <= |s|
    ensures forall m :: i <= m < k ==> !IsSpace(s[m])
    ensures k < |s| ==> IsSpace(s[k])
    decreases |s| - i
  {
    if i == |s| || IsSpace(s[i]) then i else WordEnd(s, i + 1)
  }

  /** Words of s[i..]: its maximal runs of non-blank characters, in order. */
  function WordsFrom(s: string, i: nat): (ws: seq<string>)
    requires i <= |s|
    ensures forall w :: w in ws ==> IsWord(w)
    decreases |s| - i
  {
    if i == |s| then []
    else if IsSpace(s[i]) then WordsFrom(s, i + 1)
    else
      var j := WordEnd(s, i);
      [s[i..j]] + WordsFrom(s, j)
  }

  /** str.split(): the words of s, which are non-empty and contain no blank. */
  function Words(s: string): (ws: seq<string>)
    ensures forall w :: w in ws ==> IsWord(w)
  {
    WordsFrom(s, 0)
  }

  /** WordEnd looks only at the text after its start, wherever that text sits. */
  lemma {:induction false} WordEndShift(a: string, b: string, j: nat)
    requires j <= |b|
    ensures WordEnd(a + b, |a| + j) == |a| + WordEnd(b, j)
    decreases |b| - j
  {
    if j < |b| {
      assert (a + b)[|a| + j] == b[j];
      if !IsSpace(b[j]) {
        WordEndShift(a, b, j + 1);
      }
    }
  }

  /** WordsFrom looks only at the text after its start, wherever that text sits. */
  lemma {:induction false} WordsFromShift(a: string, b: string, j: nat)
    requires j <= |b|
    ensures WordsFrom(a + b, |a| + j) == WordsFrom(b, j)
    decreases |b| - j
  {
    var s := a + b;
    var i := |a| + j;
    if j < |b| {
      assert s[i] == b[j];
      if IsSpace(b[j]) {
        assert WordsFrom(s, i) == WordsFrom(s, i + 1);
        assert WordsFrom(b, j) == WordsFrom(b, j + 1);
        WordsFromShift(a, b, j + 1);
      } else {
        var k := WordEnd(b, j);
        WordEndShift(a, b, j);
        assert WordsFrom(s, i) == [s[i..|a| + k]] + WordsFrom(s, |a| + k);
        assert WordsFrom(b, j) == [b[j..k]] + WordsFrom(b, k);
        WordsFromShift(a, b, k);
        assert s[i..|a| + k] == b[j..k];
      }
    } else {
      assert WordsFrom(s, i) == [];
    }
  }

  /** A leading blank is skipped: it starts no word. */
  lemma WordsSkipBlank(c: char, s: string)
    requires IsSpace(c)
    ensures Words([c] + s) == Words(s)
  {
    WordsFromShift([c], s, 0);
  }

  /** Text that is one word splits into just that word. */
  lemma WordsOfWord(w: string)
    requires IsWord(w)
    ensures Words(w) == [w]
  {
    assert WordEnd(w, 0) == |w|;
    assert WordsFrom(w, 0) == [w[0..|w|]] + WordsFrom(w, |w|);
    assert WordsFrom(w, |w|) == [];
    assert w[0..|w|] == w;
  }

  /**
   * A word ends exactly at the first blank: a word followed by a blank and more text
   * splits into that word and then the words of the rest.  With Words("") == [] and
   * WordsSkipBlank this fixes every break str.split() makes.
   */
  lemma WordsAfterWord(w: string, c: char, rest: string)
    requires IsWord(w) && IsSpace(c)
    ensures Words(w + [c] + rest) == [w] + Words(rest)
    ensures Words([]) == []
  {
    var s := w + [c] + rest;
    assert s[|w|] == c;
    var k := WordEnd(s, 0);
    assert k == |w|;
    assert s[0..|w|] == w;
    assert WordsFrom(s, 0) == [s[0..|w|]] + WordsFrom(s, |w|);
    assert WordsFrom(s, |w|) == WordsFrom(s, |w| + 1);
    assert s == (w + [c]) + rest;
    WordsFromShift(w + [c], rest, 0);
  }

  /** s[i..] with every blank deleted. */
  function NonBlanksFrom(s: string, i: nat): string
    requires i <= |s|
    decreases |s| - i
  {
    if i == |s| then []
    else (if IsSpace(s[i]) then [] else [s[i]]) + NonBlanksFrom(s, i + 1)
  }

  function Concat(ws: seq<string>): string {
    if ws == [] then [] else ws[0] + Concat(ws[1..])
  }

  /** Inside a word the non-blank characters are the word itself. */
  lemma {:induction false} NonBlanksOfWord(s: string, i: nat, j: nat)
    requires i <= j <= |s|
    requires forall m :: i <= m < j ==> !IsSpace(s[m])
    ensures NonBlanksFrom(s, i) == s[i..j] + NonBlanksFrom(s, j)
    decreases j - i
  {
    if i < j {
      NonBlanksOfWord(s, i + 1, j);
      assert !IsSpace(s[i]);
      assert NonBlanksFrom(s, i) == [s[i]] + NonBlanksFrom(s, i + 1);
      assert s[i..j] == [s[i]] + s[i + 1..j];
    }
  }

  lemma {:induction false} WordsFromNonBlanks(s: string, i: nat)
    requires i <= |s|
    ensures Concat(WordsFrom(s, i)) == NonBlanksFrom(s, i)
    decreases |s| - i
  {
    if i < |s| {
      if IsSpace(s[i]) {
        WordsFromNonBlanks(s, i + 1);
      } else {
        var j := WordEnd(s, i);
        WordsFromNonBlanks(s, j);
        NonBlanksOfWord(s, i, j);
        var ws := WordsFrom(s, i);
        assert ws[1..] == WordsFrom(s, j);
      }
    }
  }

  /** Joined back together, the words are exactly the non-blank characters of s. */
  lemma WordsAreNonBlanks(s: string)
    ensures Concat(Words(s)) == NonBlanksFrom(s, 0)
  {
    WordsFromNonBlanks(s, 0);
  }

  // ---------------------------------------------------------------------------
  // str.split(sep), str.split(sep, 1) and str.join
  // ---------------------------------------------------------------------------

  predicate IsAt(s: string, sep: string, k: nat) {
    k + |sep| <= |s| && s[k..k + |sep|] == sep
  }

  /** The first occurrence of sep at or after i. */
  function FindFrom(s: string, sep: string, i: nat): (r: Option<nat>)
    requires i <= |s|
    ensures r.Some? ==> i <= r.value && IsAt(s, sep, r.value)
    ensures forall m: nat :: i <= m && (r.None? || m < r.value) ==> !IsAt(s, sep, m)
    decreases |s| - i
  {
    if i + |sep| > |s| then None
    else if s[i..i + |sep|] == sep then Some(i)
    else FindFrom(s, sep, i + 1)
  }

  function Find(s: string, sep: string): (r: Option<nat>)
    ensures r.Some? ==> IsAt(s, sep, r.value)
    ensures forall m: nat :: (r.None? || m < r.value) ==> !IsAt(s, sep, m)
  {
    FindFrom(s, sep, 0)
  }

  /** str.split(sep) for a non-empty sep: the pieces between occurrences of sep. */
  function Split(s: string, sep: string): (ps: seq<string>)
    requires |sep| > 0
    ensures |ps| > 0
    decreases |s|
  {
    match Find(s, sep)
    case None => [s]
    case Some(k) => [s[..k]] + Split(s[k + |sep|..], sep)
  }

  /** c does not occur in s. */
  predicate NoChar(s: string, c: char) {
    forall k :: 0 <= k < |s| ==> s[k] != c
  }

  lemma NoCharJoined(a: string, b: string, c: char)
    requires NoChar(a, c) && NoChar(b, c)
    ensures NoChar(a + b, c)
  {
    forall k | 0 <= k < |a + b|
      ensures (a + b)[k] != c
    {
      if k >= |a| {
        assert (a + b)[k] == b[k - |a|];
      }
    }
  }

  /** Decimal digits hold no other character. */
  lemma DigitsLackChar(d: string, c: char)
    requires AllDigits(d) && !IsDigit(c)
    ensures NoChar(d, c)
  {
  }

  /** Text without the character has no occurrence of it. */
  lemma FindNone(s: string, c: char)
    requires NoChar(s, c)
    ensures Find(s, [c]).None?
  {
    forall m: nat | m + 1 <= |s|
      ensures !IsAt(s, [c], m)
    {
      assert s[m..m + 1][0] == s[m];
    }
  }

  /** Splitting at a one-character separator peels off the text before its first occurrence. */
  lemma SplitLine(a: string, b: string, c: char)
    requires NoChar(a, c)
    ensures Split(a + [c] + b, [c]) == [a] + Split(b, [c])
  {
    var s := a + [c] + b;
    assert s[|a|..|a| + 1] == [c];
    forall m: nat | m < |a|
      ensures !IsAt(s, [c], m)
    {
      assert s[m..m + 1] == [a[m]];
    }
    assert IsAt(s, [c], |a|);
    var r := Find(s, [c]);
    assert r.Some? && r.value >= |a|;
    assert r.value <= |a|;
    assert s[..|a|] == a;
    assert s[|a| + 1..] == b;
  }

  /** No line of ls holds a newline. */
  predicate SingleLines(ls: seq<string>) {
    forall k :: 0 <= k < |ls| ==> NoChar(ls[k], '\n')
  }

  lemma SingleLinesJoined(a: seq<string>, b: seq<string>)
    requires SingleLines(a) && SingleLines(b)
    ensures SingleLines(a + b)
  {
    forall k | 0 <= k < |a + b|
      ensures NoChar((a + b)[k], '\n')
    {
      if k >= |a| {
        assert (a + b)[k] == b[k - |a|];
      }
    }
  }

  /** The text successive print(line) calls write: each line followed by a newline. */
  function PrintLines(ls: seq<string>): string {
    if ls == [] then [] else ls[0] + "\n" + PrintLines(ls[1..])
  }

  lemma {:induction false} PrintLinesAppend(a: seq<string>, b: seq<string>)
    ensures PrintLines(a + b) == PrintLines(a) + PrintLines(b)
    decreases |a|
  {
    if a == [] {
      assert a + b == b;
    } else {
      assert (a + b)[0] == a[0];
      assert (a + b)[1..] == a[1..] + b;
      PrintLinesAppend(a[1..], b);
    }
  }

  /** Printing one more line appends it and its newline. */
  lemma PrintLinesSnoc(ls: seq<string>, j: nat)
    requires j < |ls|
    ensures PrintLines(ls[..j + 1]) == PrintLines(ls[..j]) + ls[j] + "\n"
  {
    assert ls[..j + 1] == ls[..j] + [ls[j]];
    PrintLinesAppend(ls[..j], [ls[j]]);
  }

  /** A header line, the body lines, a closing line and an empty line, printed. */
  lemma PrintFramed(h: string, ls: seq<string>, t: string)
    ensures PrintLines([h] + ls + [t, ""]) == h + "\n" + PrintLines(ls) + t + "\n" + "\n"
  {
    PrintLinesAppend([h] + ls, [t, ""]);
    PrintLinesAppend([h], ls);
    assert [t, ""][1..] == [""];
    assert PrintLines([t, ""]) == t + "\n" + PrintLines([""]);
    assert PrintLines([""]) == "" + "\n" + PrintLines([]);
    assert PrintLines([h]) == h + "\n" + PrintLines([]);
  }

  /** Printed lines without newlines of their own split back into those lines. */
  lemma {:induction false} SplitPrintLines(ls: seq<string>, rest: string)
    requires SingleLines(ls)
    ensures Split(PrintLines(ls) + rest, "\n") == ls + Split(rest, "\n")
    decreases |ls|
  {
    if ls == [] {
      assert PrintLines(ls) + rest == rest;
      assert ls + Split(rest, "\n") == Split(rest, "\n");
    } else {
      var tail := PrintLines(ls[1..]) + rest;
      PrintLinesCons(ls, rest);
      assert NoChar(ls[0], '\n');
      SplitLine(ls[0], tail, '\n');
      assert SingleLines(ls[1..]) by {
        forall k | 0 <= k < |ls[1..]|
          ensures NoChar(ls[1..][k], '\n')
        {
          assert ls[1..][k] == ls[k + 1];
        }
      }
      SplitPrintLines(ls[1..], rest);
      ConsAppend(ls, Split(rest, "\n"));
    }
  }

  lemma PrintLinesCons(ls: seq<string>, rest: string)
    requires ls != []
    ensures PrintLines(ls) + rest == ls[0] + ['\n'] + (PrintLines(ls[1..]) + rest)
  {
  }

  lemma ConsAppend(ls: seq<string>, more: seq<string>)
    requires ls != []
    ensures [ls[0]] + (ls[1..] + more) == ls + more
  {
    assert ls == [ls[0]] + ls[1..];
  }

  /** str.split(sep, 1): s cut at the first occurrence of sep, if any. */
  function SplitOnce(s: string, sep: string): (ps: seq<string>)
    requires |sep| > 0
    ensures 1 <= |ps| <= 2
    ensures |ps| == 1 <==> Find(s, sep).None?
    ensures |ps| == 2 ==> s == ps[0] + sep + ps[1] && Find(ps[0], sep).None?
  {
    match Find(s, sep)
    case None => [s]
    case Some(k) =>
      assert s == s[..k] + sep + s[k + |sep|..];
      PrefixHasNoSep(s, sep, k);
      [s[..k], s[k + |sep|..]]
  }

  /** sep.join(ps) */
  function Join(ps: seq<string>, sep: string): string {
    if ps == [] then []
    else if |ps| == 1 then ps[0]
    else ps[0] + sep + Join(ps[1..], sep)
  }

  lemma PrefixHasNoSep(s: string, sep: string, k: nat)
    requires k <= |s| && |sep| > 0
    requires forall m: nat :: m < k ==> !IsAt(s, sep, m)
    ensures Find(s[..k], sep).None?
  {
    var p := s[..k];
    forall m: nat | m + |sep| <= k
      ensures !IsAt(p, sep, m)
    {
      assert p[m..m + |sep|] == s[m..m + |sep|];
      assert !IsAt(s, sep, m);
    }
  }

  /** Joining the pieces with sep gives s back, and no piece contains sep. */
  lemma {:induction false} SplitJoin(s: string, sep: string)
    requires |sep| > 0
    ensures Join(Split(s, sep), sep) == s
    ensures forall p :: p in Split(s, sep) ==> Find(p, sep).None?
    decreases |s|
  {
    match Find(s, sep)
    case None =>
    case Some(k) =>
      var rest := s[k + |sep|..];
      SplitJoin(rest, sep);
      PrefixHasNoSep(s, sep, k);
      var ps := Split(s, sep);
      assert ps == [s[..k]] + Split(rest, sep);
      assert ps[1..] == Split(rest, sep);
      assert s == s[..k] + sep + rest;
  }

  // ---------------------------------------------------------------------------
  // int(str), str(int), float(str)
  // ---------------------------------------------------------------------------

  function DigitValue(c: char): nat
    requires IsDigit(c)
  {
    c as int - '0' as int
  }

  /** The number a string of decimal digits denotes. */
  function DigitsValue(d: string): nat
    requires AllDigits(d)
  {
    if d == [] then 0 else DigitsValue(d[..|d| - 1]) * 10 + DigitValue(d[|d| - 1])
  }

  /** A number's text that a minus sign leads. */
  predicate Negative(t: string) {
    |t| > 0 && t[0] == '-'
  }

  /** The text after a leading sign, if any. */
  function Unsigned(t: string): string {
    if |t| > 0 && (t[0] == '-' || t[0] == '+') then t[1..] else t
  }

  /** int(s) for a decimal string: optional blanks and sign around at least one digit. */
  function ParseInt(s: string): (r: Option<int>)
    ensures r.Some? <==> |Unsigned(Strip(s))| > 0 && AllDigits(Unsigned(Strip(s)))
    ensures r.Some? ==> Abs(r.value) == DigitsValue(Unsigned(Strip(s))) && (r.value < 0 ==> Negative(Strip(s)))
  {
    var t := Strip(s);
    var d := Unsigned(t);
    if |d| > 0 && AllDigits(d) then
      var n: int := DigitsValue(d);
      Some(if Negative(t) then -n else n)
    else None
  }

  function Abs(n: int): nat {
    if n < 0 then -n else n
  }

  /** abs(x) on a number read as an exact rational. */
  function RealAbs(x: real): (a: real)
    ensures a >= 0.0 && (a == x || a == -x)
  {
    if x < 0.0 then -x else x
  }

  function DigitChar(n: nat): (c: char)
    requires n < 10
    ensures IsDigit(c) && DigitValue(c) == n
  {
    ('0' as int + n) as char
  }

  /** str(n) for n >= 0: decimal digits without leading zeros. */
  function NatToString(n: nat): (d: string)
    ensures |d| > 0 && AllDigits(d) && DigitsValue(d) == n
    ensures d[0] != '0' || n == 0
  {
    if n < 10 then [DigitChar(n)]
    else
      var d := NatToString(n / 10) + [DigitChar(n % 10)];
      assert d[..|d| - 1] == NatToString(n / 10);
      d
  }

  /** str(n): a minus sign before the digits of |n| when n is negative. */
  function IntToString(n: int): string {
    if n < 0 then "-" + NatToString(-n) else NatToString(n)
  }

  lemma NoBlankDigits(d: string)
    requires |d| > 0 && AllDigits(d)
    ensures Strip(d) == d
  {
    var i := SkipFrom(d, IsSpace, 0);
    assert i == 0 by { assert !IsSpace(d[0]); }
    var j := SkipBackFrom(d, IsSpace, 0, |d|);
    assert j == |d| by { assert !IsSpace(d[|d| - 1]); }
  }

  /** int(str(n)) == n. */
  lemma ParseIntOfString(n: int)
    ensures ParseInt(IntToString(n)) == Some(n)
  {
    var s := IntToString(n);
    if n < 0 {
      var d := NatToString(-n);
      assert s[0] == '-';
      assert s[1..] == d;
      NoBlankEnds(s);
      assert Unsigned(s) == d;
    } else {
      NoBlankDigits(s);
    }
  }

  lemma NoBlankEnds(s: string)
    requires |s| > 1 && s[0] == '-' && AllDigits(s[1..])
    ensures Strip(s) == s
  {
    var i := SkipFrom(s, IsSpace, 0);
    assert i == 0 by { assert !IsSpace(s[0]); }
    assert IsDigit(s[1..][|s| - 2]);
    var j := SkipBackFrom(s, IsSpace, 0, |s|);
    assert j == |s| by { assert !IsSpace(s[|s| - 1]); }
  }

  function Pow10(k: nat): (p: nat)
    ensures p >= 1
  {
    if k == 0 then 1 else 10 * Pow10(k - 1)
  }

  /** An unsigned decimal: digits with at most one point and at least one digit. */
  function UnsignedDecimal(m: string): (r: Option<real>)
    ensures r.Some? ==> r.value >= 0.0
  {
    match Find(m, ".")
    case None =>
      if |m| > 0 && AllDigits(m) then Some(DigitsValue(m) as real) else None
    case Some(k) =>
      var whole := m[..k];
      var frac := m[k + 1..];
      if |whole| + |frac| > 0 && AllDigits(whole) && AllDigits(frac) then
        Some(DigitsValue(whole) as real + DigitsValue(frac) as real / Pow10(|frac|) as real)
      else None
  }

  /**
   * float(s) for plain decimal text: optional blanks and sign around an unsigned
   * decimal, read as an exact rational.
   */
  function ParseDecimal(s: string): (r: Option<real>)
    ensures r.Some? <==> UnsignedDecimal(Unsigned(Strip(s))).Some?
    ensures r.Some? ==> RealAbs(r.value) == UnsignedDecimal(Unsigned(Strip(s))).value
    ensures r.Some? && r.value < 0.0 ==> Negative(Strip(s))
  {
    var t := Strip(s);
    match UnsignedDecimal(Unsigned(t))
    case None => None
    case Some(v) => Some(if Negative(t) then -v else v)
  }

  lemma DigitsAsDecimal(m: string)
    requires |m| > 0 && AllDigits(m)
    ensures UnsignedDecimal(m) == Some(DigitsValue(m) as real)
  {
    forall v: nat | v + 1 <= |m|
      ensures !IsAt(m, ".", v)
    {
      assert m[v..v + 1][0] == m[v];
    }
  }

  /** Text that int() accepts, float() accepts too, with the same value. */
  lemma ParseDecimalOfInt(s: string)
    requires ParseInt(s).Some?
    ensures ParseDecimal(s) == Some(ParseInt(s).value as real)
  {
    var t := Strip(s);
    var d := Unsigned(t);
    var n: int := DigitsValue(d);
    assert ParseInt(s) == Some(if Negative(t) then -n else n);
    DigitsAsDecimal(d);
  }

  /** Text that neither starts nor ends with a blank is its own strip(). */
  lemma StripKeeps(s: string)
    requires |s| > 0 && !IsSpace(s[0]) && !IsSpace(s[|s| - 1])
    ensures Strip(s) == s
  {
    var i := SkipFrom(s, IsSpace, 0);
    assert i == 0;
    var j := SkipBackFrom(s, IsSpace, 0, |s|);
    assert j == |s|;
  }

  /** float() of digits, a point and more digits: the whole part plus the fraction. */
  lemma ParseDecimalOfParts(w: nat, frac: string)
    requires AllDigits(frac)
    ensures ParseDecimal(NatToString(w) + "." + frac) ==
      Some(w as real + DigitsValue(frac) as real / Pow10(|frac|) as real)
  {
    var d := NatToString(w);
    var s := d + "." + frac;
    PointTextStrips(d, frac);
    assert !Negative(s) by {
      assert s[0] == d[0];
    }
    PointDecimal(d, frac);
  }

  lemma PointDecimal(d: string, frac: string)
    requires |d| > 0 && AllDigits(d) && AllDigits(frac)
    ensures UnsignedDecimal(d + "." + frac) ==
      Some(DigitsValue(d) as real + DigitsValue(frac) as real / Pow10(|frac|) as real)
  {
    var s := d + "." + frac;
    PointFound(d, frac);
    DecimalAt(s, d, frac);
  }

  /** An unsigned decimal whose first point follows the digits whole. */
  lemma DecimalAt(m: string, whole: string, rest: string)
    requires Find(m, ".") == Some(|whole|) && m[..|whole|] == whole && m[|whole| + 1..] == rest
    requires |whole| > 0 && AllDigits(whole) && AllDigits(rest)
    ensures UnsignedDecimal(m) == Some(DigitsValue(whole) as real + DigitsValue(rest) as real / Pow10(|rest|) as real)
  {
  }

  lemma PointTextStrips(d: string, frac: string)
    requires |d| > 0 && AllDigits(d) && AllDigits(frac)
    ensures Strip(d + "." + frac) == d + "." + frac
    ensures Unsigned(d + "." + frac) == d + "." + frac
  {
    var s := d + "." + frac;
    assert s[0] == d[0];
    assert !IsSpace(s[|s| - 1]) by {
      if frac == [] {
        assert s[|s| - 1] == '.';
      } else {
        assert s[|s| - 1] == frac[|frac| - 1];
      }
    }
    StripKeeps(s);
  }

  lemma PointFound(d: string, frac: string)
    requires AllDigits(d)
    ensures Find(d + "." + frac, ".") == Some(|d|)
    ensures (d + "." + frac)[..|d|] == d && (d + "." + frac)[|d| + 1..] == frac
  {
    var s := d + "." + frac;
    assert IsAt(s, ".", |d|) by {
      assert s[|d|..|d| + 1] == ".";
    }
    forall m: nat | m < |d|
      ensures !IsAt(s, ".", m)
    {
      assert s[m..m + 1][0] == d[m];
    }
    assert s[..|d|] == d;
    assert s[|d| + 1..] == frac;
  }

  /** Splitting text without the separator gives the text alone. */
  lemma SplitNone(s: string, c: char)
    requires NoChar(s, c)
    ensures Split(s, [c]) == [s]
  {
    forall m: nat | m + 1 <= |s|
      ensures !IsAt(s, [c], m)
    {
      assert s[m..m + 1][0] == s[m];
    }
  }

  // ---------------------------------------------------------------------------
  // int(x) and round(x) on numbers
  // ---------------------------------------------------------------------------

  /** int(x): x rounded toward zero. */
  function Trunc(x: real): (n: int)
    ensures x >= 0.0 ==> n as real <= x < n as real + 1.0
    ensures x < 0.0 ==> n as real - 1.0 < x <= n as real
  {
    if x >= 0.0 then x.Floor else -((-x).Floor)
  }

  /** round(x): the nearest integer, ties going to the even one. */
  function RoundHalfEven(x: real): (n: int)
    ensures -0.5 <= x - n as real <= 0.5
    ensures (x - n as real == 0.5 || x - n as real == -0.5) ==> n % 2 == 0
  {
    var f := x.Floor;
    var d := x - f as real;
    if d < 0.5 then f
    else if d > 0.5 then f + 1
    else if f % 2 == 0 then f
    else f + 1
  }

  /** A number nearer to n than half a unit rounds to n. */
  lemma RoundsTo(x: real, n: int)
    requires n as real - 0.5 < x < n as real + 0.5
    ensures RoundHalfEven(x) == n
  {
  }

  /** A non-negative number in [n, n + 1) truncates to n. */
  lemma TruncatesTo(x: real, n: int)
    requires 0.0 <= n as real <= x < n as real + 1.0
    ensures Trunc(x) == n
  {
  }
}
