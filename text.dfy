/** String helpers shared by every module: the whitespace classes of the
    three source languages, trimming, searching, joining, decimal rendering
    and the integer parsers of Rust, Java and Python. Strings are sequences
    of Unicode scalar values, as Rust `char`, Python `str` items and (for the
    characters used here) Java `char` are. */
module Text {
  import opened Wrappers

  // ---------------------------------------------------------------------
  // Whitespace classes

  /** Unicode White_Space: Rust's `char::is_whitespace`, used by `trim`
      and `split_whitespace`. */
  predicate IsRustSpace(c: char) {
    ('\t' <= c <= '\r') || c == ' ' || c == '\U{85}' || c == '\U{A0}' || c == '\U{1680}'
    || ('\U{2000}' <= c <= '\U{200A}') || c == '\U{2028}' || c == '\U{2029}'
    || c == '\U{202F}' || c == '\U{205F}' || c == '\U{3000}'
  }

  /** Python's `str.isspace`: White_Space plus the information separators
      U+001C..U+001F. */
  predicate IsPySpace(c: char) {
    IsRustSpace(c) || ('\U{1C}' <= c <= '\U{1F}')
  }

  /** Java's `Character.isWhitespace`: space, line and paragraph separators
      except the non-breaking ones, plus the ASCII controls it names. */
  predicate IsJavaSpace(c: char) {
    ('\t' <= c <= '\r') || ('\U{1C}' <= c <= '\U{1F}') || c == ' ' || c == '\U{1680}'
    || ('\U{2000}' <= c <= '\U{2006}') || ('\U{2008}' <= c <= '\U{200A}')
    || c == '\U{2028}' || c == '\U{2029}' || c == '\U{205F}' || c == '\U{3000}'
  }

  /** Rust's `char::is_alphabetic` on the scripts the documents use: ASCII
      and Latin-1/Latin Extended letters, Greek and Cyrillic, and CJK
      ideographs. Other scripts' letters are not recognised. */
  predicate IsAlphabetic(c: char) {
    ('A' <= c <= 'Z') || ('a' <= c <= 'z') || c == '\U{AA}' || c == '\U{B5}' || c == '\U{BA}'
    || ('\U{C0}' <= c <= '\U{24F}' && c != '\U{D7}' && c != '\U{F7}')
    || ('\U{391}' <= c <= '\U{3A9}' && c != '\U{3A2}') || ('\U{3B1}' <= c <= '\U{3C9}')
    || ('\U{400}' <= c <= '\U{481}')
    || ('\U{3400}' <= c <= '\U{4DBF}') || ('\U{4E00}' <= c <= '\U{9FFF}')
  }

  predicate AllSpace(s: string, ws: char -> bool) {
    forall k | 0 <= k < |s| :: ws(s[k])
  }

  // ---------------------------------------------------------------------
  // Trimming

  /** The end of the run of whitespace that starts at `i`. */
  function SkipForward(s: string, ws: char -> bool, i: nat): (n: nat)
    requires i <= |s| && forall k | 0 <= k < i :: ws(s[k])
    ensures i <= n <= |s| && (n == |s| || !ws(s[n]))
    ensures forall k | 0 <= k < n :: ws(s[k])
    decreases |s| - i
  {
    if i < |s| && ws(s[i]) then SkipForward(s, ws, i + 1) else i
  }

  /** The start of the run of whitespace that ends just before `j`. */
  function SkipBackward(s: string, ws: char -> bool, j: nat): (n: nat)
    requires j <= |s| && forall k | j <= k < |s| :: ws(s[k])
    ensures n <= j && (n == 0 || !ws(s[n - 1]))
    ensures forall k | n <= k < |s| :: ws(s[k])
  {
    if j > 0 && ws(s[j - 1]) then SkipBackward(s, ws, j - 1) else j
  }

  function TrimStart(s: string, ws: char -> bool): (r: string)
    ensures |r| <= |s| && r == s[|s| - |r|..]
    ensures r == [] || !ws(r[0])
    ensures forall k | 0 <= k < |s| - |r| :: ws(s[k])
  {
    s[SkipForward(s, ws, 0)..]
  }

  function TrimEnd(s: string, ws: char -> bool): (r: string)
    ensures |r| <= |s| && r == s[..|r|]
    ensures r == [] || !ws(r[|r| - 1])
    ensures forall k | |r| <= k < |s| :: ws(s[k])
  {
    s[..SkipBackward(s, ws, |s|)]
  }

  /** `trim()` / `strip()` for the whitespace class `ws`: the empty string
      exactly when every character is whitespace, otherwise a substring
      that starts and ends with a non-whitespace character. */
  function Trim(s: string, ws: char -> bool): (r: string)
    ensures r == [] <==> AllSpace(s, ws)
    ensures r != [] ==> !ws(r[0]) && !ws(r[|r| - 1])
    ensures |r| <= |s|
  {
    var a := TrimStart(s, ws);
    var r := TrimEnd(a, ws);
    TrimParts(s, a, r, ws);
    r
  }

  lemma TrimParts(s: string, a: string, r: string, ws: char -> bool)
    requires a == TrimStart(s, ws) && r == TrimEnd(a, ws)
    ensures r == [] <==> AllSpace(s, ws)
    ensures r != [] ==> !ws(r[0]) && !ws(r[|r| - 1])
  {
    var d := |s| - |a|;
    if r == [] {
      assert a == [];
    } else {
      assert s[d] == r[0];
    }
  }

  /** A string that does not start with whitespace keeps its first
      character under trimming. */
  lemma TrimKeepsStart(s: string, ws: char -> bool)
    requires |s| >= 1 && !ws(s[0])
    ensures Trim(s, ws) == TrimEnd(s, ws)
    ensures |Trim(s, ws)| >= 1 && Trim(s, ws)[0] == s[0]
  {
    var a := TrimStart(s, ws);
    var r := TrimEnd(a, ws);
  }

  /** A string that neither starts nor ends with whitespace is its own
      trim. */
  lemma TrimUnchanged(s: string, ws: char -> bool)
    requires |s| >= 1 && !ws(s[0]) && !ws(s[|s| - 1])
    ensures Trim(s, ws) == s
  {
    var a := TrimStart(s, ws);
    var r := TrimEnd(a, ws);
  }

  // ---------------------------------------------------------------------
  // Searching

  predicate OccursAt(s: string, p: string, i: int) {
    0 <= i && i + |p| <= |s| && s[i..i + |p|] == p
  }

  predicate Contains(s: string, p: string) {
    exists i | 0 <= i <= |s| - |p| :: OccursAt(s, p, i)
  }

  predicate StartsWith(s: string, p: string) {
    OccursAt(s, p, 0)
  }

  predicate EndsWith(s: string, p: string) {
    |p| <= |s| && s[|s| - |p|..] == p
  }

  /** The start of the last occurrence of `p` in `s` that starts below `n`. */
  function LastIndexBelow(s: string, p: string, n: nat): (r: Option<nat>)
    ensures r.Some? ==> r.value < n && OccursAt(s, p, r.value)
    decreases n
  {
    if n == 0 then None
    else if OccursAt(s, p, n - 1) then Some(n - 1)
    else LastIndexBelow(s, p, n - 1)
  }

  lemma {:induction false} LastIndexBelowMeaning(s: string, p: string, n: nat)
    ensures LastIndexBelow(s, p, n).Some? ==> forall j | LastIndexBelow(s, p, n).value < j < n :: !OccursAt(s, p, j)
    ensures LastIndexBelow(s, p, n).None? <==> forall j | 0 <= j < n :: !OccursAt(s, p, j)
  {
    if n > 0 && !OccursAt(s, p, n - 1) {
      LastIndexBelowMeaning(s, p, n - 1);
    }
  }

  /** `rfind`: the start of the last occurrence of `p` in `s`. */
  function LastIndexOf(s: string, p: string): (r: Option<nat>)
    ensures r.Some? ==> OccursAt(s, p, r.value)
    ensures r.Some? ==> forall j | r.value < j :: !OccursAt(s, p, j)
    ensures r.None? <==> !Contains(s, p)
  {
    LastIndexBelowMeaning(s, p, |s| + 1);
    LastIndexBelow(s, p, |s| + 1)
  }

  /** Inserting `t` at the start of the last occurrence of `p`: the
      `rfind` + `insert_str` idiom the writer uses. No occurrence, no change. */
  function InsertBeforeLast(s: string, p: string, t: string): (r: string)
    ensures LastIndexOf(s, p).None? ==> r == s
    ensures LastIndexOf(s, p).Some? ==>
              var i := LastIndexOf(s, p).value; r == s[..i] + t + s[i..]
  {
    match LastIndexOf(s, p)
    case None => s
    case Some(i) => s[..i] + t + s[i..]
  }

  /** If `s` starts with `p` and `p` occurs nowhere later in `s`, then in
      `a + s` the last occurrence of `p` is right after `a`. */
  lemma LastIndexAfterPrefix(a: string, s: string, p: string)
    requires StartsWith(s, p)
    requires forall j | 0 < j :: !OccursAt(s, p, j)
    ensures LastIndexOf(a + s, p) == Some(|a|)
  {
    var u := a + s;
    assert u[|a|..|a| + |p|] == s[..|p|];
    assert OccursAt(u, p, |a|);
    forall j | |a| < j ensures !OccursAt(u, p, j) {
      if j + |p| <= |u| {
        assert u[j..j + |p|] == s[j - |a|..j - |a| + |p|];
        assert !OccursAt(s, p, j - |a|);
      }
    }
  }

  /** Non-overlapping occurrences of a non-empty `p`, scanning left to
      right from `from`: what `re.finditer(re.escape(p), s)` yields. */
  function OccurrencesFrom(s: string, p: string, from: nat): (r: seq<nat>)
    requires |p| > 0
    ensures forall k | 0 <= k < |r| :: from <= r[k] && OccursAt(s, p, r[k])
    ensures forall k | 0 <= k < |r| - 1 :: r[k] + |p| <= r[k + 1]
    decreases |s| - from
  {
    if from + |p| > |s| then []
    else if OccursAt(s, p, from) then [from] + OccurrencesFrom(s, p, from + |p|)
    else OccurrencesFrom(s, p, from + 1)
  }

  function Occurrences(s: string, p: string): (r: seq<nat>)
    requires |p| > 0
  {
    OccurrencesFrom(s, p, 0)
  }

  /** The scan never skips an occurrence that starts at or after `from`
      and before the first one it reports. */
  lemma {:induction false} OccurrencesFindFirst(s: string, p: string, from: nat, i: nat)
    requires |p| > 0 && from <= i && OccursAt(s, p, i)
    ensures OccurrencesFrom(s, p, from) != []
    ensures OccurrencesFrom(s, p, from)[0] <= i
    decreases |s| - from
  {
    if !OccursAt(s, p, from) {
      OccurrencesFindFirst(s, p, from + 1, i);
    }
  }

  // ---------------------------------------------------------------------
  // Building strings

  function Join(parts: seq<string>, sep: string): string {
    if |parts| == 0 then ""
    else if |parts| == 1 then parts[0]
    else parts[0] + sep + Join(parts[1..], sep)
  }

  function Concat(parts: seq<string>): string {
    if parts == [] then "" else parts[0] + Concat(parts[1..])
  }

  lemma ConcatAppend(parts: seq<string>, last: string)
    ensures Concat(parts + [last]) == Concat(parts) + last
  {
    if parts != [] {
      assert (parts + [last])[1..] == parts[1..] + [last];
      ConcatAppend(parts[1..], last);
    }
  }

  /** Joining parts that are all non-empty gives the empty string exactly
      when there are no parts. */
  lemma JoinEmpty(parts: seq<string>, sep: string)
    requires forall k | 0 <= k < |parts| :: parts[k] != ""
    ensures Join(parts, sep) == "" <==> parts == []
  {
  }

  // ---------------------------------------------------------------------
  // Lines

  /** The index of the first '\n', or |s| when there is none. */
  function LineEnd(s: string): (e: nat)
    ensures e <= |s| && (e < |s| ==> s[e] == '\n')
    ensures forall j | 0 <= j < e :: s[j] != '\n'
  {
    if s == [] || s[0] == '\n' then 0 else 1 + LineEnd(s[1..])
  }

  /** A line without the '\r' of a "\r\n" terminator. */
  function DropCr(l: string): (r: string)
    ensures r == l || (l == r + "\r")
  {
    if l != [] && l[|l| - 1] == '\r' then l[..|l| - 1] else l
  }

  /** Rust's `str::lines`: the text is cut at every '\n', a '\r' right
      before a '\n' is dropped, a bare '\r' stays, and a final '\n' does
      not start another line. */
  function Lines(s: string): (r: seq<string>)
    ensures forall k | 0 <= k < |r| :: '\n' !in r[k]
    ensures r == [] <==> s == []
    decreases |s|
  {
    if s == [] then []
    else
      var e := LineEnd(s);
      if e == |s| then [s] else [DropCr(s[..e])] + Lines(s[e + 1..])
  }

  lemma JoinCons(x: string, rest: seq<string>, sep: string)
    requires rest != []
    ensures Join([x] + rest, sep) == x + sep + Join(rest, sep)
  {
    assert ([x] + rest)[1..] == rest;
  }

  /** Without carriage returns, joining the lines with '\n' gives the
      text back, less its final '\n'. */
  lemma {:induction false} LinesJoin(s: string)
    requires '\r' !in s
    ensures Join(Lines(s), "\n") + (if s != [] && s[|s| - 1] == '\n' then "\n" else "") == s
    decreases |s|
  {
    if s == [] {
    } else if LineEnd(s) == |s| {
      LinesLast(s);
    } else {
      var e := LineEnd(s);
      var line, rest := s[..e], s[e + 1..];
      LinesStep(s);
      if rest == [] {
        assert Join(Lines(s), "\n") == line;
      } else {
        var tail := if rest[|rest| - 1] == '\n' then "\n" else "";
        var j := Join(Lines(rest), "\n");
        LinesJoin(rest);
        assert j + tail == rest;
        JoinCons(line, Lines(rest), "\n");
        assert Join(Lines(s), "\n") == line + "\n" + j;
        assert s[|s| - 1] == rest[|rest| - 1];
        assert (line + "\n" + j) + tail == line + "\n" + (j + tail);
      }
    }
  }

  /** Text without a newline is one line. */
  lemma LinesLast(s: string)
    requires s != [] && LineEnd(s) == |s|
    ensures Join(Lines(s), "\n") == s && s[|s| - 1] != '\n'
  {
    assert Lines(s) == [s];
  }

  /** A line ended by a newline is cut off whole. */
  lemma LinesStep(s: string)
    requires '\r' !in s && s != [] && LineEnd(s) < |s|
    ensures var e := LineEnd(s);
            s == s[..e] + "\n" + s[e + 1..] && '\r' !in s[e + 1..]
            && Lines(s) == [s[..e]] + Lines(s[e + 1..])
  {
    var e := LineEnd(s);
    SplitAt(s, e);
    assert '\r' !in s[..e];
    assert DropCr(s[..e]) == s[..e];
  }

  lemma SplitAt(s: string, e: nat)
    requires e < |s|
    ensures s == s[..e] + [s[e]] + s[e + 1..]
  {
    assert s[e..] == [s[e]] + s[e + 1..];
    assert s == s[..e] + s[e..];
  }

  /** Every occurrence of `c` removed (`s.replace(c, "")`). */
  function RemoveChar(s: string, c: char): (r: string)
    ensures c !in r
    ensures forall x | x in r :: x in s
  {
    if s == [] then "" else (if s[0] == c then "" else [s[0]]) + RemoveChar(s[1..], c)
  }

  function AsciiLowerChar(c: char): char {
    if 'A' <= c <= 'Z' then (c as int + 32) as char else c
  }

  function AsciiUpperChar(c: char): char {
    if 'a' <= c <= 'z' then (c as int - 32) as char else c
  }

  function AsciiLower(s: string): (r: string)
    ensures |r| == |s|
  {
    seq(|s|, k requires 0 <= k < |s| => AsciiLowerChar(s[k]))
  }

  function AsciiUpper(s: string): (r: string)
    ensures |r| == |s|
  {
    seq(|s|, k requires 0 <= k < |s| => AsciiUpperChar(s[k]))
  }

  /** Number of bytes of the UTF-8 encoding (Rust's `str::len`). */
  function Utf8Width(c: char): nat {
    if c as int < 0x80 then 1 else if c as int < 0x800 then 2
    else if c as int < 0x10000 then 3 else 4
  }

  function Utf8Len(s: string): (n: nat)
    ensures n >= |s|
  {
    if s == [] then 0 else Utf8Width(s[0]) + Utf8Len(s[1..])
  }

  // ---------------------------------------------------------------------
  // Decimal numbers

  predicate IsAsciiDigit(c: char) {
    '0' <= c <= '9'
  }

  predicate AllDigits(s: string) {
    forall k | 0 <= k < |s| :: IsAsciiDigit(s[k])
  }

  function DigitChar(d: nat): char
    requires d < 10
  {
    ('0' as int + d) as char
  }

  function DigitsValue(s: string): nat
    requires AllDigits(s)
  {
    if s == [] then 0 else DigitsValue(s[..|s| - 1]) * 10 + (s[|s| - 1] as int - '0' as int)
  }

  /** Decimal rendering without sign or leading zeros; reading it back
      gives `n`. */
  function NatToString(n: nat): (r: string)
    ensures |r| >= 1 && AllDigits(r) && DigitsValue(r) == n
  {
    if n < 10 then [DigitChar(n)]
    else
      var r := NatToString(n / 10) + [DigitChar(n % 10)];
      assert r[..|r| - 1] == NatToString(n / 10);
      r
  }

  function IntToString(i: int): (r: string) {
    if i < 0 then "-" + NatToString(-i) else NatToString(i)
  }

  /** The decimal expansion of `rem / den` (with `rem < den`) after the
      point, stopping when it terminates or after `budget` digits. */
  function FractionDigits(rem: nat, den: nat, budget: nat): (r: string)
    requires rem < den
    ensures AllDigits(r) && |r| <= budget
    ensures rem == 0 ==> r == ""
    decreases budget
  {
    if rem == 0 || budget == 0 then ""
    else
      var q := rem * 10 / den;
      assert q < 10 by { assert rem * 10 < den * 10; }
      [DigitChar(q)] + FractionDigits(rem * 10 % den, den, budget - 1)
  }

  /** The decimal rendering of the quotient `num / den`: a sign when
      negative, the integral part, and the fraction digits when the
      fraction is not zero (no trailing zeros, no exponent). */
  function RenderQuotient(num: int, den: nat): (r: string)
    requires den > 0
  {
    var (whole, rem) := DivMod(Abs(num), den);
    var frac := FractionDigits(rem, den, 8);
    (if num < 0 then "-" else "") + NatToString(whole) + (if frac == "" then "" else "." + frac)
  }

  function DivMod(a: nat, den: nat): (r: (nat, nat))
    requires den > 0
    ensures r.1 < den && a == r.0 * den + r.1
  {
    (a / den, a % den)
  }

  function Abs(x: int): nat {
    if x < 0 then -x else x
  }

  const I32Min: int := -0x8000_0000
  const I32Max: int := 0x7fff_ffff
  const U32Max: int := 0xffff_ffff

  /** The value of a non-empty string of ASCII digits; none for any
      other string. */
  function DigitsOf(s: string): (r: Option<nat>)
  {
    if s == [] || !IsAsciiDigit(s[|s| - 1]) then None
    else
      var d := s[|s| - 1] as int - '0' as int;
      if |s| == 1 then Some(d)
      else match DigitsOf(s[..|s| - 1])
        case Some(v) => Some(v * 10 + d)
        case None => None
  }

  lemma {:induction false} DigitsOfMeaning(s: string)
    ensures DigitsOf(s).Some? <==> s != [] && AllDigits(s)
    ensures DigitsOf(s).Some? ==> DigitsOf(s).value == DigitsValue(s)
  {
    if |s| > 1 {
      var init := s[..|s| - 1];
      DigitsOfMeaning(init);
      assert AllDigits(s) ==> AllDigits(init);
      assert AllDigits(init) && IsAsciiDigit(s[|s| - 1]) ==> AllDigits(s) by {
        if AllDigits(init) && IsAsciiDigit(s[|s| - 1]) {
          forall k | 0 <= k < |s| ensures IsAsciiDigit(s[k]) {
            if k < |s| - 1 { assert s[k] == init[k]; }
          }
        }
      }
    } else if |s| == 1 {
      assert s[..0] == [];
    }
  }

  lemma {:induction false} DigitsOfNatToString(n: nat)
    ensures DigitsOf(NatToString(n)) == Some(n)
  {
    var s := NatToString(n);
    if n >= 10 {
      DigitsOfNatToString(n / 10);
      assert s[..|s| - 1] == NatToString(n / 10);
    }
  }

  /** The decimal integer grammar shared by Rust's `str::parse` and Java's
      `Integer.parseInt`: an optional `+` (or `-` when `signed`), then at
      least one ASCII digit, with the value inside `[lo, hi]`; nothing
      else is accepted, not even surrounding spaces. */
  function ParseDecimal(s: string, signed: bool, lo: int, hi: int): (r: Option<int>)
    ensures r.Some? ==> lo <= r.value <= hi
  {
    var neg := |s| >= 1 && signed && s[0] == '-';
    var body := if |s| >= 1 && (s[0] == '+' || neg) then s[1..] else s;
    match DigitsOf(body)
    case Some(n) =>
      var v: int := if neg then -(n as int) else n;
      if lo <= v <= hi then Some(v) else None
    case None => None
  }

  /** `IntToString` and `ParseDecimal` are inverse inside the range. */
  lemma ParseDecimalRoundTrip(i: int, lo: int, hi: int)
    requires lo <= i <= hi
    ensures ParseDecimal(IntToString(i), true, lo, hi) == Some(i)
    ensures i >= 0 ==> ParseDecimal(IntToString(i), false, lo, hi) == Some(i)
  {
    var s := IntToString(i);
    if i < 0 {
      assert s[0] == '-' && s[1..] == NatToString(-i);
      DigitsOfNatToString(-i);
    } else {
      assert s == NatToString(i) && IsAsciiDigit(s[0]);
      DigitsOfNatToString(i);
    }
  }

  /** Python's `int(s)` for a `str`: surrounding whitespace ignored, an
      optional sign, decimal digits with single underscores between them. */
  function ParsePyInt(s: string): (r: Option<int>)
    ensures r.Some? ==> PyDigitGroups(PyIntBody(Trim(s, IsPySpace)))
  {
    var t := Trim(s, IsPySpace);
    var body := PyIntBody(t);
    if PyDigitGroups(body) then
      var n: int := PyDigitsValue(body);
      Some(if |t| >= 1 && t[0] == '-' then -n else n)
    else None
  }

  /** The digits after an optional leading sign. */
  function PyIntBody(t: string): (b: string)
    ensures b == t || (|t| >= 1 && b == t[1..])
  {
    if |t| >= 1 && (t[0] == '+' || t[0] == '-') then t[1..] else t
  }

  predicate PyDigitGroups(b: string) {
    |b| >= 1 && IsAsciiDigit(b[0]) && IsAsciiDigit(b[|b| - 1])
    && (forall k | 0 <= k < |b| :: IsAsciiDigit(b[k]) || b[k] == '_')
    && (forall k | 0 <= k < |b| - 1 :: !(b[k] == '_' && b[k + 1] == '_'))
  }

  /** The value of a digit string with underscores, read as if the
      underscores were not there. */
  function PyDigitsValue(b: string): (n: nat)
    requires forall k | 0 <= k < |b| :: IsAsciiDigit(b[k]) || b[k] == '_'
    ensures AllDigits(b) ==> n == DigitsValue(b)
  {
    if b == [] then 0
    else if b[|b| - 1] == '_' then PyDigitsValue(b[..|b| - 1])
    else
      assert IsAsciiDigit(b[|b| - 1]);
      PyDigitsValue(b[..|b| - 1]) * 10 + (b[|b| - 1] as int - '0' as int)
  }

  lemma {:induction false} ParsePyIntOfDigits(n: nat)
    ensures ParsePyInt(NatToString(n)) == Some(n)
  {
    var s := NatToString(n);
    assert IsAsciiDigit(s[0]) && IsAsciiDigit(s[|s| - 1]);
    TrimUnchanged(s, IsPySpace);
    assert PyIntBody(s) == s;
    assert PyDigitGroups(s);
  }

  // ---------------------------------------------------------------------
  // Cutting a string at separator characters

  predicate NoSeparator(s: string, sep: char -> bool) {
    forall k | 0 <= k < |s| :: !sep(s[k])
  }

  /** `re.split` on a one-character class: every separator cuts, so two
      separators in a row, or one at either end, leave an empty piece. */
  function Pieces(s: string, sep: char -> bool): (r: seq<string>)
    ensures |r| >= 1
    decreases |s|
  {
    if s == [] then [""]
    else
      var rest := Pieces(s[1..], sep);
      if sep(s[0]) then [""] + rest else [[s[0]] + rest[0]] + rest[1..]
  }

  /** A string without separators is one piece. */
  lemma {:induction false} PiecesWhole(s: string, sep: char -> bool)
    requires NoSeparator(s, sep)
    ensures Pieces(s, sep) == [s]
    decreases |s|
  {
    if s != [] {
      PiecesWhole(s[1..], sep);
      assert s == [s[0]] + s[1..];
    }
  }

  /** A separator cuts the string into the pieces before and after it. */
  lemma {:induction false} PiecesCut(a: string, c: char, b: string, sep: char -> bool)
    requires sep(c)
    ensures Pieces(a + [c] + b, sep) == Pieces(a, sep) + Pieces(b, sep)
    decreases |a|
  {
    var s := a + [c] + b;
    if a == [] {
      assert s == [c] + b;
      assert s[1..] == b;
    } else {
      assert s[0] == a[0];
      assert s[1..] == a[1..] + [c] + b;
      PiecesCut(a[1..], c, b, sep);
    }
  }

  /** Splitting words joined by one separator gives the words back. */
  lemma {:induction false} PiecesJoin(words: seq<string>, c: char, sep: char -> bool)
    requires |words| >= 1 && sep(c)
    requires forall k | 0 <= k < |words| :: NoSeparator(words[k], sep)
    ensures Pieces(Join(words, [c]), sep) == words
    decreases |words|
  {
    if |words| == 1 {
      PiecesWhole(words[0], sep);
    } else {
      PiecesJoin(words[1..], c, sep);
      PiecesWhole(words[0], sep);
      PiecesCut(words[0], c, Join(words[1..], [c]), sep);
      assert Join(words, [c]) == words[0] + [c] + Join(words[1..], [c]);
      assert words == [words[0]] + words[1..];
    }
  }
}
