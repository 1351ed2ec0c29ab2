/** The rule-based detector for academic Chinese text
    (`semantic_detector.py`): near-homograph typos, half-width punctuation
    next to Chinese characters, and colloquial wording. Each rule scans the
    text and appends one issue per match. */
module SemanticDetector {
  import opened Text
  import opened InferenceTypes

  // ---------------------------------------------------------------------
  // The detector's fixed tables, in their insertion order

  /** `typo_corrections`: wrong form, correct form. */
  const TypoCorrections: seq<(string, string)> :=
    [("粘度", "黏度"), ("份量", "分量"), ("份儿", "分儿"), ("听闻", "听闻")]

  /** `colloquialisms`: colloquial form, formal replacement. */
  const Colloquialisms: seq<(string, string)> :=
    [("听说", "据报道"), ("据说", "研究表明"), ("特别好", "具有显著优势"), ("很好", "表现优异"),
     ("不错", "效果良好"), ("很牛", "性能卓越"), ("厉害", "表现出色"), ("东西", "组件"),
     ("玩意儿", "工具"), ("搞", "进行"), ("弄", "执行"), ("做", "实施")]

  /** The character class of `half_punct_pattern`. */
  predicate IsHalfPunct(c: char) {
    c in "!@#$%^&*()_+-=[]{};':\"\\|,.<>/?"
  }

  /** `half_to_full_map`: every printable ASCII punctuation mark to its
      fullwidth form. */
  const HalfToFull: map<char, char> := map[
    '!' := '！', '"' := '＂', '#' := '＃', '$' := '＄', '%' := '％',
    '&' := '＆', '\'' := '＇', '(' := '（', ')' := '）', '*' := '＊',
    '+' := '＋', ',' := '，', '-' := '－', '.' := '．', '/' := '／',
    ':' := '：', ';' := '；', '<' := '＜', '=' := '＝', '>' := '＞',
    '?' := '？', '@' := '＠', '[' := '［', '\\' := '＼', ']' := '］',
    '^' := '＾', '_' := '＿', '`' := '｀', '{' := '｛', '|' := '｜',
    '}' := '｝', '~' := '～']

  // ---------------------------------------------------------------------
  // Character helpers

  /** `_is_chinese_char`: the empty string is not Chinese; one character
      is when it lies in the CJK Unified Ideographs block. */
  predicate IsChineseChar(s: string)
    requires |s| <= 1
  {
    s != "" && '\U{4E00}' <= s[0] <= '\U{9FFF}'
  }

  /** `_to_full_width`: the mapped form, or the character itself. */
  function ToFullWidth(c: char): char {
    if c in HalfToFull then HalfToFull[c] else c
  }

  /** A mapped character moves by the fixed fullwidth offset; any other
      comes back unchanged. */
  lemma ToFullWidthMeaning(c: char)
    ensures c in HalfToFull ==> ToFullWidth(c) as int == c as int + 0xFEE0
    ensures c !in HalfToFull ==> ToFullWidth(c) == c
  {
    HalfToFullIsOffset();
  }

  /** The table is the fixed offset between the ASCII and the fullwidth
      forms, and it covers every character of the punctuation class, so a
      flagged mark is never suggested back unchanged. */
  lemma HalfToFullIsOffset()
    ensures forall c | c in HalfToFull :: HalfToFull[c] as int == c as int + 0xFEE0
    ensures forall c | IsHalfPunct(c) :: c in HalfToFull
  {
  }

  // ---------------------------------------------------------------------
  // Table rules: typos and colloquialisms

  function TypoIssue(entry: (string, string)): (r: Issue)
    ensures r.code == "TYPO" && r.severity == Medium
    ensures r.originalSnippet == entry.0 && r.suggestion == entry.1
  {
    Issue("TYPO", TypoMessage(entry), entry.0, entry.1, Medium, 0)
  }

  function TypoMessage(entry: (string, string)): string {
    "形近字错误: '" + entry.0 + "' 应为 '" + entry.1 + "'"
  }

  function StyleIssue(entry: (string, string)): (r: Issue)
    ensures r.code == "STYLE" && r.severity == Medium
    ensures r.originalSnippet == entry.0 && r.suggestion == entry.1
  {
    Issue("STYLE", StyleMessage(entry), entry.0, entry.1, Medium, 0)
  }

  function StyleMessage(entry: (string, string)): string {
    "口语化表达: '" + entry.0 + "' 建议改为 '" + entry.1 + "'"
  }

  predicate NonEmptyKeys(table: seq<(string, string)>) {
    forall k | 0 <= k < |table| :: table[k].0 != ""
  }

  function Repeat<T>(x: T, n: nat): (r: seq<T>)
    ensures |r| == n && forall k | 0 <= k < n :: r[k] == x
  {
    seq(n, _ => x)
  }

  /** One issue per non-overlapping match of each key, entry after entry. */
  function TableIssues(text: string, table: seq<(string, string)>, mk: ((string, string)) -> Issue): seq<Issue>
    requires NonEmptyKeys(table)
  {
    if table == [] then []
    else
      var last := table[|table| - 1];
      TableIssues(text, table[..|table| - 1], mk) + Repeat(mk(last), |Occurrences(text, last.0)|)
  }

  /** A key has a match exactly when it occurs in the text. */
  lemma OccurrencesIffContains(text: string, p: string)
    requires |p| > 0
    ensures Occurrences(text, p) != [] <==> Contains(text, p)
  {
    var occ := Occurrences(text, p);
    if occ != [] {
      assert OccursAt(text, p, occ[0]);
    }
    if Contains(text, p) {
      var i :| 0 <= i <= |text| - |p| && OccursAt(text, p, i);
      OccurrencesFindFirst(text, p, 0, i);
    }
  }

  /** The issues are exactly those of the entries whose key occurs in the
      text. */
  lemma {:induction false} TableIssuesMeaning(text: string, table: seq<(string, string)>, mk: ((string, string)) -> Issue)
    requires NonEmptyKeys(table)
    ensures forall x | x in TableIssues(text, table, mk) ::
              exists k | 0 <= k < |table| :: Contains(text, table[k].0) && x == mk(table[k])
    ensures forall k | 0 <= k < |table| && Contains(text, table[k].0) :: mk(table[k]) in TableIssues(text, table, mk)
  {
    if table != [] {
      var init := table[..|table| - 1];
      var last := table[|table| - 1];
      TableIssuesMeaning(text, init, mk);
      assert forall k | 0 <= k < |init| :: init[k] == table[k];
      OccurrencesIffContains(text, last.0);
      if Contains(text, last.0) {
        assert Repeat(mk(last), |Occurrences(text, last.0)|)[0] == mk(last);
      }
    }
  }

  /** `_detect_typos` and `_detect_style_errors`: for each entry whose key
      is in the text, one issue per match. */
  method ScanTable(text: string, table: seq<(string, string)>, mk: ((string, string)) -> Issue)
    returns (issues: seq<Issue>)
    requires NonEmptyKeys(table)
    ensures issues == TableIssues(text, table, mk)
  {
    issues := [];
    var i := 0;
    while i < |table|
      invariant 0 <= i <= |table|
      invariant issues == TableIssues(text, table[..i], mk)
    {
      var (key, _) := table[i];
      assert table[..i + 1][..i] == table[..i];
      var before := issues;
      if Contains(text, key) {
        var matches := Occurrences(text, key);
        var m := 0;
        while m < |matches|
          invariant 0 <= m <= |matches|
          invariant issues == before + Repeat(mk(table[i]), m)
        {
          issues := issues + [mk(table[i])];
          m := m + 1;
        }
      } else {
        OccurrencesIffContains(text, key);
      }
      i := i + 1;
    }
    assert table[..i] == table;
  }

  method DetectTypos(text: string) returns (issues: seq<Issue>)
    ensures issues == TableIssues(text, TypoCorrections, TypoIssue)
  {
    issues := ScanTable(text, TypoCorrections, TypoIssue);
  }

  method DetectStyleErrors(text: string) returns (issues: seq<Issue>)
    ensures issues == TableIssues(text, Colloquialisms, StyleIssue)
  {
    issues := ScanTable(text, Colloquialisms, StyleIssue);
  }

  // ---------------------------------------------------------------------
  // Punctuation

  /** The neighbours the rule looks at: "" past either end. */
  function Before(text: string, i: nat): (r: string)
    requires i < |text|
    ensures |r| <= 1
  {
    if i > 0 then [text[i - 1]] else ""
  }

  function After(text: string, i: nat): (r: string)
    requires i < |text|
    ensures |r| <= 1
  {
    if i < |text| - 1 then [text[i + 1]] else ""
  }

  /** Position `i` holds a half-width mark next to a Chinese character. */
  predicate Flagged(text: string, i: nat)
    requires i < |text|
  {
    IsHalfPunct(text[i]) && (IsChineseChar(Before(text, i)) || IsChineseChar(After(text, i)))
  }

  function PunctuationIssue(c: char): (r: Issue)
    ensures r.code == "PUNCTUATION" && r.severity == Low && r.originalSnippet == [c]
  {
    Issue("PUNCTUATION", PunctuationMessage(c), [c], [ToFullWidth(c)], Low, 0)
  }

  function PunctuationMessage(c: char): string {
    "应使用全角标点: '" + [c] + "' 应为对应全角符号"
  }

  /** The issues `mk(i)` of the positions `i < n` that `keep` selects,
      left to right. */
  function Picked(n: nat, keep: nat -> bool, mk: nat -> Issue): (r: seq<Issue>)
    ensures |r| <= n
  {
    if n == 0 then [] else Picked(n - 1, keep, mk) + (if keep(n - 1) then [mk(n - 1)] else [])
  }

  lemma {:induction false} PickedMeaning(n: nat, keep: nat -> bool, mk: nat -> Issue)
    ensures forall x | x in Picked(n, keep, mk) :: exists i | 0 <= i < n :: keep(i) && x == mk(i)
    ensures forall i | 0 <= i < n && keep(i) :: mk(i) in Picked(n, keep, mk)
  {
    if n > 0 {
      PickedMeaning(n - 1, keep, mk);
    }
  }

  /** The positions the rule selects (none past the end) and the issue of
      each. */
  function FlaggedAt(text: string): nat -> bool {
    (i: nat) => i < |text| && Flagged(text, i)
  }

  function IssueAt(text: string): nat -> Issue {
    (i: nat) => if i < |text| then PunctuationIssue(text[i]) else PunctuationIssue(' ')
  }

  /** The issues of the flagged positions below `n`, left to right. */
  function PunctuationIssues(text: string, n: nat): (r: seq<Issue>)
    requires n <= |text|
    ensures |r| <= n
  {
    Picked(n, FlaggedAt(text), IssueAt(text))
  }

  /** Looking at one more position. */
  lemma PunctuationIssuesStep(text: string, pos: nat)
    requires pos < |text|
    ensures PunctuationIssues(text, pos + 1)
            == PunctuationIssues(text, pos) + if Flagged(text, pos) then [PunctuationIssue(text[pos])] else []
  {
    assert FlaggedAt(text)(pos) == Flagged(text, pos) && IssueAt(text)(pos) == PunctuationIssue(text[pos]);
  }

  /** Every punctuation issue comes from a flagged position, and every
      flagged position has its issue. */
  lemma PunctuationIssuesMeaning(text: string, n: nat)
    requires n <= |text|
    ensures forall x | x in PunctuationIssues(text, n) ::
              exists i | 0 <= i < n :: Flagged(text, i) && x == PunctuationIssue(text[i])
    ensures forall i | 0 <= i < n && Flagged(text, i) :: PunctuationIssue(text[i]) in PunctuationIssues(text, n)
  {
    PickedMeaning(n, FlaggedAt(text), IssueAt(text));
    forall x | x in PunctuationIssues(text, n)
      ensures exists i | 0 <= i < n :: Flagged(text, i) && x == PunctuationIssue(text[i])
    {
      var i :| 0 <= i < n && FlaggedAt(text)(i) && x == IssueAt(text)(i);
    }
    forall i | 0 <= i < n && Flagged(text, i)
      ensures PunctuationIssue(text[i]) in PunctuationIssues(text, n)
    {
      assert FlaggedAt(text)(i) && IssueAt(text)(i) == PunctuationIssue(text[i]);
    }
  }

  /** A flagged mark's suggestion is its fullwidth form, never the mark
      itself. */
  lemma FlaggedSuggestion(c: char)
    requires IsHalfPunct(c)
    ensures |PunctuationIssue(c).suggestion| == 1
    ensures PunctuationIssue(c).suggestion[0] as int == c as int + 0xFEE0
  {
    HalfToFullIsOffset();
  }

  /** `_detect_punctuation_errors`: each match of the class, in order,
      checked against its neighbours. */
  method DetectPunctuationErrors(text: string) returns (issues: seq<Issue>)
    ensures issues == PunctuationIssues(text, |text|)
  {
    issues := [];
    var pos := 0;
    while pos < |text|
      invariant 0 <= pos <= |text|
      invariant issues == PunctuationIssues(text, pos)
    {
      var found := CheckMark(text, pos);
      PunctuationIssuesStep(text, pos);
      issues := issues + found;
      pos := pos + 1;
    }
  }

  /** One match of the class: an issue when a neighbour is Chinese. */
  method CheckMark(text: string, pos: nat) returns (found: seq<Issue>)
    requires pos < |text|
    ensures found == if Flagged(text, pos) then [PunctuationIssue(text[pos])] else []
  {
    found := [];
    var c := text[pos];
    if IsHalfPunct(c) {
      var prev := if pos > 0 then [text[pos - 1]] else "";
      var next := if pos < |text| - 1 then [text[pos + 1]] else "";
      if IsChineseChar(prev) || IsChineseChar(next) {
        found := [PunctuationIssue(c)];
      }
    }
  }

  // ---------------------------------------------------------------------
  // The detector

  /** `DetectionResult`; the suggestion list is never filled. */
  datatype DetectionResult = DetectionResult(issues: seq<Issue>, suggestions: seq<map<string, string>>)

  function Detected(text: string): seq<Issue> {
    TableIssues(text, TypoCorrections, TypoIssue) + PunctuationIssues(text, |text|)
    + TableIssues(text, Colloquialisms, StyleIssue)
  }

  /** `detect_issues`: typos, then punctuation, then style. */
  method DetectIssues(text: string) returns (r: DetectionResult)
    ensures r.issues == Detected(text) && r.suggestions == []
  {
    var typos := DetectTypos(text);
    var punctuation := DetectPunctuationErrors(text);
    var style := DetectStyleErrors(text);
    r := DetectionResult(typos + punctuation + style, []);
  }

  /** A TYPO issue is reported exactly for each typo key in the text. */
  lemma DetectedTypos(text: string)
    ensures forall k | 0 <= k < |TypoCorrections| ::
              TypoIssue(TypoCorrections[k]) in Detected(text) <==> Contains(text, TypoCorrections[k].0)
  {
    var typos := TableIssues(text, TypoCorrections, TypoIssue);
    var rest := PunctuationIssues(text, |text|) + TableIssues(text, Colloquialisms, StyleIssue);
    assert Detected(text) == typos + rest;
    TableIssuesMeaning(text, TypoCorrections, TypoIssue);
    TypoIssuesDistinct();
    PunctuationIssuesMeaning(text, |text|);
    TableIssuesMeaning(text, Colloquialisms, StyleIssue);
    assert forall x | x in rest :: x.code != "TYPO";
  }

  /** A STYLE issue is reported exactly for each colloquialism in the
      text. */
  lemma DetectedStyle(text: string)
    ensures forall k | 0 <= k < |Colloquialisms| ::
              StyleIssue(Colloquialisms[k]) in Detected(text) <==> Contains(text, Colloquialisms[k].0)
  {
    var style := TableIssues(text, Colloquialisms, StyleIssue);
    var rest := TableIssues(text, TypoCorrections, TypoIssue) + PunctuationIssues(text, |text|);
    assert Detected(text) == rest + style;
    TableIssuesMeaning(text, Colloquialisms, StyleIssue);
    StyleIssuesDistinct();
    PunctuationIssuesMeaning(text, |text|);
    TableIssuesMeaning(text, TypoCorrections, TypoIssue);
    assert forall x | x in rest :: x.code != "STYLE";
  }

  /** The detector reports nothing but its three kinds of issue. */
  lemma DetectedCodes(text: string)
    ensures forall x | x in Detected(text) :: x.code in {"TYPO", "PUNCTUATION", "STYLE"}
  {
    TableIssuesMeaning(text, TypoCorrections, TypoIssue);
    TableIssuesMeaning(text, Colloquialisms, StyleIssue);
    PunctuationIssuesMeaning(text, |text|);
  }

  /** Every flagged position is reported, as its mark with the fullwidth
      suggestion. */
  lemma DetectedPunctuation(text: string)
    ensures forall i | 0 <= i < |text| && Flagged(text, i) :: PunctuationIssue(text[i]) in Detected(text)
  {
    PunctuationIssuesMeaning(text, |text|);
  }

  lemma TypoIssuesDistinct()
    ensures forall j, k | 0 <= j < |TypoCorrections| && 0 <= k < |TypoCorrections| && j != k ::
              TypoIssue(TypoCorrections[j]) != TypoIssue(TypoCorrections[k])
  {
  }

  lemma StyleIssuesDistinct()
    ensures forall j, k | 0 <= j < |Colloquialisms| && 0 <= k < |Colloquialisms| && j != k ::
              StyleIssue(Colloquialisms[j]) != StyleIssue(Colloquialisms[k])
  {
  }

  /** "听闻" is its own correction: its issue suggests the snippet back. */
  lemma SelfCorrection()
    ensures TypoIssue(TypoCorrections[3]).suggestion == TypoIssue(TypoCorrections[3]).originalSnippet == "听闻"
  {
  }

  /** The typo example: "份量" in the sentence is reported. */
  lemma TypoExample()
    ensures TypoIssue(("份量", "分量")) in Detected("实验的黏度测量结果显示，份量配比较之前有所改进。")
  {
    var text := "实验的黏度测量结果显示，份量配比较之前有所改进。";
    assert OccursAt(text, "份量", 12);
    DetectedTypos(text);
    assert TypoCorrections[1] == ("份量", "分量");
  }

  /** The style example: both "听说" and "特别好" are reported. */
  lemma StyleExample()
    ensures StyleIssue(("听说", "据报道")) in Detected("这个算法听说效果特别好。")
    ensures StyleIssue(("特别好", "具有显著优势")) in Detected("这个算法听说效果特别好。")
  {
    var text := "这个算法听说效果特别好。";
    assert OccursAt(text, "听说", 4);
    assert text[8..11] == "特别好";
    assert OccursAt(text, "特别好", 8);
    TableIssuesMeaning(text, Colloquialisms, StyleIssue);
    assert Colloquialisms[0] == ("听说", "据报道");
    assert Colloquialisms[2] == ("特别好", "具有显著优势");
  }
}
