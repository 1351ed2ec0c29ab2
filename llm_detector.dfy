/** The language-model detector's own logic (`llm_detector.py`): cutting a
    long text into sentence-aligned segments of bounded length, running
    the per-segment analysis over them, and mapping a reported numeric
    severity onto the `Severity` enum. The model call itself and the
    extraction of its JSON answer are outside the model: the analysis of a
    segment is a parameter, and the parsed JSON items are an input. */
module LlmDetector {
  import opened Wrappers
  import opened Text
  import opened Seqs
  import opened InferenceTypes

  // ---------------------------------------------------------------------
  // Sentences

  /** The delimiters of the capturing split `([。！？.!?])`. */
  predicate IsSentenceEnd(c: char) {
    c in "。！？.!?"
  }

  predicate NoSentenceEnd(s: string) {
    forall k | 0 <= k < |s| :: !IsSentenceEnd(s[k])
  }

  /** The sentences of `re.split` recombined pairwise: each delimiter
      closes a sentence, and whatever follows the last one (possibly
      nothing) is the last sentence. */
  function Sentences(text: string): (r: seq<string>)
    ensures |r| >= 1
    decreases |text|
  {
    if text == [] then [""]
    else
      var rest := Sentences(text[1..]);
      if IsSentenceEnd(text[0]) then [[text[0]]] + rest
      else [[text[0]] + rest[0]] + rest[1..]
  }

  /** The sentences spell the text. */
  lemma {:induction false} SentencesConcat(text: string)
    ensures Concat(Sentences(text)) == text
    decreases |text|
  {
    if text != [] {
      var rest := Sentences(text[1..]);
      SentencesConcat(text[1..]);
      assert text == [text[0]] + text[1..];
      if !IsSentenceEnd(text[0]) {
        assert Concat(rest) == rest[0] + Concat(rest[1..]);
        assert Concat([[text[0]] + rest[0]] + rest[1..]) == [text[0]] + rest[0] + Concat(rest[1..]);
      }
    }
  }

  /** A sentence closed by its delimiter, with no other delimiter in it. */
  predicate Closed(s: string) {
    s != "" && IsSentenceEnd(s[|s| - 1]) && NoSentenceEnd(s[..|s| - 1])
  }

  /** Every sentence but the last ends with its delimiter and has no other;
      the last has none. */
  lemma {:induction false} SentencesShape(text: string)
    ensures forall k | 0 <= k < |Sentences(text)| - 1 :: Closed(Sentences(text)[k])
    ensures NoSentenceEnd(Sentences(text)[|Sentences(text)| - 1])
    decreases |text|
  {
    if text != [] {
      var rest := Sentences(text[1..]);
      SentencesShape(text[1..]);
      var r := Sentences(text);
      if IsSentenceEnd(text[0]) {
        assert r == [[text[0]]] + rest;
        assert Closed([text[0]]);
        assert forall k | 1 <= k < |r| :: r[k] == rest[k - 1];
      } else {
        var first := [text[0]] + rest[0];
        assert r == [first] + rest[1..];
        assert forall k | 1 <= k < |r| :: r[k] == rest[k];
        if |rest| > 1 {
          assert Closed(rest[0]);
          var body := first[..|first| - 1];
          assert body == [text[0]] + rest[0][..|rest[0]| - 1];
          assert first[|first| - 1] == rest[0][|rest[0]| - 1];
          assert Closed(first);
        } else {
          assert NoSentenceEnd(rest[0]);
          assert NoSentenceEnd(first);
        }
      }
    }
  }

  // ---------------------------------------------------------------------
  // Greedy packing

  /** The loop state: the segments emitted so far and the one being
      filled. */
  datatype Packing = Packing(segments: seq<string>, current: string)

  /** One sentence: appended when the result still fits, otherwise the
      current segment (when non-empty) is emitted and the sentence starts
      the next one. */
  function PackStep(p: Packing, sentence: string, maxLength: int): Packing {
    if |p.current + sentence| <= maxLength then Packing(p.segments, p.current + sentence)
    else Packing(if p.current != "" then p.segments + [p.current] else p.segments, sentence)
  }

  function PackAll(sentences: seq<string>, maxLength: int): Packing {
    if sentences == [] then Packing([], "")
    else PackStep(PackAll(sentences[..|sentences| - 1], maxLength), sentences[|sentences| - 1], maxLength)
  }

  /** After the loop: a non-empty last segment is emitted too. */
  function Finish(p: Packing): seq<string> {
    if p.current != "" then p.segments + [p.current] else p.segments
  }

  function Segments(text: string, maxLength: int): seq<string> {
    Finish(PackAll(Sentences(text), maxLength))
  }

  /** The pieces spell the sentences read so far. */
  predicate Spells(p: Packing, sentences: seq<string>) {
    Concat(p.segments) + p.current == Concat(sentences)
  }

  predicate NoEmptySegment(segments: seq<string>) {
    forall k | 0 <= k < |segments| :: segments[k] != ""
  }

  /** A piece longer than the limit is a single sentence. */
  predicate OversizeIsSentence(p: Packing, sentences: seq<string>, maxLength: int) {
    && (forall k | 0 <= k < |p.segments| :: |p.segments[k]| <= maxLength || p.segments[k] in sentences)
    && (p.current == "" || |p.current| <= maxLength || p.current in sentences)
  }

  /** No two neighbours, counting the current piece, would have fit
      together. */
  predicate Tight(p: Packing, maxLength: int) {
    && (forall k | 0 <= k < |p.segments| - 1 :: |p.segments[k]| + |p.segments[k + 1]| > maxLength)
    && (p.segments != [] ==> |p.segments[|p.segments| - 1]| + |p.current| > maxLength)
  }

  /** What the packing keeps true. */
  predicate Packed(p: Packing, sentences: seq<string>, maxLength: int) {
    Spells(p, sentences) && NoEmptySegment(p.segments) &&
    OversizeIsSentence(p, sentences, maxLength) && Tight(p, maxLength)
  }

  lemma {:induction false} PackAllPacked(sentences: seq<string>, maxLength: int)
    ensures Packed(PackAll(sentences, maxLength), sentences, maxLength)
  {
    if sentences != [] {
      var init := sentences[..|sentences| - 1];
      var s := sentences[|sentences| - 1];
      PackAllPacked(init, maxLength);
      assert sentences == init + [s];
      var p := PackAll(init, maxLength);
      PackStepSpells(p, init, s, maxLength);
      PackStepOversize(p, init, s, maxLength);
      PackStepTight(p, s, maxLength);
      var q := PackStep(p, s, maxLength);
      assert forall k | 0 <= k < |p.segments| :: q.segments[k] == p.segments[k];
    } else {
      assert Concat(sentences) + "" == Concat(sentences);
    }
  }

  lemma PackStepSpells(p: Packing, init: seq<string>, s: string, maxLength: int)
    requires Spells(p, init)
    ensures Spells(PackStep(p, s, maxLength), init + [s])
  {
    ConcatAppend(init, s);
    if |p.current + s| > maxLength && p.current != "" {
      ConcatAppend(p.segments, p.current);
    }
  }

  lemma PackStepOversize(p: Packing, init: seq<string>, s: string, maxLength: int)
    requires OversizeIsSentence(p, init, maxLength)
    ensures OversizeIsSentence(PackStep(p, s, maxLength), init + [s], maxLength)
  {
    assert forall x | x in init :: x in init + [s];
    assert s in init + [s];
  }

  lemma PackStepTight(p: Packing, s: string, maxLength: int)
    requires Tight(p, maxLength)
    ensures Tight(PackStep(p, s, maxLength), maxLength)
  {
    var q := PackStep(p, s, maxLength);
    if |p.current + s| > maxLength && p.current != "" {
      assert q.segments == p.segments + [p.current];
      forall k | 0 <= k < |q.segments| - 1
        ensures |q.segments[k]| + |q.segments[k + 1]| > maxLength
      {
        if k == |q.segments| - 2 {
          assert q.segments[k] == p.segments[|p.segments| - 1];
        } else {
          assert q.segments[k] == p.segments[k] && q.segments[k + 1] == p.segments[k + 1];
        }
      }
    }
  }

  /** The segments spell the text exactly; none is empty; one longer than
      the limit is a single sentence; and no two neighbours would have fit
      together within the limit. */
  lemma SegmentsMeaning(text: string, maxLength: int)
    ensures Concat(Segments(text, maxLength)) == text
    ensures forall k | 0 <= k < |Segments(text, maxLength)| :: Segments(text, maxLength)[k] != ""
    ensures forall k | 0 <= k < |Segments(text, maxLength)| && |Segments(text, maxLength)[k]| > maxLength ::
              Segments(text, maxLength)[k] in Sentences(text)
    ensures forall k | 0 <= k < |Segments(text, maxLength)| - 1 ::
              |Segments(text, maxLength)[k]| + |Segments(text, maxLength)[k + 1]| > maxLength
  {
    var ss := Sentences(text);
    var p := PackAll(ss, maxLength);
    PackAllPacked(ss, maxLength);
    SentencesConcat(text);
    if p.current != "" {
      ConcatAppend(p.segments, p.current);
      var r := p.segments + [p.current];
      forall k | 0 <= k < |r| - 1
        ensures |r[k]| + |r[k + 1]| > maxLength
      {
        if k == |r| - 2 {
          assert r[k] == p.segments[|p.segments| - 1];
        }
      }
    } else {
      assert Concat(p.segments) + "" == Concat(p.segments);
    }
  }

  /** `_split_text`: the sentences packed in one pass. */
  method SplitText(text: string, maxLength: int) returns (segments: seq<string>)
    ensures segments == Segments(text, maxLength)
  {
    var sentences := Sentences(text);
    segments := [];
    var current := "";
    var i := 0;
    while i < |sentences|
      invariant 0 <= i <= |sentences|
      invariant Packing(segments, current) == PackAll(sentences[..i], maxLength)
    {
      assert sentences[..i + 1][..i] == sentences[..i];
      var sentence := sentences[i];
      if |current + sentence| <= maxLength {
        current := current + sentence;
      } else {
        if current != "" {
          segments := segments + [current];
        }
        current := sentence;
      }
      i := i + 1;
    }
    assert sentences[..i] == sentences;
    if current != "" {
      segments := segments + [current];
    }
  }

  /** One step of the sentence split: a delimiter closes a sentence of its
      own, any other character opens the first sentence of the rest. */
  lemma SentencesCons(c: char, s: string)
    ensures Sentences([c] + s) ==
      if IsSentenceEnd(c) then [[c]] + Sentences(s)
      else [[c] + Sentences(s)[0]] + Sentences(s)[1..]
  {
    assert ([c] + s)[1..] == s;
  }

  /** Text after the last delimiter stays one sentence. */
  lemma SentencesTailExample()
    ensures Sentences("b!c") == ["b!", "c"]
  {
    assert !IsSentenceEnd('b') && !IsSentenceEnd('c') && IsSentenceEnd('!');
    SentencesCons('c', "");
    assert Sentences("c") == ["c"] by { assert "c" == ['c'] + ""; }
    SentencesCons('!', "c");
    assert Sentences("!c") == ["!", "c"] by { assert "!c" == ['!'] + "c"; }
    SentencesCons('b', "!c");
    assert "b!c" == ['b'] + "!c";
    assert "b!" == ['b'] + "!";
  }

  /** Each delimiter closes the sentence it ends. */
  lemma SentencesExample()
    ensures Sentences("a.b!c") == ["a.", "b!", "c"]
  {
    assert !IsSentenceEnd('a') && IsSentenceEnd('.');
    SentencesTailExample();
    SentencesCons('.', "b!c");
    assert Sentences(".b!c") == [".", "b!", "c"] by { assert ".b!c" == ['.'] + "b!c"; }
    SentencesCons('a', ".b!c");
    assert "a.b!c" == ['a'] + ".b!c";
    assert "a." == ['a'] + ".";
  }

  /** Three sentences under a limit of three characters: the second does
      not fit beside the first, the third fits beside the second. */
  lemma SegmentsExample()
    ensures Segments("a.b!c", 3) == ["a.", "b!c"]
  {
    SentencesExample();
    var ss := Sentences("a.b!c");
    assert PackAll(ss[..1], 3) == Packing([], "a.");
    assert PackAll(ss[..2], 3) == Packing(["a."], "b!");
    assert PackAll(ss, 3) == Packing(["a."], "b!c");
  }

  // ---------------------------------------------------------------------
  // Severity

  /** One element of the answer's `issues` array; absent keys are `None`.
      The numeric severity is an integer on the 1-5 scale the prompt asks
      for. */
  datatype LlmItem = LlmItem(kind: Option<string>, reason: Option<string>, original: Option<string>,
                             suggested: Option<string>, severity: Option<int>)

  /** The threshold chain on the numeric severity. */
  function SeverityOf(value: int): (r: Severity)
    ensures r == Critical <==> value >= 4
    ensures r == High <==> value == 3
    ensures r == Medium <==> value == 2
    ensures r == Low <==> value <= 1
  {
    if value >= 4 then Critical
    else if value >= 3 then High
    else if value >= 2 then Medium
    else Low
  }

  /** The severity implied by the issue type, which the numeric severity
      then replaces. */
  function TypeSeverity(kind: string): Severity {
    if kind == "TYPO" then Medium
    else if kind == "PUNCTUATION" then Low
    else if kind == "STYLE" then Medium
    else if kind == "SEMANTIC" then High
    else Low
  }

  /** One parsed item as an issue: missing fields default; the severity
      first set from the type is then overwritten from the number (3 when
      absent). */
  function ItemIssue(item: LlmItem): (r: Issue)
    ensures r.code == item.kind.GetOr("UNKNOWN") && r.message == item.reason.GetOr("")
    ensures r.originalSnippet == item.original.GetOr("") && r.suggestion == item.suggested.GetOr("")
    ensures r.severity == SeverityOf(item.severity.GetOr(3))
  {
    var issue := Issue(item.kind.GetOr("UNKNOWN"), item.reason.GetOr(""), item.original.GetOr(""),
                       item.suggested.GetOr(""), TypeSeverity(item.kind.GetOr("")), 0);
    issue.(severity := SeverityOf(item.severity.GetOr(3)))
  }

  /** The type never decides the severity: a missing number gives HIGH
      whatever the type, and two items that differ only in type get the
      same severity. */
  lemma SeverityIgnoresType(item: LlmItem, kind: Option<string>)
    ensures item.severity.None? ==> ItemIssue(item).severity == High
    ensures ItemIssue(item.(kind := kind)).severity == ItemIssue(item).severity
    ensures TypeSeverity("SEMANTIC") == High && ItemIssue(LlmItem(Some("SEMANTIC"), None, None, None, Some(1))).severity == Low
  {
  }

  /** `_parse_llm_response` after the JSON has been read: no usable
      answer gives no issues, otherwise one issue per item, in order. */
  method ParseLlmResponse(items: Option<seq<LlmItem>>) returns (issues: seq<Issue>)
    ensures items.None? ==> issues == []
    ensures items.Some? ==> |issues| == |items.value|
    ensures items.Some? ==> forall k | 0 <= k < |issues| :: issues[k] == ItemIssue(items.value[k])
  {
    issues := [];
    if items.Some? {
      var all := items.value;
      var i := 0;
      while i < |all|
        invariant 0 <= i <= |all|
        invariant |issues| == i
        invariant forall k | 0 <= k < i :: issues[k] == ItemIssue(all[k])
      {
        issues := issues + [ItemIssue(all[i])];
        i := i + 1;
      }
    }
  }

  // ---------------------------------------------------------------------
  // The detector

  datatype AnalysisResult = AnalysisResult(issues: seq<Issue>, rawResponse: string)

  function IssuesOf(r: AnalysisResult): seq<Issue> {
    r.issues
  }

  function ResponseOf(r: AnalysisResult): string {
    r.rawResponse
  }

  /** `detect_semantic_errors`, given whether the SDK is installed, the
      key, and the analysis of one segment. */
  function SemanticErrors(sdk: bool, apiKey: Option<string>, text: string, maxLength: int,
                          analyze: string -> AnalysisResult): AnalysisResult
  {
    if !sdk then AnalysisResult([], "DashScope SDK not available")
    else if apiKey.None? || apiKey.value == "" then AnalysisResult([], "API Key not provided")
    else if |text| > maxLength then
      var results := Mapped(Segments(text, maxLength), analyze);
      AnalysisResult(ConcatMap(results, IssuesOf), Join(Mapped(results, ResponseOf), "\n"))
    else analyze(text)
  }

  function Mapped<A, B>(xs: seq<A>, f: A -> B): (r: seq<B>)
    ensures |r| == |xs| && forall k | 0 <= k < |xs| :: r[k] == f(xs[k])
  {
    seq(|xs|, k requires 0 <= k < |xs| => f(xs[k]))
  }

  /** The segment loop of `detect_semantic_errors`. */
  method DetectSemanticErrors(sdk: bool, apiKey: Option<string>, text: string, maxLength: int,
                              analyze: string -> AnalysisResult) returns (r: AnalysisResult)
    ensures r == SemanticErrors(sdk, apiKey, text, maxLength, analyze)
  {
    if !sdk {
      return AnalysisResult([], "DashScope SDK not available");
    }
    if apiKey.None? || apiKey.value == "" {
      return AnalysisResult([], "API Key not provided");
    }
    if |text| > maxLength {
      var segments := SplitText(text, maxLength);
      ghost var results := Mapped(segments, analyze);
      var allIssues: seq<Issue> := [];
      var allResponses: seq<string> := [];
      var i := 0;
      while i < |segments|
        invariant 0 <= i <= |segments|
        invariant allIssues == ConcatMap(results[..i], IssuesOf)
        invariant allResponses == Mapped(results[..i], ResponseOf)
      {
        var result := analyze(segments[i]);
        assert results[..i + 1] == results[..i] + [result];
        ConcatMapSnoc(results[..i], result, IssuesOf);
        allIssues := allIssues + result.issues;
        allResponses := allResponses + [result.rawResponse];
        i := i + 1;
      }
      assert results[..i] == results;
      return AnalysisResult(allIssues, Join(allResponses, "\n"));
    }
    r := analyze(text);
  }

  /** Without the SDK or a key nothing is reported; a short text is
      analysed whole; a long one segment by segment, each issue coming
      from the analysis of a segment, and the segments spelling the
      text. */
  lemma SemanticErrorsMeaning(sdk: bool, apiKey: Option<string>, text: string, maxLength: int,
                              analyze: string -> AnalysisResult)
    ensures !sdk || apiKey.None? || apiKey == Some("") ==> SemanticErrors(sdk, apiKey, text, maxLength, analyze).issues == []
    ensures sdk && apiKey.Some? && apiKey.value != "" && |text| <= maxLength ==>
              SemanticErrors(sdk, apiKey, text, maxLength, analyze) == analyze(text)
    ensures sdk && apiKey.Some? && apiKey.value != "" && |text| > maxLength ==>
              Concat(Segments(text, maxLength)) == text
              && forall x | x in SemanticErrors(sdk, apiKey, text, maxLength, analyze).issues ::
                   exists k | 0 <= k < |Segments(text, maxLength)| :: x in analyze(Segments(text, maxLength)[k]).issues
  {
    SegmentsMeaning(text, maxLength);
    var results := Mapped(Segments(text, maxLength), analyze);
    ConcatMapMembers(results, IssuesOf);
  }
}
