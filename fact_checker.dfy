/** The reference checker of the inference service (`fact_checker.py`):
    the format check it falls back on without a language model, the
    listing of retrieved documents it puts into the prompt, the reading of
    the model's answer, and the one-result-per-reference loop. The field
    extraction (regular expressions), the vector search and the model call
    are outside the model: the extracted fields and the model's outcome
    are parameters. */
module FactChecker {
  import opened Wrappers
  import opened Text
  import opened Seqs
  import opened InferenceTypes

  /** The dictionary `_extract_reference_info` returns; a key it did not
      set is `None`. */
  datatype ReferenceInfo = ReferenceInfo(
    title: Option<string>,
    year: Option<string>,
    journal: Option<string>,
    authors: Option<string>)

  /** The `details` dictionary of a result, one shape per way of building it. */
  datatype Details =
    | FormatOnly(note: string)
    | ModelExplanation(explanation: string)
    | RawAnalysis(analysis: string)
    | ApiFailure
    | CheckError(error: string)

  /** `ReferenceCheckResult`. */
  datatype CheckResult = CheckResult(isValid: bool, issues: seq<Issue>, confidence: real, details: Details)

  // ---------------------------------------------------------------------
  // The format check

  datatype Field = Title | Year | Authors

  /** `not extracted_info.get(f)`: the key is absent or holds "". */
  predicate Missing(value: Option<string>) {
    value.None? || value.value == ""
  }

  function FieldValue(info: ReferenceInfo, f: Field): Option<string> {
    match f
    case Title => info.title
    case Year => info.year
    case Authors => info.authors
  }

  /** The issue raised for a missing field. */
  function MissingIssue(f: Field): Issue {
    match f
    case Title => Bare("MISSING_TITLE", "参考文献缺少标题信息", Medium)
    case Year => Bare("MISSING_YEAR", "参考文献缺少年份信息", Low)
    case Authors => Bare("MISSING_AUTHORS", "参考文献缺少作者信息", Medium)
  }

  /** The fields in the order they are checked. */
  const CheckedFields: seq<Field> := [Title, Year, Authors]

  function Rank(f: Field): nat {
    match f
    case Title => 0
    case Year => 1
    case Authors => 2
  }

  function IssueIfMissing(info: ReferenceInfo): Field -> seq<Issue> {
    (f: Field) => if Missing(FieldValue(info, f)) then [MissingIssue(f)] else []
  }

  const FormatNote := "由于缺少LLM支持，仅进行了格式检查"

  /** What `_simple_analysis` returns. */
  function SimpleResult(info: ReferenceInfo): CheckResult {
    var issues := ConcatMap(CheckedFields, IssueIfMissing(info));
    CheckResult(|issues| == 0, issues, if |issues| == 0 then 0.5 else 0.2, FormatOnly(FormatNote))
  }

  lemma MissingIssuesUnfold(info: ReferenceInfo)
    ensures ConcatMap(CheckedFields, IssueIfMissing(info)) ==
      IssueIfMissing(info)(Title) + IssueIfMissing(info)(Year) + IssueIfMissing(info)(Authors)
  {
    var f := IssueIfMissing(info);
    assert CheckedFields[..2][..1] == [Title];
    assert CheckedFields[..2] == [Title] + [Year];
    assert CheckedFields == [Title, Year] + [Authors];
    ConcatMapSnoc([], Title, f);
    ConcatMapSnoc([Title], Year, f);
    ConcatMapSnoc([Title, Year], Authors, f);
  }

  /** The issue names the field it is about. */
  lemma MissingIssueInjective(f: Field, g: Field)
    ensures MissingIssue(f) == MissingIssue(g) <==> f == g
  {
  }

  /** The format check raises one issue per missing field and no other. */
  lemma SimpleResultIssues(info: ReferenceInfo)
    ensures forall f: Field :: MissingIssue(f) in SimpleResult(info).issues <==> Missing(FieldValue(info, f))
    ensures forall k | 0 <= k < |SimpleResult(info).issues| ::
              exists f: Field :: SimpleResult(info).issues[k] == MissingIssue(f)
  {
    MissingIssuesUnfold(info);
    var t := IssueIfMissing(info);
    var issues := SimpleResult(info).issues;
    assert issues == t(Title) + t(Year) + t(Authors);
    forall f: Field ensures MissingIssue(f) in issues <==> Missing(FieldValue(info, f)) {
      forall g: Field ensures MissingIssue(f) in t(g) <==> f == g && Missing(FieldValue(info, f)) {
        MissingIssueInjective(f, g);
      }
    }
    forall k | 0 <= k < |issues| ensures exists f: Field :: issues[k] == MissingIssue(f) {
      assert issues[k] in t(Title) || issues[k] in t(Year) || issues[k] in t(Authors);
    }
  }

  /** The issues come in the order title, year, authors. */
  lemma SimpleResultOrder(info: ReferenceInfo)
    ensures forall i, j, f, g | 0 <= i < j < |SimpleResult(info).issues| &&
              SimpleResult(info).issues[i] == MissingIssue(f) && SimpleResult(info).issues[j] == MissingIssue(g) ::
              Rank(f) < Rank(g)
  {
    MissingIssuesUnfold(info);
    var t := IssueIfMissing(info);
    var a, b, c := t(Title), t(Year), t(Authors);
    var issues := SimpleResult(info).issues;
    assert issues == a + b + c;
    forall i, j, f, g | 0 <= i < j < |issues| && issues[i] == MissingIssue(f) && issues[j] == MissingIssue(g)
      ensures Rank(f) < Rank(g)
    {
      var fi := if i < |a| then Title else if i < |a| + |b| then Year else Authors;
      var gj := if j < |a| then Title else if j < |a| + |b| then Year else Authors;
      assert issues[i] == MissingIssue(fi);
      assert issues[j] == MissingIssue(gj);
      MissingIssueInjective(f, fi);
      MissingIssueInjective(g, gj);
    }
  }

  /** The reference counts as valid exactly when nothing is missing, with
      confidence 0.5, and otherwise gets confidence 0.2. */
  lemma SimpleResultValid(info: ReferenceInfo)
    ensures SimpleResult(info).isValid <==>
              !Missing(info.title) && !Missing(info.year) && !Missing(info.authors)
    ensures SimpleResult(info).confidence == if SimpleResult(info).isValid then 0.5 else 0.2
  {
    MissingIssuesUnfold(info);
  }

  /** `_simple_analysis`: three checks, each appending its issue. */
  method SimpleAnalysis(info: ReferenceInfo) returns (r: CheckResult)
    ensures r == SimpleResult(info)
  {
    MissingIssuesUnfold(info);
    var issues: seq<Issue> := [];
    if Missing(info.title) {
      issues := issues + [MissingIssue(Title)];
    }
    if Missing(info.year) {
      issues := issues + [MissingIssue(Year)];
    }
    if Missing(info.authors) {
      issues := issues + [MissingIssue(Authors)];
    }
    r := CheckResult(|issues| == 0, issues, if |issues| == 0 then 0.5 else 0.2, FormatOnly(FormatNote));
  }

  // ---------------------------------------------------------------------
  // The retrieved documents in the prompt

  /** A retrieved document dictionary; a missing key is `None`. */
  datatype RetrievedDoc = RetrievedDoc(title: Option<string>, year: Option<string>, authors: Option<seq<string>>)

  const NothingRetrieved := "未检索到相关文献"

  /** The author list joined by ", ", or the placeholder when the key is
      missing or the list is empty. */
  function AuthorsText(d: RetrievedDoc): string {
    if d.authors.Some? && d.authors.value != [] then Join(d.authors.value, ", ") else "Unknown Authors"
  }

  /** `- {title} ({year}) by {authors}`, with placeholders for missing keys. */
  function DocLine(d: RetrievedDoc): string {
    "- " + d.title.GetOr("Unknown Title") + " (" + d.year.GetOr("Unknown Year") + ") by " + AuthorsText(d)
  }

  /** The documents the prompt lists: at most the first five. */
  function Listed(docs: seq<RetrievedDoc>): (r: seq<RetrievedDoc>)
    ensures |r| == if |docs| < 5 then |docs| else 5
    ensures r == docs[..|r|]
  {
    if |docs| < 5 then docs else docs[..5]
  }

  function DocLines(docs: seq<RetrievedDoc>): seq<string> {
    seq(|docs|, k requires 0 <= k < |docs| => DocLine(docs[k]))
  }

  /** The `retrieved_docs` value of the prompt. */
  function RetrievedText(docs: seq<RetrievedDoc>): string {
    if docs == [] then NothingRetrieved else Join(DocLines(Listed(docs)), "\n")
  }

  function Newline(): char -> bool {
    (c: char) => c == '\n'
  }

  /** Splitting the listing at line breaks gives one line per listed
      document, in order, provided no rendered line holds a line break. */
  lemma RetrievedTextLines(docs: seq<RetrievedDoc>)
    requires docs != []
    requires forall k | 0 <= k < |Listed(docs)| :: NoSeparator(DocLine(Listed(docs)[k]), Newline())
    ensures Pieces(RetrievedText(docs), Newline()) == DocLines(Listed(docs))
    ensures |Pieces(RetrievedText(docs), Newline())| == if |docs| < 5 then |docs| else 5
    ensures forall k | 0 <= k < |Pieces(RetrievedText(docs), Newline())| ::
              Pieces(RetrievedText(docs), Newline())[k] == DocLine(docs[k])
  {
    var lines := DocLines(Listed(docs));
    assert "\n" == ['\n'];
    PiecesJoin(lines, '\n', Newline());
  }

  /** A joined listing starts with its first part. */
  lemma JoinHead(parts: seq<string>, sep: string)
    requires parts != [] && parts[0] != ""
    ensures Join(parts, sep) != "" && Join(parts, sep)[0] == parts[0][0]
  {
  }

  /** The placeholder text appears exactly when nothing was retrieved:
      every listed line starts with "- ". */
  lemma RetrievedTextEmpty(docs: seq<RetrievedDoc>)
    ensures RetrievedText(docs) == NothingRetrieved <==> docs == []
  {
    if docs != [] {
      var lines := DocLines(Listed(docs));
      assert lines[0] == DocLine(docs[0]);
      assert lines[0][0] == '-';
      JoinHead(lines, "\n");
      assert NothingRetrieved[0] != '-';
    }
  }

  /** Documents after the fifth never reach the prompt. */
  lemma RetrievedTextFirstFive(docs: seq<RetrievedDoc>, more: seq<RetrievedDoc>)
    requires |docs| >= 5
    ensures RetrievedText(docs + more) == RetrievedText(docs)
  {
    assert (docs + more)[..5] == docs[..5];
  }

  /** A document with no keys renders with all three placeholders. */
  lemma PlaceholderLine()
    ensures RetrievedText([RetrievedDoc(None, None, None)]) ==
              "- " + "Unknown Title" + " (" + "Unknown Year" + ") by " + "Unknown Authors"
  {
    var d := RetrievedDoc(None, None, None);
    assert Listed([d]) == [d];
    assert AuthorsText(d) == "Unknown Authors";
    assert DocLines([d]) == [DocLine(d)];
  }

  // ---------------------------------------------------------------------
  // Reading the model's answer

  /** One entry of the answer's `issues` list; a missing key is `None`. */
  datatype AnswerItem = AnswerItem(kind: Option<string>, description: Option<string>, severity: Option<string>)

  /** The object decoded from the answer; a missing key is `None`. */
  datatype Answer = Answer(
    isValid: Option<bool>,
    confidence: Option<real>,
    issues: Option<seq<AnswerItem>>,
    explanation: Option<string>)

  function ItemIssue(item: AnswerItem): Issue {
    Bare(item.kind.GetOr("UNKNOWN"), item.description.GetOr(""), NamedSeverity(item.severity.GetOr("MEDIUM")))
  }

  const ParsingError := Bare("PARSING_ERROR", "无法解析文献真实性检查结果", Low)

  /** `_parse_fact_check_result`, where `answer` is `None` when the text
      holds no `{...}` block or the block does not decode. */
  function ParseFactCheck(analysis: string, answer: Option<Answer>): CheckResult {
    match answer
    case None => CheckResult(false, [ParsingError], 0.0, RawAnalysis(analysis))
    case Some(data) =>
      var items := data.issues.GetOr([]);
      CheckResult(
        data.isValid.GetOr(false),
        seq(|items|, k requires 0 <= k < |items| => ItemIssue(items[k])),
        data.confidence.GetOr(0.0),
        ModelExplanation(data.explanation.GetOr("")))
  }

  /** A named severity keeps its level; a missing one is MEDIUM and so is
      any other name. A missing type reads as UNKNOWN. */
  lemma ItemIssueSeverity(item: AnswerItem)
    ensures ItemIssue(item).severity == High <==> item.severity == Some("HIGH")
    ensures ItemIssue(item).severity == Low <==> item.severity == Some("LOW")
    ensures ItemIssue(item).severity == Medium <==> item.severity != Some("HIGH") && item.severity != Some("LOW")
    ensures ItemIssue(item).severity != Critical
    ensures item.kind.None? ==> ItemIssue(item).code == "UNKNOWN"
  {
  }

  /** An unreadable answer is one LOW parsing error, never valid, with
      confidence 0 and the raw text kept; a readable one gives one issue
      per listed item, in order, is valid only when it says so, and is
      never a parsing error unless the model named one. */
  lemma ParseFactCheckMeaning(analysis: string, answer: Option<Answer>)
    ensures answer.None? ==>
              !ParseFactCheck(analysis, answer).isValid &&
              ParseFactCheck(analysis, answer).issues == [ParsingError] &&
              ParseFactCheck(analysis, answer).confidence == 0.0 &&
              ParseFactCheck(analysis, answer).details == RawAnalysis(analysis)
    ensures answer.Some? ==>
              |ParseFactCheck(analysis, answer).issues| == |answer.value.issues.GetOr([])| &&
              (forall k | 0 <= k < |answer.value.issues.GetOr([])| ::
                 ParseFactCheck(analysis, answer).issues[k] == ItemIssue(answer.value.issues.value[k])) &&
              (ParseFactCheck(analysis, answer).isValid <==> answer.value.isValid == Some(true))
    ensures ParseFactCheck(analysis, answer).isValid ==> answer.Some?
  {
  }

  // ---------------------------------------------------------------------
  // Checking references

  /** What the model call ends in: an exception with its text, a status
      other than 200, or a reply together with the object decoded from it. */
  datatype Outcome = Threw(error: string) | BadStatus | Replied(analysis: string, answer: Option<Answer>)

  /** `_retrieve_similar_documents`: every path through it returns an
      empty list (the search itself is not implemented). */
  const NoDocuments: seq<RetrievedDoc> := []

  /** `_analyze_with_llm`, with `ask` standing for the model call on the
      prompt built from the reference and the retrieved listing. */
  function AnalyzeWithLlm(reference: string, docs: seq<RetrievedDoc>, ask: (string, string) -> Outcome): CheckResult {
    match ask(reference, RetrievedText(docs))
    case Threw(e) =>
      CheckResult(false, [Bare("FACT_CHECK_ERROR", "文献真实性检查出错: " + e, High)], 0.0, CheckError(e))
    case BadStatus => CheckResult(false, [], 0.0, ApiFailure)
    case Replied(analysis, answer) => ParseFactCheck(analysis, answer)
  }

  /** `_check_single_reference`: with a model (the SDK is installed and a
      key is set) the reference is judged by it, else by its format. */
  function SingleResult(reference: string, extract: string -> ReferenceInfo, modelAvailable: bool,
                        ask: (string, string) -> Outcome): CheckResult
  {
    if modelAvailable then AnalyzeWithLlm(reference, NoDocuments, ask) else SimpleResult(extract(reference))
  }

  /** Without a model a reference is valid exactly when its title, year
      and authors were all found; with one, the prompt always says that
      nothing was retrieved, a failed call is never valid, and a valid
      result needs a decoded answer that says so. */
  lemma SingleResultMeaning(reference: string, extract: string -> ReferenceInfo, modelAvailable: bool,
                            ask: (string, string) -> Outcome)
    ensures !modelAvailable ==>
              (SingleResult(reference, extract, modelAvailable, ask).isValid <==>
               !Missing(extract(reference).title) && !Missing(extract(reference).year) &&
               !Missing(extract(reference).authors))
    ensures modelAvailable && !ask(reference, NothingRetrieved).Replied? ==>
              !SingleResult(reference, extract, modelAvailable, ask).isValid &&
              SingleResult(reference, extract, modelAvailable, ask).confidence == 0.0
    ensures modelAvailable && SingleResult(reference, extract, modelAvailable, ask).isValid ==>
              ask(reference, NothingRetrieved).Replied? &&
              ask(reference, NothingRetrieved).answer.Some? &&
              ask(reference, NothingRetrieved).answer.value.isValid == Some(true)
  {
    if modelAvailable {
      assert RetrievedText(NoDocuments) == NothingRetrieved;
      match ask(reference, NothingRetrieved)
      case Replied(analysis, answer) => ParseFactCheckMeaning(analysis, answer);
      case Threw(_) =>
      case BadStatus =>
    } else {
      SimpleResultValid(extract(reference));
    }
  }

  /** `_check_single_reference`, calling the format check as a method. */
  method CheckSingleReference(reference: string, extract: string -> ReferenceInfo, modelAvailable: bool,
                              ask: (string, string) -> Outcome)
    returns (r: CheckResult)
    ensures r == SingleResult(reference, extract, modelAvailable, ask)
  {
    var info := extract(reference);
    var docs := NoDocuments;
    if modelAvailable {
      r := AnalyzeWithLlm(reference, docs, ask);
    } else {
      r := SimpleAnalysis(info);
    }
  }

  /** `check_references`: one result per reference, in input order. */
  method CheckReferences(references: seq<string>, extract: string -> ReferenceInfo, modelAvailable: bool,
                         ask: (string, string) -> Outcome)
    returns (results: seq<CheckResult>)
    ensures |results| == |references|
    ensures forall k | 0 <= k < |references| ::
              results[k] == SingleResult(references[k], extract, modelAvailable, ask)
  {
    results := [];
    for i := 0 to |references|
      invariant |results| == i
      invariant forall k | 0 <= k < i :: results[k] == SingleResult(references[k], extract, modelAvailable, ask)
    {
      var result := CheckSingleReference(references[i], extract, modelAvailable, ask);
      results := results + [result];
    }
  }
}
