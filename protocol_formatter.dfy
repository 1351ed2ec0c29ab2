/** The output protocol (`protocol_formatter.rs`): parsed paragraphs become
    numbered sections, except inside the reference list, whose list
    paragraphs become numbered references. The reference list starts at
    a short "参考文献" heading in the last 30% of the document and ends at
    the next level-1 heading or closing keyword. */
module ProtocolFormatter {
  import opened Wrappers
  import opened Text

  /** A paragraph as the DOCX front end hands it over. Sizes are only
      copied, so their `f32` values are kept as reals. */
  datatype ParsedParagraph = ParsedParagraph(
    text: string,
    style: string,
    fontSizePt: real,
    fontName: Option<string>,
    firstLineIndentPt: Option<real>)

  datatype Properties = Properties(fontSize: real, fontName: Option<string>, firstLineIndent: Option<real>)

  datatype Section = Section(
    sectionId: nat,
    kind: string,
    text: string,
    level: Option<nat>,
    citations: seq<string>,
    properties: Properties)

  datatype Reference = Reference(refId: string, rawText: string)

  /** `global_style` is always the empty JSON object, so it is not stored. */
  datatype Metadata = Metadata(headers: seq<string>, footers: seq<string>)

  datatype OutputProtocol = OutputProtocol(
    docId: string,
    metadata: Metadata,
    sections: seq<Section>,
    references: seq<Reference>)

  // ---------------------------------------------------------------------
  // Citations: the matches of `\[\d+(?:[-,]\d+)*\]`

  predicate IsSeparator(c: char) {
    c == '-' || c == ','
  }

  /** `\d+(?:[-,]\d+)*`: digit runs separated by single `-` or `,`. */
  predicate CitationBody(b: string) {
    |b| >= 1 && IsAsciiDigit(b[0]) && IsAsciiDigit(b[|b| - 1])
    && (forall k | 0 <= k < |b| :: IsAsciiDigit(b[k]) || IsSeparator(b[k]))
    && (forall k | 0 <= k < |b| - 1 :: !(IsSeparator(b[k]) && IsSeparator(b[k + 1])))
  }

  /** A whole citation such as "[3]", "[1-4]" or "[2,5,7]". */
  predicate IsCitation(c: string) {
    |c| >= 3 && c[0] == '[' && c[|c| - 1] == ']' && CitationBody(c[1..|c| - 1])
  }

  /** The first ']' at or after `from`. */
  function CloseFrom(s: string, from: nat): (r: Option<nat>)
    requires from <= |s|
    ensures r.Some? ==> from <= r.value < |s| && s[r.value] == ']'
    ensures r.Some? ==> forall m | from <= m < r.value :: s[m] != ']'
    decreases |s| - from
  {
    if from == |s| then None
    else if s[from] == ']' then Some(from)
    else CloseFrom(s, from + 1)
  }

  /** The end of the citation that starts at `i`, if one does. A citation
      holds no ']', so it can only end at the first ']' after its '['. */
  function MatchEnd(s: string, i: nat): (r: Option<nat>)
    requires i < |s|
    ensures r.Some? ==> i < r.value <= |s| && IsCitation(s[i..r.value])
  {
    if s[i] != '[' then None
    else match CloseFrom(s, i + 1)
      case None => None
      case Some(j) =>
        if CitationBody(s[i + 1..j]) then
          assert s[i..j + 1][1..j - i] == s[i + 1..j];
          Some(j + 1)
        else None
  }

  /** `find_iter` from `from`: the leftmost citation, then the scan goes on
      after its end. */
  function CitationsFrom(s: string, from: nat): (r: seq<string>)
    requires from <= |s|
    ensures forall k | 0 <= k < |r| :: IsCitation(r[k])
    decreases |s| - from
  {
    if from == |s| then []
    else match MatchEnd(s, from)
      case Some(e) => [s[from..e]] + CitationsFrom(s, e)
      case None => CitationsFrom(s, from + 1)
  }

  function Citations(s: string): seq<string> {
    CitationsFrom(s, 0)
  }

  /** The scan reports the leftmost citation first: when none starts in
      `[from, i)` and one starts at `i`, it is the first reported and the
      scan resumes right after it. */
  lemma {:induction false} CitationsLeftmost(s: string, from: nat, i: nat)
    requires from <= i < |s| && MatchEnd(s, i).Some?
    requires forall m | from <= m < i :: MatchEnd(s, m).None?
    ensures CitationsFrom(s, from) == [s[i..MatchEnd(s, i).value]] + CitationsFrom(s, MatchEnd(s, i).value)
    decreases i - from
  {
    if from < i {
      CitationsLeftmost(s, from + 1, i);
    }
  }

  /** A text in which no citation starts has none. */
  lemma {:induction false} CitationsNone(s: string, from: nat)
    requires from <= |s|
    requires forall m | from <= m < |s| :: MatchEnd(s, m).None?
    ensures CitationsFrom(s, from) == []
    decreases |s| - from
  {
    if from < |s| {
      CitationsNone(s, from + 1);
    }
  }

  // ---------------------------------------------------------------------
  // Sections and references

  predicate IsHeadingStyle(style: string) {
    Contains(style, "Heading 1") || Contains(style, "Heading 2") || Contains(style, "标题1") || Contains(style, "标题2")
  }

  /** `create_section_from_paragraph`: a heading (level 2 when the style
      mentions "2", else 1) without citations, or a paragraph without a
      level carrying the citations of its text. */
  function CreateSection(p: ParsedParagraph, id: nat): (r: Section)
    ensures r.sectionId == id && r.text == p.text
    ensures r.properties == Properties(p.fontSizePt, p.fontName, p.firstLineIndentPt)
    ensures r.kind == "heading" <==> IsHeadingStyle(p.style)
    ensures r.level.Some? <==> IsHeadingStyle(p.style)
    ensures r.level.Some? ==> r.level.value in {1, 2} && r.citations == []
    ensures r.level.Some? ==> (r.level.value == 2 <==> Contains(p.style, "2"))
    ensures r.level.None? ==> r.kind == "paragraph" && r.citations == Citations(p.text)
    ensures forall k | 0 <= k < |r.citations| :: IsCitation(r.citations[k])
  {
    var properties := Properties(p.fontSizePt, p.fontName, p.firstLineIndentPt);
    if IsHeadingStyle(p.style) then
      Section(id, "heading", p.text, Some(if Contains(p.style, "2") then 2 else 1), [], properties)
    else
      Section(id, "paragraph", p.text, None, Citations(p.text), properties)
  }

  const EndKeywords: seq<string> := ["作者简介", "学位论文数据集", "致谢", "附录", "Acknowledgements"]

  /** `is_reference_section_end`. */
  predicate IsReferenceSectionEnd(text: string) {
    exists k | 0 <= k < |EndKeywords| :: Contains(text, EndKeywords[k])
  }

  /** A paragraph that can open the reference list, at index `i` of
      `total`. */
  predicate IsRefStart(p: ParsedParagraph, i: nat, total: nat) {
    Contains(p.text, "参考文献") && Utf8Len(p.text) <= 20
    && (Contains(p.style, "Heading 1") || Contains(p.style, "标题1"))
    && i > total * 7 / 10
  }

  function RefStartFrom(ps: seq<ParsedParagraph>, i: nat): (r: Option<nat>)
    requires i <= |ps|
    ensures r.Some? ==> i <= r.value < |ps| && IsRefStart(ps[r.value], r.value, |ps|)
    decreases |ps| - i
  {
    if i == |ps| then None
    else if IsRefStart(ps[i], i, |ps|) then Some(i)
    else RefStartFrom(ps, i + 1)
  }

  /** The index `find` returns: the first paragraph that can open the
      reference list. */
  function RefStart(ps: seq<ParsedParagraph>): (r: Option<nat>)
    ensures r.Some? ==> r.value < |ps| && IsRefStart(ps[r.value], r.value, |ps|)
  {
    RefStartFrom(ps, 0)
  }

  lemma {:induction false} RefStartFromMeaning(ps: seq<ParsedParagraph>, i: nat)
    requires i <= |ps|
    ensures RefStartFrom(ps, i).None? <==> forall j | i <= j < |ps| :: !IsRefStart(ps[j], j, |ps|)
    ensures RefStartFrom(ps, i).Some? ==> forall j | i <= j < RefStartFrom(ps, i).value :: !IsRefStart(ps[j], j, |ps|)
    decreases |ps| - i
  {
    if i < |ps| && !IsRefStart(ps[i], i, |ps|) {
      RefStartFromMeaning(ps, i + 1);
    }
  }

  /** The reference list opens at the first qualifying paragraph, or
      nowhere when none qualifies; only a paragraph past 70% can. */
  lemma RefStartMeaning(ps: seq<ParsedParagraph>)
    ensures RefStart(ps).None? <==> forall j | 0 <= j < |ps| :: !IsRefStart(ps[j], j, |ps|)
    ensures RefStart(ps).Some? ==> forall j | 0 <= j < RefStart(ps).value :: !IsRefStart(ps[j], j, |ps|)
    ensures RefStart(ps).Some? ==> RefStart(ps).value * 10 > |ps| * 7 - 10
  {
    RefStartFromMeaning(ps, 0);
  }

  /** A list paragraph that counts as a reference entry: non-blank, its
      trimmed text starting with a letter or '['. */
  predicate IsReferenceEntry(p: ParsedParagraph) {
    var t := Trim(p.text, IsRustSpace);
    p.style == "List Paragraph" && t != [] && (IsAlphabetic(t[0]) || t[0] == '[')
  }

  function RefId(k: nat): string {
    "[" + NatToString(k) + "]"
  }

  /** The raw text of the `k`-th reference: its id, a space, the text. */
  function ReferenceText(k: nat, p: ParsedParagraph): string {
    RefId(k) + " " + p.text
  }

  // ---------------------------------------------------------------------
  // The state machine of `convert_to_protocol`

  datatype Machine = Machine(inReferences: bool, sections: seq<Section>, references: seq<Reference>)

  /** One paragraph, at index `i`, with the reference list opening at
      `start`; the next section id is always one more than the number of
      sections so far. */
  function Step(m: Machine, i: nat, p: ParsedParagraph, start: Option<nat>): Machine {
    if start == Some(i) then m.(inReferences := true)
    else if m.inReferences then
      if p.style == "Heading 1" || IsReferenceSectionEnd(p.text) then
        Machine(false, m.sections + [CreateSection(p, |m.sections| + 1)], m.references)
      else if IsReferenceEntry(p) then
        var k := |m.references| + 1;
        m.(references := m.references + [Reference(RefId(k), ReferenceText(k, p))])
      else m
    else m.(sections := m.sections + [CreateSection(p, |m.sections| + 1)])
  }

  /** The machine after the first `k` paragraphs. */
  function Run(ps: seq<ParsedParagraph>, start: Option<nat>, k: nat): Machine
    requires k <= |ps|
  {
    if k == 0 then Machine(false, [], [])
    else Step(Run(ps, start, k - 1), k - 1, ps[k - 1], start)
  }

  function Protocol(ps: seq<ParsedParagraph>, headers: seq<string>, footers: seq<string>, docId: string): OutputProtocol {
    var m := Run(ps, RefStart(ps), |ps|);
    OutputProtocol(docId, Metadata(headers, footers), m.sections, m.references)
  }

  /** `convert_to_protocol`: the loop with its reference-mode flag and
      section counter computes `Protocol`. */
  method ConvertToProtocol(paragraphs: seq<ParsedParagraph>, headers: seq<string>, footers: seq<string>, docId: string)
    returns (out: OutputProtocol)
    ensures out == Protocol(paragraphs, headers, footers, docId)
  {
    var sections: seq<Section> := [];
    var references: seq<Reference> := [];
    var inReferences := false;
    var sectionId := 1;
    var start := RefStart(paragraphs);
    var i := 0;
    while i < |paragraphs|
      invariant 0 <= i <= |paragraphs|
      invariant Run(paragraphs, start, i) == Machine(inReferences, sections, references)
      invariant sectionId == |sections| + 1
    {
      var p := paragraphs[i];
      assert Run(paragraphs, start, i + 1) == Step(Machine(inReferences, sections, references), i, p, start);
      if start == Some(i) {
        inReferences := true;
      } else if inReferences {
        if p.style == "Heading 1" || IsReferenceSectionEnd(p.text) {
          inReferences := false;
          sections := sections + [CreateSection(p, sectionId)];
          sectionId := sectionId + 1;
        } else if IsReferenceEntry(p) {
          var k := |references| + 1;
          references := references + [Reference(RefId(k), ReferenceText(k, p))];
        }
      } else {
        sections := sections + [CreateSection(p, sectionId)];
        sectionId := sectionId + 1;
      }
      i := i + 1;
    }
    out := OutputProtocol(docId, Metadata(headers, footers), sections, references);
  }

  // ---------------------------------------------------------------------
  // Properties of the state machine

  /** Section ids are 1, 2, ... in output order. */
  lemma {:induction false} RunSectionIds(ps: seq<ParsedParagraph>, start: Option<nat>, k: nat)
    requires k <= |ps|
    ensures forall j | 0 <= j < |Run(ps, start, k).sections| :: Run(ps, start, k).sections[j].sectionId == j + 1
  {
    if k > 0 {
      RunSectionIds(ps, start, k - 1);
      var m := Run(ps, start, k - 1);
      assert Run(ps, start, k).sections == m.sections
          || Run(ps, start, k).sections == m.sections + [CreateSection(ps[k - 1], |m.sections| + 1)];
    }
  }

  /** One step adds at most one reference, and only for a reference
      entry: the next id, a space and the paragraph's text. */
  lemma StepReferences(m: Machine, i: nat, p: ParsedParagraph, start: Option<nat>)
    ensures var rs := Step(m, i, p, start).references;
            rs == m.references
            || (IsReferenceEntry(p) && rs == m.references + [Reference(RefId(|m.references| + 1), ReferenceText(|m.references| + 1, p))])
  {
  }

  /** The raw text of the `j`-th reference comes from one of the first `k`
      paragraphs, a reference entry. */
  predicate EntryAmong(ps: seq<ParsedParagraph>, k: nat, j: nat, raw: string)
    requires k <= |ps|
  {
    exists n | 0 <= n < k :: IsReferenceEntry(ps[n]) && raw == ReferenceText(j + 1, ps[n])
  }

  /** References are "[1]", "[2]", ... and each one's raw text is its id,
      a space and the text of a reference entry among the paragraphs read. */
  lemma {:induction false} RunReferenceIds(ps: seq<ParsedParagraph>, start: Option<nat>, k: nat)
    requires k <= |ps|
    ensures forall j | 0 <= j < |Run(ps, start, k).references| ::
              Run(ps, start, k).references[j].refId == RefId(j + 1)
              && EntryAmong(ps, k, j, Run(ps, start, k).references[j].rawText)
  {
    if k > 0 {
      RunReferenceIds(ps, start, k - 1);
      var m := Run(ps, start, k - 1);
      StepReferences(m, k - 1, ps[k - 1], start);
      ReferencesStep(ps, k, m.references, Run(ps, start, k).references);
    }
  }

  lemma ReferencesStep(ps: seq<ParsedParagraph>, k: nat, before: seq<Reference>, after: seq<Reference>)
    requires 0 < k <= |ps|
    requires forall j | 0 <= j < |before| :: before[j].refId == RefId(j + 1) && EntryAmong(ps, k - 1, j, before[j].rawText)
    requires after == before
             || (IsReferenceEntry(ps[k - 1]) && after == before + [Reference(RefId(|before| + 1), ReferenceText(|before| + 1, ps[k - 1]))])
    ensures forall j | 0 <= j < |after| :: after[j].refId == RefId(j + 1) && EntryAmong(ps, k, j, after[j].rawText)
  {
    forall j | 0 <= j < |after| ensures after[j].refId == RefId(j + 1) && EntryAmong(ps, k, j, after[j].rawText) {
      if j < |before| {
        assert after[j] == before[j];
        var n :| 0 <= n < k - 1 && IsReferenceEntry(ps[n]) && before[j].rawText == ReferenceText(j + 1, ps[n]);
        assert 0 <= n < k;
      } else {
        assert j == |before| && after[j] == Reference(RefId(j + 1), ReferenceText(j + 1, ps[k - 1]));
        assert IsReferenceEntry(ps[k - 1]);
      }
    }
  }

  /** Every paragraph yields at most one section or reference, and the
      paragraph that opens the reference list yields neither. */
  lemma {:induction false} RunOutputBound(ps: seq<ParsedParagraph>, start: Option<nat>, k: nat)
    requires k <= |ps|
    ensures |Run(ps, start, k).sections| + |Run(ps, start, k).references|
            + (if start.Some? && start.value < k then 1 else 0) <= k
  {
    if k > 0 {
      RunOutputBound(ps, start, k - 1);
    }
  }

  /** Without a reference list every paragraph becomes a section, in
      order, and there are no references. */
  lemma {:induction false} RunWithoutReferences(ps: seq<ParsedParagraph>, k: nat)
    requires k <= |ps|
    ensures !Run(ps, None, k).inReferences && Run(ps, None, k).references == []
    ensures |Run(ps, None, k).sections| == k
    ensures forall j | 0 <= j < k :: Run(ps, None, k).sections[j] == CreateSection(ps[j], j + 1)
  {
    if k > 0 {
      RunWithoutReferences(ps, k - 1);
    }
  }

  /** Before the reference list opens, every paragraph becomes a section
      with id one more than its index. */
  lemma {:induction false} RunBeforeReferences(ps: seq<ParsedParagraph>, s: nat, k: nat)
    requires k <= s && k <= |ps|
    ensures !Run(ps, Some(s), k).inReferences && Run(ps, Some(s), k).references == []
    ensures |Run(ps, Some(s), k).sections| == k
    ensures forall j | 0 <= j < k :: Run(ps, Some(s), k).sections[j] == CreateSection(ps[j], j + 1)
  {
    if k > 0 {
      RunBeforeReferences(ps, s, k - 1);
    }
  }

  /** A document without a qualifying "参考文献" heading is converted
      paragraph for paragraph. */
  lemma NoReferenceList(ps: seq<ParsedParagraph>, headers: seq<string>, footers: seq<string>, docId: string)
    requires forall j | 0 <= j < |ps| :: !IsRefStart(ps[j], j, |ps|)
    ensures Protocol(ps, headers, footers, docId).references == []
    ensures |Protocol(ps, headers, footers, docId).sections| == |ps|
    ensures forall j | 0 <= j < |ps| :: Protocol(ps, headers, footers, docId).sections[j] == CreateSection(ps[j], j + 1)
  {
    RefStartMeaning(ps);
    RunWithoutReferences(ps, |ps|);
  }
}
