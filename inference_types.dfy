/** Values shared by the Python inference service's detectors: the
    `Issue` message they fill in, and the section records (dictionaries
    with `section_id`, `type` and `text`) they read. */
module InferenceTypes {
  import opened Wrappers
  import opened Text

  /** The `Severity` enum of the service's protocol. */
  datatype Severity = Low | Medium | High | Critical

  /** An `Issue` message. A field the detector never assigns keeps the
      protobuf default: "" for strings, 0 for the section id. */
  datatype Issue = Issue(
    code: string,
    message: string,
    originalSnippet: string,
    suggestion: string,
    severity: Severity,
    sectionId: int)

  /** An issue with only code, message and severity assigned. */
  function Bare(code: string, message: string, severity: Severity): (r: Issue)
    ensures r.originalSnippet == "" && r.suggestion == "" && r.sectionId == 0
  {
    Issue(code, message, "", "", severity, 0)
  }

  /** The `{"HIGH", "MEDIUM", "LOW"}` severity map both checkers look a
      parsed name up in, with its MEDIUM default. */
  function NamedSeverity(name: string): (r: Severity)
    ensures name == "HIGH" ==> r == High
    ensures name == "LOW" ==> r == Low
    ensures name != "HIGH" && name != "LOW" ==> r == Medium
  {
    if name == "HIGH" then High
    else if name == "MEDIUM" then Medium
    else if name == "LOW" then Low
    else Medium
  }

  /** A section dictionary: `section.get("type", "")` and
      `section.get("text", "")` read a missing key as "", so only the id,
      whose default differs between callers, stays optional. */
  datatype SectionRecord = SectionRecord(sectionId: Option<int>, kind: string, text: string)

  /** `'summary' in t or 'abstract' in t` on the lower-cased type. */
  predicate IsSummaryKind(kind: string) {
    var t := AsciiLower(kind);
    Contains(t, "summary") || Contains(t, "abstract")
  }

  /** `'conclusion' in t or 'conclude' in t` on the lower-cased type. */
  predicate IsConclusionKind(kind: string) {
    var t := AsciiLower(kind);
    Contains(t, "conclusion") || Contains(t, "conclude")
  }

  /** The summary and conclusion texts after scanning `sections` from the
      pair `start`: a summary section replaces the first, and only a
      section that is not a summary can replace the second. */
  function KeyPassages(sections: seq<SectionRecord>, start: (string, string)): (string, string)
  {
    if sections == [] then start
    else
      var (summary, conclusion) := KeyPassages(sections[..|sections| - 1], start);
      var last := sections[|sections| - 1];
      if IsSummaryKind(last.kind) then (last.text, conclusion)
      else if IsConclusionKind(last.kind) then (summary, last.text)
      else (summary, conclusion)
  }

  /** The index of the last section satisfying `p`, if any. */
  function LastWhere(sections: seq<SectionRecord>, p: SectionRecord -> bool): (r: Option<nat>)
    ensures r.Some? ==> r.value < |sections| && p(sections[r.value])
    ensures r.Some? ==> forall i | r.value < i < |sections| :: !p(sections[i])
    ensures r.None? <==> forall i | 0 <= i < |sections| :: !p(sections[i])
  {
    if sections == [] then None
    else if p(sections[|sections| - 1]) then Some(|sections| - 1)
    else
      var r := LastWhere(sections[..|sections| - 1], p);
      assert forall i | 0 <= i < |sections| - 1 :: sections[..|sections| - 1][i] == sections[i];
      r
  }

  /** The summary is the text of the last summary section, or the start
      value when there is none. */
  lemma {:induction false} KeyPassagesSummary(sections: seq<SectionRecord>, start: (string, string))
    ensures KeyPassages(sections, start).0 ==
      match LastWhere(sections, IsSummaryPassage)
      case Some(k) => sections[k].text
      case None => start.0
  {
    if sections != [] {
      KeyPassagesSummary(sections[..|sections| - 1], start);
    }
  }

  /** The conclusion is the text of the last section that is a conclusion
      and not a summary, or the start value when there is none. */
  lemma {:induction false} KeyPassagesConclusion(sections: seq<SectionRecord>, start: (string, string))
    ensures KeyPassages(sections, start).1 ==
      match LastWhere(sections, IsConclusionPassage)
      case Some(k) => sections[k].text
      case None => start.1
  {
    if sections != [] {
      KeyPassagesConclusion(sections[..|sections| - 1], start);
    }
  }

  predicate IsSummaryPassage(s: SectionRecord) {
    IsSummaryKind(s.kind)
  }

  /** A section the `elif` branch takes as the conclusion. */
  predicate IsConclusionPassage(s: SectionRecord) {
    !IsSummaryKind(s.kind) && IsConclusionKind(s.kind)
  }

  /** The scan both detectors run over every section, as a loop that
      overwrites the two texts. */
  method ScanKeyPassages(sections: seq<SectionRecord>, summary0: string, conclusion0: string)
    returns (summary: string, conclusion: string)
    ensures (summary, conclusion) == KeyPassages(sections, (summary0, conclusion0))
  {
    summary, conclusion := summary0, conclusion0;
    var i := 0;
    while i < |sections|
      invariant 0 <= i <= |sections|
      invariant (summary, conclusion) == KeyPassages(sections[..i], (summary0, conclusion0))
    {
      assert sections[..i + 1][..i] == sections[..i];
      var s := sections[i];
      if IsSummaryKind(s.kind) {
        summary := s.text;
      } else if IsConclusionKind(s.kind) {
        conclusion := s.text;
      }
      i := i + 1;
    }
    assert sections[..i] == sections;
  }
}
