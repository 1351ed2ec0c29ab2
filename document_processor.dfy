/** The batch driver's document logic (`utils/document_processor.rs`): the
    sample issue rules run over the parsed sections, the choice between
    annotating and copying, and the names of the files written. Directory
    walking and file copies are I/O and are not modelled. */
module DocumentProcessor {
  import opened Wrappers
  import opened Text
  import opened Sections
  import CoreLayout
  import Writer

  // ---------------------------------------------------------------------
  // Word count

  /** `k` starts a word: not whitespace, and first or after whitespace. */
  predicate WordStart(s: string, k: nat)
    requires k < |s|
  {
    !IsRustSpace(s[k]) && (k == 0 || IsRustSpace(s[k - 1]))
  }

  /** `split_whitespace().count()`: the number of maximal runs of
      non-whitespace characters. */
  function WordCount(s: string): (n: nat)
  {
    if s == [] then 0
    else WordCount(s[..|s| - 1]) + (if WordStart(s, |s| - 1) then 1 else 0)
  }

  /** No words exactly when the text is all whitespace, and a text of
      `n` characters has at most `(n + 1) / 2` words. */
  lemma {:induction false} WordCountBounds(s: string)
    ensures WordCount(s) == 0 <==> AllSpace(s, IsRustSpace)
    ensures 2 * WordCount(s) <= |s| + (if s != [] && !IsRustSpace(s[|s| - 1]) then 1 else 0)
  {
    if s != [] {
      var init := s[..|s| - 1];
      WordCountBounds(init);
      assert forall k | 0 <= k < |init| :: init[k] == s[k];
      if AllSpace(s, IsRustSpace) {
        assert AllSpace(init, IsRustSpace);
      }
    }
  }

  // ---------------------------------------------------------------------
  // Sample issues

  function LengthMessage(words: nat): string {
    "Section too long (" + NatToString(words) + " words), consider breaking it into smaller parts"
  }

  function FontMessage(size: string): string {
    "Font size should be 12pt for body text, found: " + size + "pt"
  }

  function HeadingMessage(level: nat): string {
    "Heading level " + NatToString(level) + " is too deep, maximum allowed is 6"
  }

  predicate TooLong(s: DocumentSection) {
    WordCount(s.rawText) > 100
  }

  predicate OddFontSize(s: DocumentSection) {
    s.elementType == Paragraph && "font-size" in s.formatting
    && s.formatting["font-size"] != "12" && s.formatting["font-size"] != "24"
  }

  predicate TooDeep(s: DocumentSection) {
    s.elementType.Heading? && s.elementType.level > 6
  }

  /** The issues of the section at `index`, in rule order: length, font
      size, heading depth, with ids `index + 1`, `+ 2`, `+ 3`. */
  function SectionIssues(index: nat, s: DocumentSection): (r: seq<Issue>)
    ensures |r| <= 3
    ensures forall k | 0 <= k < |r| :: r[k].sectionId == s.id && index + 1 <= r[k].id <= index + 3
  {
    (if TooLong(s) then [Issue(index + 1, LengthMessage(WordCount(s.rawText)), s.id)] else [])
    + (if OddFontSize(s) then [Issue(index + 2, FontMessage(s.formatting["font-size"]), s.id)] else [])
    + (if TooDeep(s) then [Issue(index + 3, HeadingMessage(s.elementType.level), s.id)] else [])
  }

  /** Each rule fires exactly when its condition holds, and the issues of
      one section come in rule order. */
  lemma SectionIssuesMeaning(index: nat, s: DocumentSection)
    ensures (exists k | 0 <= k < |SectionIssues(index, s)| :: SectionIssues(index, s)[k].id == index + 1) <==> TooLong(s)
    ensures (exists k | 0 <= k < |SectionIssues(index, s)| :: SectionIssues(index, s)[k].id == index + 2) <==> OddFontSize(s)
    ensures (exists k | 0 <= k < |SectionIssues(index, s)| :: SectionIssues(index, s)[k].id == index + 3) <==> TooDeep(s)
    ensures forall k | 0 <= k < |SectionIssues(index, s)| - 1 :: SectionIssues(index, s)[k].id < SectionIssues(index, s)[k + 1].id
  {
    SectionIssueIds(index, s);
    RuleOrderedIds(SectionIssues(index, s), index,
                   if TooLong(s) then 1 else 0, if OddFontSize(s) then 1 else 0, if TooDeep(s) then 1 else 0);
  }

  /** Up to one issue per rule, in rule order: an id occurs exactly when
      its rule contributed an issue, and the ids increase. */
  lemma RuleOrderedIds(r: seq<Issue>, index: nat, na: nat, nb: nat, nc: nat)
    requires na <= 1 && nb <= 1 && nc <= 1 && |r| == na + nb + nc
    requires forall k | 0 <= k < |r| :: r[k].id == if k < na then index + 1 else if k < na + nb then index + 2 else index + 3
    ensures (exists k | 0 <= k < |r| :: r[k].id == index + 1) <==> na == 1
    ensures (exists k | 0 <= k < |r| :: r[k].id == index + 2) <==> nb == 1
    ensures (exists k | 0 <= k < |r| :: r[k].id == index + 3) <==> nc == 1
    ensures forall k | 0 <= k < |r| - 1 :: r[k].id < r[k + 1].id
  {
    if na == 1 { assert r[0].id == index + 1; }
    if nb == 1 { assert r[na].id == index + 2; }
    if nc == 1 { assert r[na + nb].id == index + 3; }
  }

  /** The issues of one section come in rule order: the length issue, the
      font issue, then the heading issue, each present when its rule fires. */
  lemma SectionIssueIds(index: nat, s: DocumentSection)
    ensures var na, nb, nc := (if TooLong(s) then 1 else 0), (if OddFontSize(s) then 1 else 0), (if TooDeep(s) then 1 else 0);
            |SectionIssues(index, s)| == na + nb + nc
            && forall k | 0 <= k < |SectionIssues(index, s)| ::
                 SectionIssues(index, s)[k].id == if k < na then index + 1 else if k < na + nb then index + 2 else index + 3
  {
    var a: seq<Issue> := if TooLong(s) then [Issue(index + 1, LengthMessage(WordCount(s.rawText)), s.id)] else [];
    var b: seq<Issue> := if OddFontSize(s) then [Issue(index + 2, FontMessage(s.formatting["font-size"]), s.id)] else [];
    var c: seq<Issue> := if TooDeep(s) then [Issue(index + 3, HeadingMessage(s.elementType.level), s.id)] else [];
    var r := SectionIssues(index, s);
    assert r == a + b + c;
    forall k | 0 <= k < |r| ensures r[k].id == if k < |a| then index + 1 else if k < |a| + |b| then index + 2 else index + 3 {
      if k < |a| { assert r[k] == a[k]; }
      else if k < |a| + |b| { assert r[k] == b[k - |a|]; }
      else { assert r[k] == c[k - |a| - |b|]; }
    }
  }

  /** The issues of the first `n` sections, section by section. */
  function SampleIssues(sections: seq<DocumentSection>, n: nat): seq<Issue>
    requires n <= |sections|
  {
    if n == 0 then [] else SampleIssues(sections, n - 1) + SectionIssues(n - 1, sections[n - 1])
  }

  /** `generate_sample_issues`: the rules applied to every section of the
      tree, in order. */
  method GenerateSampleIssues(tree: CoreLayout.DocumentTree) returns (issues: seq<Issue>)
    ensures issues == SampleIssues(tree.sections, |tree.sections|)
  {
    issues := [];
    var index := 0;
    while index < |tree.sections|
      invariant 0 <= index <= |tree.sections|
      invariant issues == SampleIssues(tree.sections, index)
    {
      var found := CheckSection(index, tree.sections[index]);
      issues := issues + found;
      index := index + 1;
    }
  }

  /** The body of the loop: the three rules on one section. */
  method CheckSection(index: nat, section: DocumentSection) returns (found: seq<Issue>)
    ensures found == SectionIssues(index, section)
  {
    found := [];
    var words := WordCount(section.rawText);
    if words > 100 {
      found := found + [Issue(index + 1, LengthMessage(words), section.id)];
    }
    if section.elementType == Paragraph && "font-size" in section.formatting {
      var size := section.formatting["font-size"];
      if size != "12" && size != "24" {
        found := found + [Issue(index + 2, FontMessage(size), section.id)];
      }
    }
    if section.elementType.Heading? && section.elementType.level > 6 {
      found := found + [Issue(index + 3, HeadingMessage(section.elementType.level), section.id)];
    }
  }

  /** Every issue belongs to a section: its `section_id` is that
      section's id and its id is the section's position plus 1, 2 or 3;
      there are at most three per section. */
  lemma {:induction false} SampleIssuesOrigin(sections: seq<DocumentSection>, n: nat)
    requires n <= |sections|
    ensures |SampleIssues(sections, n)| <= 3 * n
    ensures forall k | 0 <= k < |SampleIssues(sections, n)| ::
              exists index | 0 <= index < n ::
                SampleIssues(sections, n)[k].sectionId == sections[index].id
                && index + 1 <= SampleIssues(sections, n)[k].id <= index + 3
  {
    if n > 0 {
      SampleIssuesOrigin(sections, n - 1);
      var before := SampleIssues(sections, n - 1);
      var added := SectionIssues(n - 1, sections[n - 1]);
      var all: seq<Issue> := before + added;
      forall k | 0 <= k < |all|
        ensures exists index | 0 <= index < n ::
                  all[k].sectionId == sections[index].id && index + 1 <= all[k].id <= index + 3
      {
        if k < |before| {
          var index :| 0 <= index < n - 1 && before[k].sectionId == sections[index].id
                       && index + 1 <= before[k].id <= index + 3;
          assert all[k] == before[k];
        } else {
          assert all[k] == added[k - |before|];
        }
      }
    }
  }

  /** Issue ids depend only on positions: a too-deep heading first and an
      odd-sized paragraph second both get id 3. */
  lemma IssueIdsCanCollide()
    ensures var sections := [DocumentSection(10, Heading(7), "", map[], ""),
                             DocumentSection(20, Paragraph, "", map["font-size" := "10"], "")];
            var issues := SampleIssues(sections, 2);
            |issues| == 2 && issues[0].id == 3 && issues[1].id == 3
            && issues[0].sectionId == 10 && issues[1].sectionId == 20
  {
    var sections := [DocumentSection(10, Heading(7), "", map[], ""),
                     DocumentSection(20, Paragraph, "", map["font-size" := "10"], "")];
    assert SampleIssues(sections, 0) == [];
    assert SectionIssues(0, sections[0]) == [Issue(3, HeadingMessage(7), 10)];
    assert SectionIssues(1, sections[1]) == [Issue(3, FontMessage("10"), 20)];
  }

  // ---------------------------------------------------------------------
  // File names

  /** `Path::file_stem` and `Path::extension` of a file name: split at the
      last '.', except that a name whose only dot is its first character
      has no extension. */
  function SplitName(name: string): (r: (string, Option<string>))
    ensures r.1.None? ==> r.0 == name
    ensures r.1.Some? ==> name == r.0 + "." + r.1.value && r.0 != [] && '.' !in r.1.value
  {
    match LastIndexOf(name, ".")
    case None => (name, None)
    case Some(i) =>
      if i == 0 then (name, None)
      else
        var ext := name[i + 1..];
        assert '.' !in ext by {
          forall j | 0 <= j < |ext| ensures ext[j] != '.' {
            assert !OccursAt(name, ".", i + 1 + j);
          }
        }
        assert name == name[..i] + "." + ext;
        (name[..i], Some(ext))
  }

  function Stem(name: string): string {
    SplitName(name).0
  }

  /** The lowercased extension, "" when there is none. */
  function Extension(name: string): string {
    match SplitName(name).1
    case None => ""
    case Some(e) => AsciiLower(e)
  }

  /** "{stem}_annotated.{ext}". */
  function AnnotatedName(name: string): (r: string)
    ensures EndsWith(r, "." + Extension(name))
  {
    Stem(name) + "_annotated." + Extension(name)
  }

  /** "{stem}_issues.txt". */
  function IssuesName(name: string): (r: string)
    ensures EndsWith(r, "_issues.txt")
  {
    Stem(name) + "_issues.txt"
  }

  /** The annotated copy keeps the stem and the extension: for "a.b.DOCX"
      it is "a.b_annotated.docx". */
  lemma AnnotatedNameKeepsStem(stem: string, ext: string)
    requires stem != [] && '.' !in ext
    ensures SplitName(stem + "." + ext) == (stem, Some(ext))
    ensures AnnotatedName(stem + "." + ext) == stem + "_annotated." + AsciiLower(ext)
  {
    var name := stem + "." + ext;
    assert OccursAt(name, ".", |stem|);
    var i := LastIndexOf(name, ".").value;
    assert forall j | |stem| < j < |name| :: name[j] == ext[j - |stem| - 1];
    assert name[i..i + 1][0] == name[i];
    assert i == |stem|;
    assert name[..i] == stem && name[i + 1..] == ext;
  }

  // ---------------------------------------------------------------------
  // Annotating or copying

  /** What ends up at the output path: the patched archive parts, or a
      plain copy of the input file. */
  datatype Written = ArchiveParts(parts: map<string, string>) | CopyOfInput

  /** `apply_annotations`: a "docx" extension goes to the annotation
      writer; "pdf" and every other extension are copied unchanged. */
  method ApplyAnnotations(ext: string, input: map<string, string>, counter: Writer.CommentCounter, issues: seq<Issue>,
                          parses: string -> bool, date: nat -> string, escape: string -> string)
    returns (r: Result<Written>)
    requires counter.Valid()
    modifies counter
    ensures counter.Valid()
    ensures ext != "docx" ==> r == Ok(CopyOfInput) && counter.value == old(counter.value)
    ensures ext == "docx" ==>
              (r.Err? <==> Writer.DocumentPart in input && !parses(input[Writer.DocumentPart]))
    ensures ext == "docx" && r.Ok? ==>
              r.value == ArchiveParts(Writer.Annotated(input, old(counter.value), issues, date, escape))
  {
    if ext == "docx" {
      var written := Writer.WriteAnnotations(input, counter, issues, parses, date, escape);
      match written
      case Ok(parts) => r := Ok(ArchiveParts(parts));
      case Err(e) => r := Err(e);
    } else {
      r := Ok(CopyOfInput);
    }
  }

  predicate Processable(name: string) {
    Extension(name) == "docx" || Extension(name) == "pdf"
  }

  /** The outputs for one input file of a submission directory. */
  datatype Output = Annotated(name: string) | Copied(name: string) | IssuesFile(name: string)

  /** The per-file decision of `process_student_directory`, given whether
      the parse succeeded, how many issues were found and whether
      annotating succeeded: a .docx or .pdf file with issues gets an
      annotated copy (and an issues file when annotating succeeded, a
      plain copy under the annotated name otherwise); every other file is
      copied under its own name. */
  function Outputs(name: string, parsed: bool, issueCount: nat, annotated: bool): (r: seq<Output>)
    ensures 1 <= |r| <= 2
    ensures IssuesFile(IssuesName(name)) in r <==> (Processable(name) && parsed && issueCount > 0 && annotated)
    ensures forall k | 0 <= k < |r| :: r[k].Annotated? ==> r[k].name == AnnotatedName(name)
    ensures !(Processable(name) && parsed && issueCount > 0) ==> r == [Copied(name)]
  {
    if Processable(name) && parsed && issueCount > 0 then
      if annotated then [Annotated(AnnotatedName(name)), IssuesFile(IssuesName(name))]
      else [Copied(AnnotatedName(name))]
    else [Copied(name)]
  }
}
