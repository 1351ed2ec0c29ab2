/** The PDF parser of the library (`core/pdf_parser.rs`): every non-blank
    line of every page whose text could be extracted becomes a paragraph
    section, numbered from 1 across all pages. Loading the file and
    extracting a page's text are the PDF library's work; their outcome is
    the input here. */
module PdfParsing {
  import opened Wrappers
  import opened Text
  import opened Sections
  import CoreLayout
  import opened Seqs

  /** A page as the PDF library hands it over: its number and its
      extracted text, or `None` when extraction failed. */
  datatype Page = Page(number: nat, text: Option<string>)

  /** `extract_formatting_for_pdf`: the same single key for every line. */
  const PdfFormatting: map<string, string> := map["element-type" := "pdf-text"]

  function PagePath(number: nat): string {
    "page_" + NatToString(number) + ".txt"
  }

  /** `line.trim().is_empty()`: by `Trim`'s contract, every character is
      whitespace. */
  predicate Blank(line: string) {
    AllSpace(line, IsRustSpace)
  }

  /** The non-blank lines, in order, each paired with the page number. */
  function NonBlank(lines: seq<string>, number: nat): seq<(string, nat)> {
    if lines == [] then []
    else
      var last := lines[|lines| - 1];
      NonBlank(lines[..|lines| - 1], number) + (if Blank(last) then [] else [(last, number)])
  }

  /** Each non-blank line yields an entry and each entry is a non-blank
      line of that page. */
  lemma {:induction false} NonBlankMeaning(lines: seq<string>, number: nat)
    ensures forall e | e in NonBlank(lines, number) :: e.0 in lines && !Blank(e.0) && e.1 == number
    ensures forall line | line in lines && !Blank(line) :: (line, number) in NonBlank(lines, number)
  {
    if lines != [] {
      var init := lines[..|lines| - 1];
      NonBlankMeaning(init, number);
      assert lines == init + [lines[|lines| - 1]];
    }
  }

  /** What one page contributes: nothing when its text could not be
      extracted, otherwise its non-blank lines. */
  function PageEntries(page: Page): seq<(string, nat)> {
    match page.text
    case None => []
    case Some(content) => NonBlank(Lines(content), page.number)
  }

  /** Every section-producing line of the document, in page order. */
  function Entries(pages: seq<Page>): seq<(string, nat)> {
    ConcatMap(pages, PageEntries)
  }

  function PdfSection(id: nat, line: string, number: nat): DocumentSection {
    DocumentSection(id, Paragraph, line, PdfFormatting, PagePath(number))
  }

  /** The sections of a list of entries, numbered from 1. */
  function Numbered(es: seq<(string, nat)>): (r: seq<DocumentSection>)
    ensures |r| == |es|
  {
    seq(|es|, k requires 0 <= k < |es| => PdfSection(k + 1, es[k].0, es[k].1))
  }

  function PdfSections(pages: seq<Page>): seq<DocumentSection> {
    Numbered(Entries(pages))
  }

  /** `LopdfParser::parse`: an error exactly when the document cannot be
      loaded; otherwise one section per non-blank line, the page count
      truncated to 32 bits, and no positions. */
  method ParsePdf(path: string, pages: Option<seq<Page>>, fileSize: nat) returns (r: Result<CoreLayout.DocumentTree>)
    ensures r.Err? <==> pages.None?
    ensures r.Ok? ==> r.value.sections == PdfSections(pages.value)
    ensures r.Ok? ==> r.value.positions == map[]
    ensures r.Ok? ==> r.value.metadata == CoreLayout.FileMetadata(|pages.value| % 0x1_0000_0000, path, fileSize, None, None)
  {
    if pages.None? {
      return Err("cannot load PDF document");
    }
    var ps := pages.value;
    var sections: seq<DocumentSection> := [];
    var i := 0;
    while i < |ps|
      invariant 0 <= i <= |ps|
      invariant sections == Numbered(Entries(ps[..i]))
    {
      var page := ps[i];
      assert ps[..i + 1] == ps[..i] + [page];
      ConcatMapSnoc(ps[..i], page, PageEntries);
      if page.text.Some? {
        var paragraphs := Lines(page.text.value);
        sections := AppendPage(sections, Entries(ps[..i]), paragraphs, page.number);
      }
      i := i + 1;
    }
    assert ps[..i] == ps;
    var tree := new CoreLayout.DocumentTree.Literal(sections, CoreLayout.FileMetadata(|ps| % 0x1_0000_0000, path, fileSize, None, None));
    r := Ok(tree);
  }

  /** The inner loop of `parse`: one section per non-blank line of a page,
      the id continuing from the sections so far. */
  method AppendPage(sections: seq<DocumentSection>, ghost before: seq<(string, nat)>, paragraphs: seq<string>, number: nat)
    returns (updated: seq<DocumentSection>)
    requires sections == Numbered(before)
    ensures updated == Numbered(before + NonBlank(paragraphs, number))
  {
    updated := sections;
    var sectionId := |sections| + 1;
    var j := 0;
    while j < |paragraphs|
      invariant 0 <= j <= |paragraphs|
      invariant updated == Numbered(before + NonBlank(paragraphs[..j], number))
      invariant sectionId == |updated| + 1
    {
      var paragraph := paragraphs[j];
      assert paragraphs[..j + 1][..j] == paragraphs[..j];
      ghost var es := before + NonBlank(paragraphs[..j], number);
      ghost var added := if Blank(paragraph) then [] else [(paragraph, number)];
      assert NonBlank(paragraphs[..j + 1], number) == NonBlank(paragraphs[..j], number) + added;
      assert before + NonBlank(paragraphs[..j + 1], number) == es + added;
      if !Blank(paragraph) {
        NumberedSnoc(es, (paragraph, number));
        updated := updated + [PdfSection(sectionId, paragraph, number)];
        sectionId := sectionId + 1;
      }
      j := j + 1;
    }
    assert paragraphs[..j] == paragraphs;
  }

  lemma NumberedSnoc(es: seq<(string, nat)>, e: (string, nat))
    ensures Numbered(es + [e]) == Numbered(es) + [PdfSection(|es| + 1, e.0, e.1)]
  {
    assert forall k | 0 <= k < |es| :: (es + [e])[k] == es[k];
  }

  /** A page whose text extraction fails adds no section and does not end
      the parse: the pages after it are still read. */
  lemma FailedPageAddsNothing(before: seq<Page>, number: nat, after: seq<Page>)
    ensures Entries(before + [Page(number, None)] + after) == Entries(before + after)
  {
    var failed := [Page(number, None)];
    ConcatMapAppend(before + failed, after, PageEntries);
    ConcatMapSnoc(before, Page(number, None), PageEntries);
    ConcatMapAppend(before, after, PageEntries);
  }

  /** Every line that yields a section is a non-blank line of a readable
      page with that number, and every non-blank line of a readable page
      yields one. */
  lemma EntriesAreNonBlankLines(pages: seq<Page>)
    ensures forall e | e in Entries(pages) :: !Blank(e.0) && exists k | 0 <= k < |pages| ::
              pages[k].number == e.1 && pages[k].text.Some? && e.0 in Lines(pages[k].text.value)
    ensures forall k, line | 0 <= k < |pages| && pages[k].text.Some? && line in Lines(pages[k].text.value) && !Blank(line) ::
              (line, pages[k].number) in Entries(pages)
  {
    ConcatMapMembers(pages, PageEntries);
    forall k | 0 <= k < |pages| && pages[k].text.Some? {
      NonBlankMeaning(Lines(pages[k].text.value), pages[k].number);
    }
  }

  /** Sections carry the ids 1, 2, ... in order, are all paragraphs with
      the untrimmed line as text, and point at their page. */
  lemma NumberedShape(es: seq<(string, nat)>)
    ensures forall k | 0 <= k < |Numbered(es)| ::
              Numbered(es)[k].id == k + 1 && Numbered(es)[k].elementType == Paragraph
              && Numbered(es)[k].rawText == es[k].0
              && Numbered(es)[k].formatting == map["element-type" := "pdf-text"]
              && Numbered(es)[k].xmlPath == "page_" + NatToString(es[k].1) + ".txt"
  {
  }
}
