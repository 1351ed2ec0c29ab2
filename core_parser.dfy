/** The library parser (`core/parser.rs`): dispatch on the file extension,
    and a WordprocessingML reader that turns every `p` element of
    `word/document.xml` into a section and then every `tbl` element, with
    ids counted from 1 across both. The source looks attributes up by the
    literal qualified name (`w:left`), which never matches a namespaced
    attribute; the section "Attribute lookups as written" models that, and
    the rest of the model reads the attribute's local name, as intended. */
module CoreParser {
  import opened Wrappers
  import opened Text
  import opened Xml
  import opened Sections
  import opened Seqs
  import CoreLayout
  import PdfParsing

  // ---------------------------------------------------------------------
  // Dispatch

  datatype Format = Docx | Pdf

  /** The format `UniversalParser::parse` picks from the lowercased path. */
  function FormatOf(path: string): (r: Result<Format>)
    ensures r == Ok(Docx) <==> EndsWith(AsciiLower(path), ".docx")
    ensures r == Ok(Pdf) <==> !EndsWith(AsciiLower(path), ".docx") && EndsWith(AsciiLower(path), ".pdf")
    ensures r.Err? ==> r.message == "Unsupported file format: " + AsciiLower(path)
  {
    var lower := AsciiLower(path);
    if EndsWith(lower, ".docx") then Ok(Docx)
    else if EndsWith(lower, ".pdf") then Ok(Pdf)
    else Err("Unsupported file format: " + lower)
  }

  lemma AsciiLowerIdempotent(s: string)
    ensures AsciiLower(AsciiLower(s)) == AsciiLower(s)
  {
  }

  /** The choice ignores letter case: a path and its lowercase form go to
      the same parser, and are refused with the same message. */
  lemma FormatOfIgnoresCase(path: string)
    ensures FormatOf(AsciiLower(path)) == FormatOf(path)
  {
    AsciiLowerIdempotent(path);
  }

  /** `UniversalParser::parse`: the docx reader for ".docx", the PDF
      reader for ".pdf", an error naming the lowercased path otherwise.
      The archive and the PDF pages stand for the file's contents. */
  method Parse(path: string, archive: map<string, XmlPart>, pages: Option<seq<PdfParsing.Page>>, fileSize: nat)
    returns (r: Result<CoreLayout.DocumentTree>)
    ensures FormatOf(path).Err? ==> r == Err(FormatOf(path).message)
    ensures FormatOf(path) == Ok(Docx) ==>
              (r.Ok? <==> DocumentXml in archive && archive[DocumentXml].Wellformed?)
              && (r.Ok? ==> r.value.sections == DocxSections(archive[DocumentXml].root))
    ensures FormatOf(path) == Ok(Pdf) ==>
              (r.Ok? <==> pages.Some?) && (r.Ok? ==> r.value.sections == PdfParsing.PdfSections(pages.value))
  {
    match FormatOf(path)
    case Err(message) =>
      r := Err(message);
    case Ok(Docx) =>
      r := ParseDocx(path, archive, fileSize);
    case Ok(Pdf) =>
      r := PdfParsing.ParsePdf(path, pages, fileSize);
  }

  // ---------------------------------------------------------------------
  // Formatting

  /** The children of the paragraph's first `pPr`, none without one. */
  function PPrChildren(p: Node): seq<Node> {
    match FirstNamed(Children(p), "pPr")
    case Some(ppr) => Children(ppr)
    case None => []
  }

  /** The children of the first `rPr` of the first `r` below the
      paragraph, none when either is missing. */
  function RPrChildren(p: Node): seq<Node> {
    match FirstNamed(Descendants(p), "r")
    case None => []
    case Some(run) =>
      match FirstNamed(Children(run), "rPr")
      case Some(rpr) => Children(rpr)
      case None => []
  }

  function IndentLeft(p: Node): Option<string> { FirstChildAttr(PPrChildren(p), "ind", "left") }
  function LineSpacing(p: Node): Option<string> { FirstChildAttr(PPrChildren(p), "spacing", "line") }
  function OutlineValue(p: Node): Option<string> { FirstChildAttr(PPrChildren(p), "outlineLvl", "val") }
  function FontSize(p: Node): Option<string> { FirstChildAttr(RPrChildren(p), "sz", "val") }
  function FontFamily(p: Node): Option<string> { FirstChildAttr(RPrChildren(p), "rFonts", "ascii") }

  function Put(m: map<string, string>, key: string, v: Option<string>): (r: map<string, string>)
    ensures r.Keys == if v.Some? then m.Keys + {key} else m.Keys
    ensures v.Some? ==> r[key] == v.value
    ensures forall k | k in m && k != key :: r[k] == m[k]
  {
    if v.Some? then m[key := v.value] else m
  }

  /** `extract_formatting`: each of the five keys is present exactly when
      its attribute is found on the first child of that name in the
      paragraph properties or, for the font keys, in the properties of the
      paragraph's first run, and then holds the attribute's text; no other
      key is present. */
  function ExtractFormatting(p: Node): (r: map<string, string>)
    ensures r.Keys <= {"indent-left", "line-spacing", "outline-level", "font-size", "font-family"}
    ensures "indent-left" in r <==> IndentLeft(p).Some?
    ensures "line-spacing" in r <==> LineSpacing(p).Some?
    ensures "outline-level" in r <==> OutlineValue(p).Some?
    ensures "font-size" in r <==> FontSize(p).Some?
    ensures "font-family" in r <==> FontFamily(p).Some?
    ensures "indent-left" in r ==> r["indent-left"] == IndentLeft(p).value
    ensures "line-spacing" in r ==> r["line-spacing"] == LineSpacing(p).value
    ensures "outline-level" in r ==> r["outline-level"] == OutlineValue(p).value
    ensures "font-size" in r ==> r["font-size"] == FontSize(p).value
    ensures "font-family" in r ==> r["font-family"] == FontFamily(p).value
  {
    FormattingMap(IndentLeft(p), LineSpacing(p), OutlineValue(p), FontSize(p), FontFamily(p))
  }

  /** The map `extract_formatting` builds from the five lookups. */
  function FormattingMap(indent: Option<string>, line: Option<string>, outline: Option<string>,
                         size: Option<string>, family: Option<string>): map<string, string>
  {
    var m0 := Put(map[], "indent-left", indent);
    var m1 := Put(m0, "line-spacing", line);
    var m2 := Put(m1, "outline-level", outline);
    var m3 := Put(m2, "font-size", size);
    Put(m3, "font-family", family)
  }

  // ---------------------------------------------------------------------
  // Element type

  /** The outline level when it parses as a `u8`. */
  function OutlineLevel(p: Node): (r: Option<nat>)
    ensures r.Some? ==> r.value <= 255
  {
    match OutlineValue(p)
    case None => None
    case Some(v) =>
      match ParseDecimal(v, false, 0, 255)
      case None => None
      case Some(n) => Some(n as nat)
  }

  /** `determine_element_type`: a heading at exactly the parsed outline
      level; otherwise a table when a direct child is `tbl`; otherwise an
      equation when a direct child is `oMath`; otherwise a paragraph. */
  function DetermineElementType(p: Node): (r: ElementType)
    ensures r.Heading? <==> OutlineLevel(p).Some?
    ensures r.Heading? ==> r.level == OutlineLevel(p).value && r.level <= 255
    ensures r == Table <==> OutlineLevel(p).None? && HasChildNamed(p, "tbl")
    ensures r == Equation <==> OutlineLevel(p).None? && !HasChildNamed(p, "tbl") && HasChildNamed(p, "oMath")
  {
    match OutlineLevel(p)
    case Some(level) => Heading(level)
    case None => ContentType(p)
  }

  /** The type of a paragraph that is not a heading: a table when a
      direct child is `tbl`, an equation when one is `oMath`, else a
      paragraph. */
  function ContentType(p: Node): ElementType {
    if HasChildNamed(p, "tbl") then Table
    else if HasChildNamed(p, "oMath") then Equation
    else Paragraph
  }

  /** An outline value written as the decimal of `n <= 255` gives a heading
      at level `n` itself: the level is not shifted by one. */
  lemma HeadingLevelIsOutlineValue(p: Node, n: nat)
    requires OutlineValue(p) == Some(NatToString(n)) && n <= 255
    ensures DetermineElementType(p) == Heading(n)
  {
    ParseDecimalRoundTrip(n, 0, 255);
  }

  /** A heading's level is the "outline-level" the formatting records. */
  lemma HeadingAgreesWithFormatting(p: Node)
    requires DetermineElementType(p).Heading?
    ensures "outline-level" in ExtractFormatting(p)
    ensures ParseDecimal(ExtractFormatting(p)["outline-level"], false, 0, 255) == Some(DetermineElementType(p).level)
  {
  }

  // ---------------------------------------------------------------------
  // Attribute lookups as written

  /** In a parsed document an attribute key is a local name: a prefix
      such as `w:` is resolved to its namespace and is never part of it. */
  predicate LocalKeys(n: Node) {
    n.Element? ==> forall a | a in n.attrs :: ':' !in a
  }

  /** Every node of the subtree has local attribute keys. */
  predicate AllLocal(n: Node) {
    match n
    case Element(_, attrs, cs) => LocalKeys(n) && forall i | 0 <= i < |cs| :: AllLocal(cs[i])
    case Text(_) => true
  }

  function IndentLeftAsWritten(p: Node): Option<string> { FirstChildAttr(PPrChildren(p), "ind", "w:left") }
  function LineSpacingAsWritten(p: Node): Option<string> { FirstChildAttr(PPrChildren(p), "spacing", "w:line") }
  function OutlineValueAsWritten(p: Node): Option<string> { FirstChildAttr(PPrChildren(p), "outlineLvl", "w:val") }
  function FontSizeAsWritten(p: Node): Option<string> { FirstChildAttr(RPrChildren(p), "sz", "w:val") }
  function FontFamilyAsWritten(p: Node): Option<string> { FirstChildAttr(RPrChildren(p), "rFonts", "w:ascii") }

  /** `extract_formatting` as written: the lookups use the qualified
      names, so a key is present only when an attribute key is literally
      that qualified name. */
  function ExtractFormattingAsWritten(p: Node): (r: map<string, string>)
    ensures r.Keys <= {"indent-left", "line-spacing", "outline-level", "font-size", "font-family"}
    ensures "outline-level" in r <==> OutlineValueAsWritten(p).Some?
  {
    FormattingMap(IndentLeftAsWritten(p), LineSpacingAsWritten(p), OutlineValueAsWritten(p),
                  FontSizeAsWritten(p), FontFamilyAsWritten(p))
  }

  /** `determine_element_type` as written: the outline level is looked up
      by its qualified name. */
  function DetermineElementTypeAsWritten(p: Node): (r: ElementType)
    ensures r.Heading? <==> OutlineValueAsWritten(p).Some? && ParseDecimal(OutlineValueAsWritten(p).value, false, 0, 255).Some?
  {
    if OutlineValueAsWritten(p).Some? && ParseDecimal(OutlineValueAsWritten(p).value, false, 0, 255).Some? then
      Heading(ParseDecimal(OutlineValueAsWritten(p).value, false, 0, 255).value as nat)
    else ContentType(p)
  }

  lemma {:induction false} DescendantsLocal(n: Node)
    requires AllLocal(n)
    ensures forall k | 0 <= k < |Descendants(n)| :: AllLocal(Descendants(n)[k])
    decreases n, 1
  {
    if n.Element? {
      DescendantsOfLocal(n.children);
    }
  }

  lemma {:induction false} DescendantsOfLocal(ns: seq<Node>)
    requires forall i | 0 <= i < |ns| :: AllLocal(ns[i])
    ensures forall k | 0 <= k < |DescendantsOf(ns)| :: AllLocal(DescendantsOf(ns)[k])
    decreases ns, 0
  {
    if ns != [] {
      DescendantsLocal(ns[0]);
      DescendantsOfLocal(ns[1..]);
      var a, b := Descendants(ns[0]), DescendantsOf(ns[1..]);
      forall k | 0 <= k < |a + b| ensures AllLocal((a + b)[k]) {
        if k >= |a| { assert (a + b)[k] == b[k - |a|]; }
      }
    }
  }

  /** The node `FirstNamed` finds among local-keyed nodes is local-keyed. */
  lemma FirstNamedLocal(ns: seq<Node>, name: string)
    requires forall i | 0 <= i < |ns| :: AllLocal(ns[i])
    ensures FirstNamed(ns, name).Some? ==> AllLocal(FirstNamed(ns, name).value)
  {
    FirstNamedMeaning(ns, name);
  }

  /** A qualified key is never found among local-keyed nodes. */
  lemma QualifiedLookupMisses(ns: seq<Node>, name: string, key: string)
    requires forall i | 0 <= i < |ns| :: AllLocal(ns[i])
    requires ':' in key
    ensures FirstChildAttr(ns, name, key).None?
  {
    FirstNamedLocal(ns, name);
  }

  lemma PropertiesLocal(p: Node)
    requires AllLocal(p)
    ensures forall i | 0 <= i < |PPrChildren(p)| :: AllLocal(PPrChildren(p)[i])
    ensures forall i | 0 <= i < |RPrChildren(p)| :: AllLocal(RPrChildren(p)[i])
  {
    FirstNamedLocal(Children(p), "pPr");
    DescendantsLocal(p);
    FirstNamedLocal(Descendants(p), "r");
    match FirstNamed(Descendants(p), "r")
    case None =>
    case Some(run) => FirstNamedLocal(Children(run), "rPr");
  }

  /** As written, `extract_formatting` finds none of its five attributes
      in a parsed document, whatever the paragraph holds. */
  lemma {:induction false} FormattingAsWrittenEmpty(p: Node)
    requires AllLocal(p)
    ensures ExtractFormattingAsWritten(p) == map[]
  {
    PropertiesLocal(p);
    QualifiedLookupMisses(PPrChildren(p), "ind", "w:left");
    QualifiedLookupMisses(PPrChildren(p), "spacing", "w:line");
    QualifiedLookupMisses(PPrChildren(p), "outlineLvl", "w:val");
    QualifiedLookupMisses(RPrChildren(p), "sz", "w:val");
    QualifiedLookupMisses(RPrChildren(p), "rFonts", "w:ascii");
  }

  /** As written, `determine_element_type` never returns a heading for a
      parsed document. */
  lemma {:induction false} NoHeadingAsWritten(p: Node)
    requires AllLocal(p)
    ensures !DetermineElementTypeAsWritten(p).Heading?
  {
    PropertiesLocal(p);
    QualifiedLookupMisses(PPrChildren(p), "outlineLvl", "w:val");
  }

  /** A paragraph with outline level 0: read by local name it is a
      heading at level 0 with that outline level recorded; as written it
      is a plain paragraph with no formatting. */
  lemma HeadingLostAsWritten()
    ensures var p := Element("p", map[], [Element("pPr", map[], [Element("outlineLvl", map["val" := "0"], [])])]);
            DetermineElementType(p) == Heading(0) && ExtractFormatting(p) == map["outline-level" := "0"]
            && DetermineElementTypeAsWritten(p) == Paragraph && ExtractFormattingAsWritten(p) == map[]
  {
    var lvl := Element("outlineLvl", map["val" := "0"], []);
    var ppr := Element("pPr", map[], [lvl]);
    var p := Element("p", map[], [ppr]);
    assert PPrChildren(p) == [lvl];
    assert OutlineValue(p) == Some("0");
    assert Descendants(p) == [p, ppr, lvl] by {
      assert DescendantsOf([lvl]) == [lvl];
      assert DescendantsOf([ppr]) == [ppr, lvl];
    }
    assert FirstNamed([p, ppr, lvl], "r").None? by {
      FirstNamedMeaning([p, ppr, lvl], "r");
      assert "p" != "r" && "pPr" != "r" && "outlineLvl" != "r";
    }
    assert RPrChildren(p) == [];
    assert FirstNamed([lvl], "ind").None? by {
      FirstNamedMeaning([lvl], "ind");
      assert "outlineLvl" != "ind";
    }
    assert FirstNamed([lvl], "spacing").None? by {
      FirstNamedMeaning([lvl], "spacing");
      assert "outlineLvl" != "spacing";
    }
    assert IndentLeft(p).None? && LineSpacing(p).None? && FontSize(p).None? && FontFamily(p).None?;
    assert NatToString(0) == "0";
    HeadingLevelIsOutlineValue(p, 0);
    assert AllLocal(p) by {
      assert ':' !in "val";
      assert AllLocal(lvl);
    }
    NoHeadingAsWritten(p);
    FormattingAsWrittenEmpty(p);
    assert !HasChildNamed(p, "tbl") && !HasChildNamed(p, "oMath");
  }

  // ---------------------------------------------------------------------
  // Text

  /** roxmltree's `text()`: the content of the first child when that child
      is a text node. */
  function FirstText(n: Node): Option<string> {
    if Children(n) != [] && Children(n)[0].Text? then Some(Children(n)[0].content) else None
  }

  /** The piece one `t` element contributes: its trimmed text, if any. */
  function TrimmedText(t: Node): (r: seq<string>)
    ensures |r| <= 1 && forall k | 0 <= k < |r| :: r[k] != ""
  {
    match FirstText(t)
    case None => []
    case Some(s) => if Trim(s, IsRustSpace) == "" then [] else [Trim(s, IsRustSpace)]
  }

  lemma TrimmedTextEmpty(t: Node)
    ensures TrimmedText(t) == [] <==> FirstText(t).None? || AllSpace(FirstText(t).value, IsRustSpace)
  {
  }

  /** `f` applied to the nodes with the given name, the rest skipped. */
  function OnNamed(name: string, f: Node -> seq<string>): Node -> seq<string> {
    n => if Name(n) == name then f(n) else []
  }

  /** One more node: its pieces are added when it has the name. */
  lemma ConcatMapOnNamedStep(xs: seq<Node>, j: nat, name: string, f: Node -> seq<string>)
    requires j < |xs|
    ensures ConcatMap(xs[..j + 1], OnNamed(name, f)) ==
              ConcatMap(xs[..j], OnNamed(name, f)) + (if Name(xs[j]) == name then f(xs[j]) else [])
  {
    assert xs[..j + 1] == xs[..j] + [xs[j]];
    ConcatMapSnoc(xs[..j], xs[j], OnNamed(name, f));
  }

  ghost predicate NoEmptyPiece(f: Node -> seq<string>) {
    forall n, k | 0 <= k < |f(n)| :: f(n)[k] != ""
  }

  lemma NoEmptyPieceConcat(ns: seq<Node>, f: Node -> seq<string>)
    requires NoEmptyPiece(f)
    ensures forall k | 0 <= k < |ConcatMap(ns, f)| :: ConcatMap(ns, f)[k] != ""
  {
    ConcatMapMembers(ns, f);
    forall k | 0 <= k < |ConcatMap(ns, f)| ensures ConcatMap(ns, f)[k] != "" {
      var y := ConcatMap(ns, f)[k];
      assert y in ConcatMap(ns, f);
      var j :| 0 <= j < |ns| && y in f(ns[j]);
    }
  }

  function ParagraphParts(p: Node): seq<string> {
    ConcatMap(Descendants(p), OnNamed("t", TrimmedText))
  }

  /** The text of a paragraph: its non-blank `t` texts, trimmed, joined by
      single spaces. */
  function ParagraphText(p: Node): string {
    Join(ParagraphParts(p), " ")
  }

  /** `extract_text_from_paragraph`. */
  method ExtractTextFromParagraph(p: Node) returns (text: string)
    ensures text == ParagraphText(p)
  {
    var ds := Descendants(p);
    var parts: seq<string> := [];
    var i := 0;
    while i < |ds|
      invariant 0 <= i <= |ds|
      invariant parts == ConcatMap(ds[..i], OnNamed("t", TrimmedText))
    {
      var t := ds[i];
      ConcatMapOnNamedStep(ds, i, "t", TrimmedText);
      if Name(t) == "t" {
        match FirstText(t)
        case Some(txt) =>
          var trimmed := Trim(txt, IsRustSpace);
          if trimmed != "" {
            parts := parts + [trimmed];
          }
        case None =>
      }
      i := i + 1;
    }
    assert ds[..i] == ds;
    text := Join(parts, " ");
  }

  lemma OnNamedNoEmptyPiece(name: string, f: Node -> seq<string>)
    requires NoEmptyPiece(f)
    ensures NoEmptyPiece(OnNamed(name, f))
  {
    forall n, k | 0 <= k < |OnNamed(name, f)(n)| ensures OnNamed(name, f)(n)[k] != "" {
      assert OnNamed(name, f)(n) == f(n);
    }
  }

  /** No `t` element among `ds` has a first text child that is not all
      whitespace. */
  predicate NoText(ds: seq<Node>) {
    forall k | 0 <= k < |ds| && Name(ds[k]) == "t" ::
      FirstText(ds[k]).None? || AllSpace(FirstText(ds[k]).value, IsRustSpace)
  }

  /** A paragraph's text is empty exactly when none of its `t` elements
      has text that is not all whitespace. */
  lemma ParagraphTextEmpty(p: Node)
    ensures ParagraphText(p) == "" <==> NoText(Descendants(p))
  {
    OnNamedNoEmptyPiece("t", TrimmedText);
    NoEmptyPieceConcat(Descendants(p), OnNamed("t", TrimmedText));
    JoinEmpty(ParagraphParts(p), " ");
    PartsEmpty(Descendants(p));
  }

  lemma PartsEmpty(ds: seq<Node>)
    ensures ConcatMap(ds, OnNamed("t", TrimmedText)) == [] <==> NoText(ds)
  {
    var f := OnNamed("t", TrimmedText);
    ConcatMapEmpty(ds, f);
    forall k | 0 <= k < |ds|
      ensures f(ds[k]) == [] <==> Name(ds[k]) != "t" || FirstText(ds[k]).None? || AllSpace(FirstText(ds[k]).value, IsRustSpace)
    {
      TrimmedTextEmpty(ds[k]);
    }
  }

  lemma {:induction false} ConcatMapEmpty<A, B>(xs: seq<A>, f: A -> seq<B>)
    ensures ConcatMap(xs, f) == [] <==> forall k | 0 <= k < |xs| :: f(xs[k]) == []
  {
    if xs != [] {
      var init := xs[..|xs| - 1];
      ConcatMapEmpty(init, f);
      assert forall k | 0 <= k < |init| :: xs[k] == init[k];
    }
  }

  // ---------------------------------------------------------------------
  // Tables

  /** A cell paragraph's text when it is not empty. */
  function NonEmptyText(p: Node): (r: seq<string>)
    ensures forall k | 0 <= k < |r| :: r[k] != ""
  {
    if ParagraphText(p) == "" then [] else [ParagraphText(p)]
  }

  function CellParts(tc: Node): seq<string> {
    ConcatMap(Children(tc), OnNamed("p", NonEmptyText))
  }

  function RowParts(tr: Node): seq<string> {
    ConcatMap(Children(tr), OnNamed("tc", CellParts))
  }

  /** The non-empty texts of the paragraphs directly in the cells directly
      in the rows of the table, row by row, cell by cell. */
  function TableParts(tbl: Node): seq<string> {
    ConcatMap(Children(tbl), OnNamed("tr", RowParts))
  }

  function TableText(tbl: Node): string {
    Join(TableParts(tbl), "\n")
  }

  /** The innermost loop of `extract_table_text`: the paragraphs of one
      cell. */
  method AppendCell(parts: seq<string>, tc: Node) returns (updated: seq<string>)
    ensures updated == parts + CellParts(tc)
  {
    updated := parts;
    var ps := Children(tc);
    var k := 0;
    while k < |ps|
      invariant 0 <= k <= |ps|
      invariant updated == parts + ConcatMap(ps[..k], OnNamed("p", NonEmptyText))
    {
      var p := ps[k];
      ConcatMapOnNamedStep(ps, k, "p", NonEmptyText);
      if Name(p) == "p" {
        var cellText := ExtractTextFromParagraph(p);
        if cellText != "" {
          updated := updated + [cellText];
        }
      }
      k := k + 1;
    }
    assert ps[..k] == ps;
  }

  /** The middle loop of `extract_table_text`: the cells of one row. */
  method AppendRow(parts: seq<string>, tr: Node) returns (updated: seq<string>)
    ensures updated == parts + RowParts(tr)
  {
    updated := parts;
    var cs := Children(tr);
    var j := 0;
    while j < |cs|
      invariant 0 <= j <= |cs|
      invariant updated == parts + ConcatMap(cs[..j], OnNamed("tc", CellParts))
    {
      var tc := cs[j];
      ConcatMapOnNamedStep(cs, j, "tc", CellParts);
      if Name(tc) == "tc" {
        updated := AppendCell(updated, tc);
      }
      j := j + 1;
    }
    assert cs[..j] == cs;
  }

  /** `extract_table_text`. */
  method ExtractTableText(tbl: Node) returns (text: string)
    ensures text == TableText(tbl)
  {
    var parts: seq<string> := [];
    var rs := Children(tbl);
    var i := 0;
    while i < |rs|
      invariant 0 <= i <= |rs|
      invariant parts == ConcatMap(rs[..i], OnNamed("tr", RowParts))
    {
      var tr := rs[i];
      ConcatMapOnNamedStep(rs, i, "tr", RowParts);
      if Name(tr) == "tr" {
        parts := AppendRow(parts, tr);
      }
      i := i + 1;
    }
    assert rs[..i] == rs;
    text := Join(parts, "\n");
  }

  /** No piece of a table's text is empty, so the text is empty exactly
      when no cell paragraph has text. */
  lemma TableTextEmpty(tbl: Node)
    ensures forall k | 0 <= k < |TableParts(tbl)| :: TableParts(tbl)[k] != ""
    ensures TableText(tbl) == "" <==> TableParts(tbl) == []
  {
    OnNamedNoEmptyPiece("p", NonEmptyText);
    forall n, k | 0 <= k < |CellParts(n)| ensures CellParts(n)[k] != "" {
      NoEmptyPieceConcat(Children(n), OnNamed("p", NonEmptyText));
    }
    OnNamedNoEmptyPiece("tc", CellParts);
    forall n, k | 0 <= k < |RowParts(n)| ensures RowParts(n)[k] != "" {
      NoEmptyPieceConcat(Children(n), OnNamed("tc", CellParts));
    }
    OnNamedNoEmptyPiece("tr", RowParts);
    NoEmptyPieceConcat(Children(tbl), OnNamed("tr", RowParts));
    JoinEmpty(TableParts(tbl), "\n");
  }

  /** `extract_formatting_for_table`. */
  const TableFormatting: map<string, string> := map["element-type" := "table"]

  // ---------------------------------------------------------------------
  // Sections of a document

  const DocumentXml: string := "word/document.xml"

  function ParagraphPath(id: nat): string {
    "word/document.xml#/w:document/w:body/w:p[" + NatToString(id) + "]"
  }

  function TablePath(id: nat): string {
    "word/document.xml#/w:document/w:body/w:tbl[" + NatToString(id) + "]"
  }

  function ParagraphSection(p: Node, id: nat): DocumentSection {
    DocumentSection(id, DetermineElementType(p), ParagraphText(p), ExtractFormatting(p), ParagraphPath(id))
  }

  function TableSection(tbl: Node, id: nat): DocumentSection {
    DocumentSection(id, Table, TableText(tbl), TableFormatting, TablePath(id))
  }

  /** The elements with the given name, in document order. */
  function Named(ns: seq<Node>, name: string): seq<Node> {
    ConcatMap(ns, n => if Name(n) == name then [n] else [])
  }

  lemma NamedStep(xs: seq<Node>, j: nat, name: string)
    requires j < |xs|
    ensures Named(xs[..j + 1], name) == Named(xs[..j], name) + (if Name(xs[j]) == name then [xs[j]] else [])
  {
    assert xs[..j + 1] == xs[..j] + [xs[j]];
    ConcatMapSnoc(xs[..j], xs[j], n => if Name(n) == name then [n] else []);
  }

  /** The sections `mk` makes of `ns`, numbered from `first`. */
  function NumberFrom(ns: seq<Node>, first: nat, mk: (Node, nat) -> DocumentSection): (r: seq<DocumentSection>)
    ensures |r| == |ns|
  {
    if ns == [] then [] else NumberFrom(ns[..|ns| - 1], first, mk) + [mk(ns[|ns| - 1], first + |ns| - 1)]
  }

  /** The `k`-th section is made of the `k`-th node with id `first + k`. */
  lemma {:induction false} NumberFromAt(ns: seq<Node>, first: nat, mk: (Node, nat) -> DocumentSection)
    ensures forall k | 0 <= k < |ns| :: NumberFrom(ns, first, mk)[k] == mk(ns[k], first + k)
  {
    if ns != [] {
      var init := ns[..|ns| - 1];
      NumberFromAt(init, first, mk);
      assert forall k | 0 <= k < |init| :: ns[k] == init[k];
    }
  }

  /** Every paragraph below the root, then every table, numbered on from 1. */
  function DocxSections(root: Node): seq<DocumentSection> {
    var ps := Named(Descendants(root), "p");
    var ts := Named(Descendants(root), "tbl");
    NumberFrom(ps, 1, ParagraphSection) + NumberFrom(ts, |ps| + 1, TableSection)
  }

  /** The first loop of `parse`: a section for every `p` element. */
  method ParagraphSections(ds: seq<Node>) returns (sections: seq<DocumentSection>)
    ensures sections == NumberFrom(Named(ds, "p"), 1, ParagraphSection)
  {
    sections := [];
    var sectionId := 1;
    var i := 0;
    while i < |ds|
      invariant 0 <= i <= |ds|
      invariant sections == NumberFrom(Named(ds[..i], "p"), 1, ParagraphSection)
      invariant sectionId == |sections| + 1
    {
      var node := ds[i];
      var section := ParagraphSectionOf(node, sectionId);
      assert section == ParagraphSection(ds[i], 1 + |sections|);
      NumberedStep(ds, i, "p", 1, ParagraphSection, sections, section);
      if Name(node) == "p" {
        sections := sections + [section];
        sectionId := sectionId + 1;
      }
      assert sections == NumberFrom(Named(ds[..i + 1], "p"), 1, ParagraphSection);
      i := i + 1;
    }
    assert ds[..i] == ds;
  }

  /** The body of the first loop: the section of one paragraph. */
  method ParagraphSectionOf(node: Node, sectionId: nat) returns (section: DocumentSection)
    ensures section == ParagraphSection(node, sectionId)
  {
    var text := ExtractTextFromParagraph(node);
    var formatting := ExtractFormatting(node);
    var elementType := DetermineElementType(node);
    section := DocumentSection(sectionId, elementType, text, formatting, ParagraphPath(sectionId));
  }

  /** The second loop of `parse`: a section for every `tbl` element, the
      ids going on from `first`. */
  method TableSections(ds: seq<Node>, first: nat) returns (sections: seq<DocumentSection>)
    ensures sections == NumberFrom(Named(ds, "tbl"), first, TableSection)
  {
    sections := [];
    var sectionId := first;
    var i := 0;
    while i < |ds|
      invariant 0 <= i <= |ds|
      invariant sections == NumberFrom(Named(ds[..i], "tbl"), first, TableSection)
      invariant sectionId == first + |sections|
    {
      var node := ds[i];
      var section := TableSectionOf(node, sectionId);
      NumberedStep(ds, i, "tbl", first, TableSection, sections, section);
      if Name(node) == "tbl" {
        sections := sections + [section];
        sectionId := sectionId + 1;
      }
      i := i + 1;
    }
    assert ds[..i] == ds;
  }

  /** The body of the second loop: the section of one table. */
  method TableSectionOf(node: Node, sectionId: nat) returns (section: DocumentSection)
    ensures section == TableSection(node, sectionId)
  {
    var text := ExtractTableText(node);
    section := DocumentSection(sectionId, Table, text, TableFormatting, TablePath(sectionId));
  }

  /** One more node in a numbering loop: the section made of it is added
      when it has the name, with the next id. */
  lemma NumberedStep(ds: seq<Node>, i: nat, name: string, first: nat, mk: (Node, nat) -> DocumentSection,
                     sections: seq<DocumentSection>, s: DocumentSection)
    requires i < |ds| && sections == NumberFrom(Named(ds[..i], name), first, mk)
    requires s == mk(ds[i], first + |sections|)
    ensures NumberFrom(Named(ds[..i + 1], name), first, mk) == if Name(ds[i]) == name then sections + [s] else sections
  {
    var ns := Named(ds[..i], name);
    NamedStep(ds, i, name);
    if Name(ds[i]) == name {
      var more := ns + [ds[i]];
      assert more[..|more| - 1] == ns;
      assert NumberFrom(more, first, mk) == NumberFrom(ns, first, mk) + [mk(ds[i], first + |ns|)];
    } else {
      assert Named(ds[..i + 1], name) == ns;
    }
  }

  /** `DocxParser::parse`: an error when `word/document.xml` is missing or
      not well-formed; otherwise the paragraphs, then the tables, no
      positions, no page count, and the path and size as given. */
  method ParseDocx(path: string, archive: map<string, XmlPart>, fileSize: nat) returns (r: Result<CoreLayout.DocumentTree>)
    ensures r.Ok? <==> DocumentXml in archive && archive[DocumentXml].Wellformed?
    ensures r.Ok? ==> r.value.sections == DocxSections(archive[DocumentXml].root)
    ensures r.Ok? ==> r.value.positions == map[]
    ensures r.Ok? ==> r.value.metadata == CoreLayout.FileMetadata(0, path, fileSize, None, None)
  {
    if DocumentXml !in archive {
      return Err("word/document.xml: file not found in archive");
    }
    if archive[DocumentXml].Malformed? {
      return Err("word/document.xml: malformed XML");
    }
    var sections := DocxSectionsOf(archive[DocumentXml].root);
    var tree := new CoreLayout.DocumentTree.Literal(sections, CoreLayout.FileMetadata(0, path, fileSize, None, None));
    r := Ok(tree);
  }

  /** The two loops of `parse` over the elements below the root. */
  method DocxSectionsOf(root: Node) returns (sections: seq<DocumentSection>)
    ensures sections == DocxSections(root)
  {
    var ds := Descendants(root);
    var paragraphs := ParagraphSections(ds);
    var tables := TableSections(ds, |paragraphs| + 1);
    sections := paragraphs + tables;
  }

  /** Two numberings, the second going on where the first stops: the
      `k`-th section of each half is made of its `k`-th node. */
  lemma NumberedHalves(a: seq<Node>, b: seq<Node>, mkA: (Node, nat) -> DocumentSection, mkB: (Node, nat) -> DocumentSection)
    ensures var all := NumberFrom(a, 1, mkA) + NumberFrom(b, |a| + 1, mkB);
            |all| == |a| + |b|
            && (forall k | 0 <= k < |a| :: all[k] == mkA(a[k], k + 1))
            && (forall k | 0 <= k < |b| :: all[|a| + k] == mkB(b[k], |a| + k + 1))
  {
    NumberFromAt(a, 1, mkA);
    NumberFromAt(b, |a| + 1, mkB);
  }

  /** The sections of a document: one per paragraph, blank or not, in
      document order with ids 1, 2, ..., then one per table with the ids
      going on. */
  lemma DocxSectionsAt(root: Node, ps: seq<Node>, ts: seq<Node>)
    requires ps == Named(Descendants(root), "p") && ts == Named(Descendants(root), "tbl")
    ensures |DocxSections(root)| == |ps| + |ts|
    ensures forall k | 0 <= k < |ps| :: DocxSections(root)[k] == ParagraphSection(ps[k], k + 1)
    ensures forall k | 0 <= k < |ts| :: DocxSections(root)[|ps| + k] == TableSection(ts[k], |ps| + k + 1)
  {
    assert DocxSections(root) == NumberFrom(ps, 1, ParagraphSection) + NumberFrom(ts, |ps| + 1, TableSection);
    NumberedHalves(ps, ts, ParagraphSection, TableSection);
  }

  /** Ids are consecutive from 1 over paragraphs and tables together, and
      every table section has the fixed table formatting. */
  lemma DocxSectionsNumbered(root: Node, ps: seq<Node>, ts: seq<Node>)
    requires ps == Named(Descendants(root), "p") && ts == Named(Descendants(root), "tbl")
    ensures forall k | 0 <= k < |DocxSections(root)| :: DocxSections(root)[k].id == k + 1
    ensures forall k | |ps| <= k < |DocxSections(root)| ::
              DocxSections(root)[k].elementType == Table
              && DocxSections(root)[k].formatting == map["element-type" := "table"]
  {
    DocxSectionsAt(root, ps, ts);
    var all := DocxSections(root);
    forall k | 0 <= k < |all| ensures all[k].id == k + 1 {
      if k >= |ps| {
        assert all[|ps| + (k - |ps|)] == TableSection(ts[k - |ps|], k + 1);
      } else {
        assert all[k] == ParagraphSection(ps[k], k + 1);
      }
    }
    forall k | |ps| <= k < |all|
      ensures all[k].elementType == Table && all[k].formatting == TableFormatting
    {
      assert all[|ps| + (k - |ps|)] == TableSection(ts[k - |ps|], k + 1);
    }
  }

  /** `Named` keeps exactly the nodes with that name, in order. */
  lemma NamedMeaning(ns: seq<Node>, name: string)
    ensures forall n | n in Named(ns, name) :: Name(n) == name && n in ns
    ensures forall n | n in ns && Name(n) == name :: n in Named(ns, name)
  {
    var f := (n: Node) => if Name(n) == name then [n] else [];
    ConcatMapMembers(ns, f);
    forall n | n in Named(ns, name) ensures Name(n) == name && n in ns {
      var j :| 0 <= j < |ns| && n in f(ns[j]);
    }
    forall n | n in ns && Name(n) == name ensures n in Named(ns, name) {
      var j :| 0 <= j < |ns| && ns[j] == n;
      assert n in f(ns[j]);
    }
  }
}
