# Document auditor: a verified model of its core

The system audits academic documents. A Rust service (`services/parser-rs`)
reads WordprocessingML (.docx) and PDF files into numbered content sections:
it resolves the style cascade, classifies paragraphs, tables, equations and
headings, and rebuilds the outline tree with a stack of open headings. It can
also write reviewer comments back into the .docx archive by patching three of
its parts as strings, with comment ids drawn from a process-wide counter. The
sections go to the wire protocol through a formatter, which detects the
reference list and collects citations, and through protobuf conversions. A
Python inference service (`services/inference-py`) runs rule-based detectors
over the sections: typos, punctuation, colloquial style, sentence packing for
a language model, abbreviation and summary/conclusion checks, reference
completeness, and a sliding window over the document. A Java engine derives
its HTTP and gRPC ports from the environment. A Go gateway keeps tasks in an
in-memory map.

This project models each of those core files as a Dafny module:

- Pure code becomes datatypes, functions and lemmas.
- Loops that update state become methods with loop invariants. Each method is
  proved equal to a reference function, and the properties are proved about
  that function.
- Objects whose fields change become classes: the task store, the checker's
  term dictionary and the flat document tree.

Shared value types live in `sections.dfy`, `inference_types.dfy`, `xml.dfy`
(an element tree in place of a parsed XML document), `text.dfy` (string
helpers, per-language whitespace and integer parsing), `seqs.dfy` and
`wrappers.dfy`.

Some choices follow the code where the design intent differs:

- `resolve_style` fills properties walking from the root of the `basedOn`
  chain, so the style nearest the root wins for a property both set; the
  model keeps that order.
- A malformed `word/styles.xml` fails the whole parse, because of the `?`
  after the style parse, rather than giving an empty catalog.
- The built-in default style is applied, but its values equal the "unset"
  sentinels 12 and "Times New Roman", so in effect it changes nothing.

## Model

| member | source | states |
|---|---|---|
| DocxParsing.ParseI32 | services/parser-rs/src/docx_parser.rs:120 | `parse::<i32>` gives a value only inside the 32-bit signed range |
| DocxParsing.ParseU32 | services/parser-rs/src/docx_parser.rs:297 | `parse::<u32>` gives a value only inside the 32-bit unsigned range |
| DocxParsing.LastDefinition | services/parser-rs/src/docx_parser.rs:76-108 | the index found holds a record defining the id, no later record defines it, and none is found only when no record defines it |
| DocxParsing.CatalogLookup | services/parser-rs/src/docx_parser.rs:100-108 | inserting the style records in order maps each id to its last record and keeps the earlier catalog for other ids |
| DocxParsing.NearestRootMeaning | services/parser-rs/src/docx_parser.rs:185-216 | the inherited value of a property is the one of the record nearest the root that sets it, and is absent exactly when no record sets it |
| DocxParsing.InheritedStep | services/parser-rs/src/docx_parser.rs:189-213 | one more record of the reverse walk fills only the properties still unset |
| DocxParsing.ChainResolves | services/parser-rs/src/docx_parser.rs:160-183 | a chain of known, unvisited records ending in a record without `basedOn` resolves to that root record filled along the chain |
| DocxParsing.ResolvedHasChain | services/parser-rs/src/docx_parser.rs:160-183 | every successful resolution follows such a chain |
| DocxParsing.ResolveIffChain | services/parser-rs/src/docx_parser.rs:160-183 | a style resolves exactly when a finite `basedOn` chain of known records reaches a root, and then to the root with its unset properties filled along the chain |
| DocxParsing.SelfBasedFails | services/parser-rs/src/docx_parser.rs:165-169 | a style based on itself is a cycle and never resolves |
| DocxParsing.InheritedFromRoot | services/parser-rs/src/docx_parser.rs:185-216 | filling starts from the root record's own values, so the most basic style's value wins for each property |
| DocxParsing.NearestRootOfLast | services/parser-rs/src/docx_parser.rs:189-213 | a property the root record sets is taken from the root |
| DocxParsing.LineSpacingExamples | services/parser-rs/src/docx_parser.rs:286-293 | `line` 360 renders "1.5", 1200 renders "60pt" and 276 renders the "1.15" default |
| DocxParsing.NodeText | services/parser-rs/src/docx_parser.rs:241-251 | the collected text has no carriage return or line feed |
| DocxParsing.OutlineLevel | services/parser-rs/src/docx_parser.rs:295-300 | the last parsable `outlineLvl` value plus one, wrapping at 2^32, stays inside u32 |
| DocxParsing.OwnIndentPrefixStep | services/parser-rs/src/docx_parser.rs:281-285 | a later `ind` with a parsable `firstLine` replaces the indent, other children leave it |
| DocxParsing.OwnLinePrefixStep | services/parser-rs/src/docx_parser.rs:286-294 | a later `spacing` with a parsable `line` replaces the spacing, other children leave it |
| DocxParsing.OutlinePrefixStep | services/parser-rs/src/docx_parser.rs:295-301 | a later parsable `outlineLvl` replaces the level, other children leave it |
| DocxParsing.FirstDecidedMeaning | services/parser-rs/src/docx_parser.rs:312-339 | the run loop takes each value from the first run that decides it, and keeps the default exactly when no run does |
| DocxParsing.FirstDecidedAppend | services/parser-rs/src/docx_parser.rs:312-339 | later runs are consulted only when the earlier ones decide nothing |
| DocxParsing.FirstDecidedSingle | services/parser-rs/src/docx_parser.rs:315-332 | a single run decides exactly what it declares |
| DocxParsing.FirstDecidedStays | services/parser-rs/src/docx_parser.rs:334-337 | once decided, later runs cannot change a value, so stopping early changes nothing |
| DocxParsing.FamilyFrom | services/parser-rs/src/docx_parser.rs:351-359 | a style's fonts supply their `ascii` font, else their `eastAsia` font, else the family is kept |
| DocxParsing.ApplyStyle | services/parser-rs/src/docx_parser.rs:341-391 | values found on the paragraph win; a size, family or spacing still at its sentinel comes from the resolved style when it sets it (the family from its `ascii`, else `eastAsia` font); an unresolved style leaves the values as they were |
| DocxParsing.TrailingDigit | services/parser-rs/src/docx_parser.rs:396 | the digit a style id ends with is at most 9 |
| DocxParsing.ParagraphKind | services/parser-rs/src/docx_parser.rs:393-421 | heading exactly for an outline level, a "Heading" prefix or "标题" in the style id, with the level capped at 255 and taken from the outline or the trailing digit (default 1); table exactly for a non-heading with a `tbl` child; equation exactly for text containing "OMML", "Math" or "math"; paragraph otherwise |
| DocxParsing.ParagraphFormatting | services/parser-rs/src/docx_parser.rs:402-408 | the map holds font size, line spacing and family, plus the first-line indent only when one was found, with the size rendered in points |
| DocxParsing.ParagraphSection | services/parser-rs/src/docx_parser.rs:253-257 | no section exactly when the text is blank after trimming; otherwise the given id and the collected text |
| DocxParsing.NodeSection | services/parser-rs/src/docx_parser.rs:494-501 | the node at position `offset` yields a section numbered `offset + 1` with path `document.xml#offset_<offset>`, only for `p` and `tbl`, and always for `tbl` |
| DocxParsing.YieldedIds | services/parser-rs/src/docx_parser.rs:489-503 | the kept sections are at most the nodes, numbered inside 1..n and strictly increasing |
| DocxParsing.YieldedComplete | services/parser-rs/src/docx_parser.rs:494-503 | a node yields a section exactly when some kept section carries its number, and that section is the one it yields |
| DocxParsing.NodeSections | services/parser-rs/src/docx_parser.rs:491-503 | one entry per node, each what that node yields at its position |
| DocxParsing.ArchiveSections | services/parser-rs/src/docx_parser.rs:489-510 | the document's sections are numbered by node position, strictly increasing, skipping the nodes that yield nothing |
| DocxParsing.ArchiveSectionsComplete | services/parser-rs/src/docx_parser.rs:494-503 | every node that yields a section contributes exactly that section, and no other section carries its number |
| DocxParsing.DocxParser.constructor | services/parser-rs/src/docx_parser.rs:59-61 | a new parser has an empty style catalog |
| DocxParsing.DocxParser.ParseParagraphPropertiesFromNode | services/parser-rs/src/docx_parser.rs:114-137 | the loop over the `pPr` children gives the properties the children define, later children overriding earlier ones |
| DocxParsing.DocxParser.ParseRunPropertiesFromNode | services/parser-rs/src/docx_parser.rs:139-158 | the loop over the `rPr` children gives the size and fonts they define, later children overriding earlier ones |
| DocxParsing.DocxParser.ParseStylesXml | services/parser-rs/src/docx_parser.rs:72-112 | a malformed part is an error and leaves the catalog; a well-formed one adds each `style` record with a `styleId`, later ones replacing earlier |
| DocxParsing.DocxParser.ApplyInheritedProperties | services/parser-rs/src/docx_parser.rs:185-216 | the reverse walk computes the inherited style of the chain |
| DocxParsing.DocxParser.ResolveStyle | services/parser-rs/src/docx_parser.rs:160-183 | the visited-list loop computes the resolution, which the chain lemmas characterise |
| DocxParsing.DocxParser.ExtractTextFromNode | services/parser-rs/src/docx_parser.rs:241-251 | the descendant loop computes the node's text without line breaks |
| DocxParsing.DocxParser.ScanParagraphProperties | services/parser-rs/src/docx_parser.rs:278-305 | the one pass over the first `pPr` gives the last parsable indent, spacing and outline level |
| DocxParsing.DocxParser.ScanProperty | services/parser-rs/src/docx_parser.rs:280-302 | one child of `pPr`: an `ind`, `spacing` or `outlineLvl` child whose attribute parses replaces exactly that value (the outline level plus one, wrapping at 2^32); any other child changes nothing |
| DocxParsing.DocxParser.ScanRun | services/parser-rs/src/docx_parser.rs:313-333 | one run fills only the size and family not yet decided |
| DocxParsing.DocxParser.ScanRuns | services/parser-rs/src/docx_parser.rs:312-339 | the run loop, with its early exit, gives the first deciding run's size and family |
| DocxParsing.DocxParser.ParseParagraph | services/parser-rs/src/docx_parser.rs:253-430 | the method computes the paragraph's section as specified by `ParagraphSection` |
| DocxParsing.DocxParser.ParseTable | services/parser-rs/src/docx_parser.rs:432-444 | a table is a section with its text, a 12pt font size and its offset path |
| DocxParsing.DocxParser.ParseNodes | services/parser-rs/src/docx_parser.rs:489-503 | the node loop computes the numbered sections of the document |
| DocxParsing.DocxParser.ParseArchive | services/parser-rs/src/docx_parser.rs:472-511 | styles first (a malformed styles part fails the parse), then a missing or malformed document part fails, else the numbered sections |
| DocumentProcessor.WordCountBounds | services/parser-rs/src/utils/document_processor.rs:201 | `split_whitespace().count()` is zero exactly for an all-whitespace text, and a text of n characters has at most about n/2 words |
| DocumentProcessor.SectionIssues | services/parser-rs/src/utils/document_processor.rs:199-233 | one section yields at most three issues, each tied to that section and numbered its position plus 1, 2 or 3 |
| DocumentProcessor.SectionIssuesMeaning | services/parser-rs/src/utils/document_processor.rs:199-233 | the length issue exactly for more than 100 words, the font issue exactly for a paragraph whose font size is neither "12" nor "24", the heading issue exactly for a level above 6, in that order |
| DocumentProcessor.SectionIssueIds | services/parser-rs/src/utils/document_processor.rs:199-233 | a section yields one issue per rule that fires, in rule order, the length issue numbered index + 1, the font issue index + 2 and the heading issue index + 3 |
| DocumentProcessor.CheckSection | services/parser-rs/src/utils/document_processor.rs:199-233 | the loop body computes the section's issues |
| DocumentProcessor.GenerateSampleIssues | services/parser-rs/src/utils/document_processor.rs:189-238 | the loop over the sections collects every section's issues in order |
| DocumentProcessor.SampleIssuesOrigin | services/parser-rs/src/utils/document_processor.rs:195-234 | at most three issues per section; every issue carries the id of a section and is numbered that section's position plus 1 to 3 |
| DocumentProcessor.IssueIdsCanCollide | services/parser-rs/src/utils/document_processor.rs:204-228 | ids come from positions only: a too-deep heading at position 0 and an odd-sized paragraph at position 1 both get issue id 3 |
| DocumentProcessor.SplitName | services/parser-rs/src/utils/document_processor.rs:81-84 | the extension is what follows the last dot of a name whose stem is not empty; without one the whole name is the stem |
| DocumentProcessor.AnnotatedName | services/parser-rs/src/utils/document_processor.rs:100-104 | the annotated copy's name ends with the lower-cased extension |
| DocumentProcessor.IssuesName | services/parser-rs/src/utils/document_processor.rs:250-253 | the issues file's name ends with "_issues.txt" |
| DocumentProcessor.AnnotatedNameKeepsStem | services/parser-rs/src/utils/document_processor.rs:100-104 | "stem.ext" is annotated as "stem_annotated.ext" with the extension lower-cased |
| DocumentProcessor.ApplyAnnotations | services/parser-rs/src/utils/document_processor.rs:162-185 | "docx" goes to the annotation writer and fails exactly when the document part does not parse; every other extension is a copy and leaves the comment counter alone |
| DocumentProcessor.Outputs | services/parser-rs/src/utils/document_processor.rs:80-152 | a .docx or .pdf that parses with issues gets an annotated copy and, when annotating succeeded, an issues file; otherwise it is copied under the annotated name; every other file is copied under its own name |
| Writer.WrapI32 | services/parser-rs/src/core/writer.rs:10 | a value taken into the `i32` range stays in it and values already inside are unchanged |
| Writer.WrapSucc | services/parser-rs/src/core/writer.rs:115 | wrapping then adding one wraps like adding one outright |
| Writer.AdvancedWraps | services/parser-rs/src/core/writer.rs:115 | advancing the counter k times is adding k modulo 2^32, plain addition below the top of the range |
| Writer.CommentCounter.constructor | services/parser-rs/src/core/writer.rs:10 | the comment counter starts at 1 |
| Writer.CommentCounter.FetchAdd | services/parser-rs/src/core/writer.rs:115 | `fetch_add(1)` returns the previous value and advances the counter with wrap-around |
| Writer.CommentCounter.Load | services/parser-rs/src/core/writer.rs:154 | `load()` reads a value in the `i32` range |
| Writer.DrawnIds | services/parser-rs/src/core/writer.rs:114-117 | n successive draws give n ids |
| Writer.DrawnIdsAt | services/parser-rs/src/core/writer.rs:114-117 | the k-th draw returns the starting value advanced k times |
| Writer.DrawnIdsIncrease | services/parser-rs/src/core/writer.rs:114-117 | below the top of the range the drawn ids are consecutive from the start value, so none repeats |
| Writer.References | services/parser-rs/src/core/writer.rs:114-117 | one reference element per id |
| Writer.ReferencesAt | services/parser-rs/src/core/writer.rs:116 | the k-th reference names the k-th id |
| Writer.PatchDocumentInserts | services/parser-rs/src/core/writer.rs:113-125 | no issues or no `</w:body>` leaves the content; otherwise one block of references joined by spaces is inserted right before the last `</w:body>` and every other character is kept |
| Writer.FirstWithId | services/parser-rs/src/core/writer.rs:154 | `position` finds the first issue with the id, or none when no issue has it |
| Writer.CommentIdsByFirstPosition | services/parser-rs/src/core/writer.rs:154 | issues with equal ids get equal comment ids, and an issue whose id is new is numbered the counter minus its own position |
| Writer.CommentIds | services/parser-rs/src/core/writer.rs:153-154 | one comment id per issue |
| Writer.CommentBlocks | services/parser-rs/src/core/writer.rs:155-173 | one comment element per issue with its id, the timestamp taken for it and its escaped message |
| Writer.InsertEachInOrder | services/parser-rs/src/core/writer.rs:176-178 | each insertion before the last closing tag lands after the previous ones, so the comments follow the existing content in issue order; without the tag nothing changes |
| Writer.InsertKeepsLast | services/parser-rs/src/core/writer.rs:176-178 | an insertion before the last tag keeps that tag the last one |
| Writer.RelationshipNamesComments | services/parser-rs/src/core/writer.rs:209-210 | the added relationship names `comments.xml` |
| Writer.PatchRelsIdempotent | services/parser-rs/src/core/writer.rs:206-215 | after the patch the part names `comments.xml` exactly when it already did or has a closing tag, so patching twice is patching once |
| Writer.PartsDistinct | services/parser-rs/src/core/writer.rs:90-190 | the document, comments and relationships paths are different |
| Writer.RelsStepIdempotent | services/parser-rs/src/core/writer.rs:188-221 | the relationships step applied twice is the step applied once |
| Writer.ReferencesStep | services/parser-rs/src/core/writer.rs:114-117 | one more draw adds the reference for the next counter value |
| Writer.DrawReferences | services/parser-rs/src/core/writer.rs:114-117 | the map over the issues draws one counter value per issue, in order, and advances the counter by n |
| Writer.AppendComments | services/parser-rs/src/core/writer.rs:153-179 | the loop inserts every issue's comment before the last `</w:comments>` with the ids as written |
| Writer.ExtractedArchive.constructor | services/parser-rs/src/core/writer.rs:47-61 | the extracted archive holds the original parts |
| Writer.ExtractedArchive.UpdateDocumentXmlWithComments | services/parser-rs/src/core/writer.rs:87-131 | fails exactly when the document part exists and does not parse, then changing nothing; otherwise patches the document part and advances the counter once per issue, or skips a missing part |
| Writer.ExtractedArchive.UpdateCommentsXml | services/parser-rs/src/core/writer.rs:134-185 | the comments part, or the skeleton, gets the comments; the counter is only read |
| Writer.ExtractedArchive.UpdateRelationships | services/parser-rs/src/core/writer.rs:188-221 | the relationships part, or the skeleton, gets the comments relationship once |
| Writer.WriteAnnotations | services/parser-rs/src/core/writer.rs:27-82 | fails exactly when the document part does not parse, leaving the counter; otherwise the archive after the three steps in order |
| Writer.AnnotatedKeepsOthers | services/parser-rs/src/core/writer.rs:63-70 | every part other than the three patched ones keeps its content |
| Writer.AnnotatedWithoutDocument | services/parser-rs/src/core/writer.rs:91-93 | without a document part the result has none, but always has a comments and a relationships part |
| Writer.AnnotatedCommentsWithoutDocument | services/parser-rs/src/core/writer.rs:91-93 | without a document part the counter is not advanced, so the comments are numbered from its value as it was |
| Writer.CommentIdsMismatch | services/parser-rs/src/core/writer.rs:115-154 | as written, one issue with the counter at 1 is referenced as id 1 but its comment is numbered 2 |
| Writer.CommentIdsAsWritten | services/parser-rs/src/core/writer.rs:115-154 | as written, an issue first appearing at position k of n is referenced as c + k but commented as c + n - k |
| Writer.MatchingCommentIds | services/parser-rs/src/core/writer.rs:153-154 | the corrected numbering gives one id per issue |
| Writer.MatchingCommentIdsAgree | services/parser-rs/src/core/writer.rs:114-154 | with the corrected numbering the k-th reference and the k-th comment carry the same id, the k-th value drawn |
| Writer.AnnotatedMatchingComments | services/parser-rs/src/core/writer.rs:134-185 | with the corrected numbering the comments part numbers its comments with the drawn values in issue order |
| Writer.AnnotatedMatchingDocument | services/parser-rs/src/core/writer.rs:87-131 | with the corrected numbering the document part references the same drawn values, and exists exactly when it existed |
| CoreLayout.FirstIndexWithId | services/parser-rs/src/core/layout.rs:47-49 | the index found holds a section with the id |
| CoreLayout.FirstIndexWithIdMeaning | services/parser-rs/src/core/layout.rs:47-49 | `find` gives the earliest section with the id, and nothing exactly when no section has it |
| CoreLayout.WithText | services/parser-rs/src/core/layout.rs:57-61 | updating keeps the number of sections |
| CoreLayout.WithTextChangesFirstOnly | services/parser-rs/src/core/layout.rs:57-61 | an absent id changes nothing; otherwise only the first section with the id changes, and only its raw text |
| CoreLayout.DocumentTree.constructor | services/parser-rs/src/core/layout.rs:32-38 | a new tree has no sections, no positions and default metadata |
| CoreLayout.DocumentTree.Literal | services/parser-rs/src/core/pdf_parser.rs:54-64 | the tree the parsers build holds the given sections and metadata and no positions |
| CoreLayout.DocumentTree.AddSectionWithPosition | services/parser-rs/src/core/layout.rs:41-44 | the section is appended and its id maps to the position, replacing any earlier entry; the section and position are then found by that id |
| CoreLayout.DocumentTree.GetSectionById | services/parser-rs/src/core/layout.rs:47-49 | a section found is in the tree and has the id |
| CoreLayout.DocumentTree.GetPositionById | services/parser-rs/src/core/layout.rs:52-54 | a position is found exactly for a recorded id, and it is the recorded one |
| CoreLayout.DocumentTree.UpdateSection | services/parser-rs/src/core/layout.rs:57-61 | the first section with the id gets the new text; positions and metadata are untouched |
| CoreLayout.GetSectionByIdMeaning | services/parser-rs/src/core/layout.rs:47-49 | a section is found exactly when one has the id, and then it is the first of them |
| PdfParsing.NonBlankMeaning | services/parser-rs/src/core/pdf_parser.rs:32-35 | each non-blank line of a page yields an entry, and each entry is a non-blank line of that page |
| PdfParsing.Numbered | services/parser-rs/src/core/pdf_parser.rs:38-47 | one section per entry |
| PdfParsing.ParsePdf | services/parser-rs/src/core/pdf_parser.rs:15-65 | a document that does not load is an error; otherwise the numbered sections of every page, no positions, and the page count truncated to 32 bits |
| PdfParsing.AppendPage | services/parser-rs/src/core/pdf_parser.rs:34-49 | the inner loop appends one section per non-blank line, ids continuing from the sections so far |
| PdfParsing.NumberedSnoc | services/parser-rs/src/core/pdf_parser.rs:46-47 | one more entry adds the section numbered one past the others |
| PdfParsing.FailedPageAddsNothing | services/parser-rs/src/core/pdf_parser.rs:30 | a page whose text extraction fails adds nothing and does not stop the later pages |
| PdfParsing.EntriesAreNonBlankLines | services/parser-rs/src/core/pdf_parser.rs:28-51 | every entry is a non-blank line of some page that extracted, and every such line yields one |
| PdfParsing.NumberedShape | services/parser-rs/src/core/pdf_parser.rs:38-44 | sections carry ids 1, 2, ... in order, are paragraphs holding the untrimmed line, and point at their page |
| CoreParser.FormatOf | services/parser-rs/src/core/parser.rs:29-40 | the lower-cased path picks the DOCX parser exactly when it ends with ".docx", the PDF parser exactly when it ends with ".pdf" and not ".docx", and is refused otherwise with "Unsupported file format: " and the lower-cased path |
| CoreParser.FormatOfIgnoresCase | services/parser-rs/src/core/parser.rs:30 | a path and its lower-case form go to the same parser or get the same refusal |
| CoreParser.Parse | services/parser-rs/src/core/parser.rs:29-40 | an unsupported path is refused with the message; otherwise the result of the chosen parser |
| CoreParser.Put | services/parser-rs/src/core/parser.rs:58-60 | inserting a found value adds its key with that value and keeps the other keys; no value changes nothing |
| CoreParser.ExtractFormatting | services/parser-rs/src/core/parser.rs:48-105 | only the five keys can appear; each is present exactly when its attribute is found on the first child of that name in the paragraph properties, or in the first run's properties for the font keys, and then holds the attribute's text |
| CoreParser.OutlineLevel | services/parser-rs/src/core/parser.rs:115-116 | an outline level that parses as `u8` is at most 255 |
| CoreParser.DetermineElementType | services/parser-rs/src/core/parser.rs:108-135 | heading exactly when the outline level parses as `u8`, at that level; else table exactly for a direct `tbl` child; else equation exactly for a direct `oMath` child; else paragraph |
| CoreParser.HeadingLevelIsOutlineValue | services/parser-rs/src/core/parser.rs:115-117 | an outline value "n" with n <= 255 gives a heading at level n, not shifted by one |
| CoreParser.ExtractFormattingAsWritten | services/parser-rs/src/core/parser.rs:48-105 | as written, the lookups use the qualified names: only the five keys can appear, and "outline-level" only when the attribute key is literally `w:val` |
| CoreParser.DetermineElementTypeAsWritten | services/parser-rs/src/core/parser.rs:108-135 | as written, a heading exactly when an attribute keyed literally `w:val` parses as `u8` |
| CoreParser.QualifiedLookupMisses | services/parser-rs/src/core/parser.rs:58 | a key containing ':' is never found among nodes whose attribute keys are local names |
| CoreParser.FormattingAsWrittenEmpty | services/parser-rs/src/core/parser.rs:48-105 | as written, the formatting map of any parsed paragraph is empty |
| CoreParser.NoHeadingAsWritten | services/parser-rs/src/core/parser.rs:108-121 | as written, no parsed paragraph is a heading |
| CoreParser.HeadingLostAsWritten | services/parser-rs/src/core/parser.rs:72-118 | a paragraph with outline level 0 is a level-0 heading with that level recorded when read by local name, and a plain paragraph with no formatting as written |
| CoreParser.HeadingAgreesWithFormatting | services/parser-rs/src/core/parser.rs:72-118 | a heading's level is the "outline-level" its formatting records |
| CoreParser.TrimmedText | services/parser-rs/src/core/parser.rs:143-148 | a `t` element contributes at most one piece, and never an empty one |
| CoreParser.TrimmedTextEmpty | services/parser-rs/src/core/parser.rs:143-148 | a `t` element contributes nothing exactly when it has no text or only whitespace |
| CoreParser.ExtractTextFromParagraph | services/parser-rs/src/core/parser.rs:138-153 | the loop over the `t` descendants joins their trimmed non-empty texts with spaces |
| CoreParser.ParagraphTextEmpty | services/parser-rs/src/core/parser.rs:138-153 | a paragraph's text is empty exactly when none of its `t` elements has non-whitespace text |
| CoreParser.NonEmptyText | services/parser-rs/src/core/parser.rs:237-240 | a cell paragraph contributes its text only when it is not empty |
| CoreParser.AppendCell | services/parser-rs/src/core/parser.rs:236-241 | the innermost loop appends the non-empty texts of one cell's paragraphs |
| CoreParser.AppendRow | services/parser-rs/src/core/parser.rs:235-242 | the middle loop appends the texts of one row's cells |
| CoreParser.ExtractTableText | services/parser-rs/src/core/parser.rs:230-246 | the three loops join the non-empty cell paragraph texts with line feeds |
| CoreParser.TableTextEmpty | services/parser-rs/src/core/parser.rs:230-246 | no piece of a table's text is empty, so the text is empty exactly when no cell paragraph has text |
| CoreParser.NumberFrom | services/parser-rs/src/core/parser.rs:176-211 | one section per node |
| CoreParser.NumberFromAt | services/parser-rs/src/core/parser.rs:184-193 | the k-th section is made of the k-th node with id `first + k` |
| CoreParser.ParagraphSections | services/parser-rs/src/core/parser.rs:179-194 | the first loop makes a section for every `p` element, numbered from 1 |
| CoreParser.ParagraphSectionOf | services/parser-rs/src/core/parser.rs:180-190 | one paragraph's section: its text, formatting, type and `w:p[id]` path |
| CoreParser.TableSections | services/parser-rs/src/core/parser.rs:197-211 | the second loop makes a section for every `tbl` element, ids going on from the paragraphs |
| CoreParser.TableSectionOf | services/parser-rs/src/core/parser.rs:198-207 | one table's section: its text, the fixed table formatting, the table type and `w:tbl[id]` path |
| CoreParser.NumberedStep | services/parser-rs/src/core/parser.rs:179-211 | one more node adds its section with the next id when it has the name |
| CoreParser.ParseDocx | services/parser-rs/src/core/parser.rs:157-225 | succeeds exactly when the document part exists and parses; then the sections, no positions, no page count and the path and size as given |
| CoreParser.DocxSectionsOf | services/parser-rs/src/core/parser.rs:175-211 | the two loops compute the document's sections |
| CoreParser.NumberedHalves | services/parser-rs/src/core/parser.rs:175-211 | the table numbering continues where the paragraph numbering stops |
| CoreParser.DocxSectionsAt | services/parser-rs/src/core/parser.rs:175-211 | all paragraphs come first, numbered from 1, then all tables, numbered on |
| CoreParser.DocxSectionsNumbered | services/parser-rs/src/core/parser.rs:175-211 | ids are consecutive from 1 over paragraphs and tables together, and every table section has the table type and formatting |
| CoreParser.NamedMeaning | services/parser-rs/src/core/parser.rs:179-197 | the filter keeps exactly the nodes with that name, in order |
| LayoutModeler.AttachEntries | services/parser-rs/src/layout_modeler.rs:39-78 | attaching one element adds exactly that element's entry at the end of the outline's preorder walk |
| LayoutModeler.OutlineEntries | services/parser-rs/src/layout_modeler.rs:37-80 | every element appears exactly once in the outline, and the preorder walk gives the elements back in input order, headings as section nodes carrying their id, text, level and path |
| LayoutModeler.OutlineNested | services/parser-rs/src/layout_modeler.rs:43-49 | heading levels strictly increase along every path down from the root |
| LayoutModeler.SpineAttach | services/parser-rs/src/layout_modeler.rs:59-77 | adding a child to the open heading at a stack position, then converting, is attaching the element along the rightmost path of the converted tree, at every stack entry up to that position |
| LayoutModeler.ContentStep | services/parser-rs/src/layout_modeler.rs:66-78 | appending a table or other element to the innermost open heading keeps the arena and stack invariant |
| LayoutModeler.HeadingStep | services/parser-rs/src/layout_modeler.rs:51-64 | pushing a new heading node, linking it under the stack top and pushing its index keeps the arena and stack invariant |
| LayoutModeler.AttachStep | services/parser-rs/src/layout_modeler.rs:39-78 | one step of the loop keeps the invariant and grows the converted tree by exactly the pure attach of the element |
| LayoutModeler.PopStack | services/parser-rs/src/layout_modeler.rs:43-49 | the stack is cut back to a prefix that keeps the root, and its top is the first open heading, from the top, whose level is below the new heading's |
| LayoutModeler.HeadingSpine | services/parser-rs/src/layout_modeler.rs:38-63 | after a heading is attached, the cut stack plus the new node is still a chain of last children from the root, in increasing arena order, with the new node a childless top |
| LayoutModeler.HeadingLevels | services/parser-rs/src/layout_modeler.rs:38-63 | after a heading is attached, heading levels along the stack above the root still increase strictly |
| LayoutModeler.ElementsPrefixStep | services/parser-rs/src/layout_modeler.rs:37-41 | the outline and the heading and table counts of one more element follow from those of the prefix |
| LayoutModeler.AddElement | services/parser-rs/src/layout_modeler.rs:38-78 | handling one element keeps the invariant, and the converted tree gains the element where the pure outline places it |
| LayoutModeler.InitialArena | services/parser-rs/src/layout_modeler.rs:25-33 | the starting arena, the root node alone with the stack holding its index, satisfies the invariant and converts to the empty outline |
| LayoutModeler.BuildTree | services/parser-rs/src/layout_modeler.rs:24-93 | the tree built is the outline of the elements, and the metadata holds the element count and the numbers of headings and of tables |
| ProtocolFormatter.CloseFrom | services/parser-rs/src/protocol_formatter.rs:64 | the position found holds the first ']' at or after the start |
| ProtocolFormatter.MatchEnd | services/parser-rs/src/protocol_formatter.rs:64 | a match starting at a position is a bracketed list of digit runs separated by '-' or ',' |
| ProtocolFormatter.CitationsFrom | services/parser-rs/src/protocol_formatter.rs:174-177 | every citation collected matches the citation pattern |
| ProtocolFormatter.CitationsLeftmost | services/parser-rs/src/protocol_formatter.rs:174-177 | the scan reports the leftmost match first and resumes right after its end |
| ProtocolFormatter.CitationsNone | services/parser-rs/src/protocol_formatter.rs:174-177 | a text where no match starts yields no citations |
| ProtocolFormatter.CreateSection | services/parser-rs/src/protocol_formatter.rs:145-191 | the section keeps the id, text and font properties; it is a heading without citations exactly when the style names a level-1 or level-2 heading, and its level is 2 exactly when the style contains "2", else 1; otherwise it is a paragraph carrying the citations of its text |
| ProtocolFormatter.RefStartFrom | services/parser-rs/src/protocol_formatter.rs:68-77 | an index found holds a paragraph that can open the reference list |
| ProtocolFormatter.RefStart | services/parser-rs/src/protocol_formatter.rs:68-77 | the index found is a paragraph that can open the reference list |
| ProtocolFormatter.RefStartFromMeaning | services/parser-rs/src/protocol_formatter.rs:68-77 | the search from an index finds nothing exactly when no later paragraph qualifies, and otherwise the first one that does |
| ProtocolFormatter.RefStartMeaning | services/parser-rs/src/protocol_formatter.rs:68-77 | the reference list opens at the first qualifying paragraph, or nowhere when none qualifies, and only past 70% of the paragraphs |
| ProtocolFormatter.ConvertToProtocol | services/parser-rs/src/protocol_formatter.rs:53-143 | the loop with its reference-mode flag and section counter computes the protocol function of the paragraphs, headers, footers and id |
| ProtocolFormatter.RunSectionIds | services/parser-rs/src/protocol_formatter.rs:62-129 | section ids are 1, 2, ... in output order |
| ProtocolFormatter.StepReferences | services/parser-rs/src/protocol_formatter.rs:108-117 | a paragraph adds at most one reference, only when it is a reference entry, with the next id followed by a space and its text |
| ProtocolFormatter.RunReferenceIds | services/parser-rs/src/protocol_formatter.rs:108-117 | references are numbered "[1]", "[2]", ... and each one's raw text is its id, a space and the text of a reference entry among the paragraphs read |
| ProtocolFormatter.ReferencesStep | services/parser-rs/src/protocol_formatter.rs:108-117 | a step that adds no reference keeps the numbering and the link to reference entries |
| ProtocolFormatter.RunOutputBound | services/parser-rs/src/protocol_formatter.rs:79-131 | each paragraph yields at most one section or reference, and the one that opens the reference list yields neither |
| ProtocolFormatter.RunWithoutReferences | services/parser-rs/src/protocol_formatter.rs:118-130 | without a reference list every paragraph becomes a section, in order, numbered from 1, and there are no references |
| ProtocolFormatter.RunBeforeReferences | services/parser-rs/src/protocol_formatter.rs:86-130 | every paragraph before the reference list opens becomes a section whose id is one more than its index |
| ProtocolFormatter.NoReferenceList | services/parser-rs/src/protocol_formatter.rs:53-143 | a document without a qualifying reference heading is converted paragraph by paragraph, with no references |
| ProtobufConverter.ElementTypeToPb | services/parser-rs/src/protobuf_converter.rs:7-16 | each element kind maps to the wire kind of the same name and to no other |
| ProtobufConverter.ElementTypeRoundTrip | services/parser-rs/src/protobuf_converter.rs:7-16 | the kind is recovered from its wire value once the heading level is supplied again, and every heading level maps to the same wire value |
| ProtobufConverter.ConvertSection | services/parser-rs/src/protobuf_converter.rs:18-33 | copying the formatting pairs one by one gives a map equal to the original, and the rest of the section is kept |
| ProtobufConverter.NodeToPb | services/parser-rs/src/protobuf_converter.rs:54-69 | id, title, level value and path are kept and there is one converted child per child |
| ProtobufConverter.ItemToPb | services/parser-rs/src/protobuf_converter.rs:71-82 | the wire item is always set, and is a subsection exactly when the item is one |
| ProtobufConverter.ItemsToPbAt | services/parser-rs/src/protobuf_converter.rs:57-59 | the k-th converted child is the conversion of the k-th child |
| ProtobufConverter.ConvertNode | services/parser-rs/src/protobuf_converter.rs:54-69 | the loop over the children, converting each by recursion, computes the node's conversion |
| ProtobufConverter.ConvertItem | services/parser-rs/src/protobuf_converter.rs:71-82 | the item method computes the item's conversion |
| ProtobufConverter.NodeToPbKeepsIds | services/parser-rs/src/protobuf_converter.rs:54-82 | the conversion keeps every node and content section in preorder: nothing is dropped, added or reordered |
| ProtobufConverter.AsI32 | services/parser-rs/src/protobuf_converter.rs:47-49 | the cast gives a 32-bit value equal to the count modulo 2^32, and the count itself when it fits |
| ProtobufConverter.TreeToPb | services/parser-rs/src/protobuf_converter.rs:35-42 | root and metadata are always present, each the conversion of its counterpart |
| ProtobufConverter.MetadataCounts | services/parser-rs/src/protobuf_converter.rs:44-52 | counts that fit in 32 bits keep their value; 2^31 becomes the most negative 32-bit value |
| InferenceTypes.NamedSeverity | services/inference-py/src/logic_consistency/consistency_checker.py:270-275 | "HIGH" and "LOW" give their severities, and every other name, "MEDIUM" included, gives MEDIUM |
| InferenceTypes.LastWhere | services/inference-py/src/logic_consistency/consistency_checker.py:65-76 | the index found is the last section that satisfies the test, and nothing is found exactly when no section does |
| InferenceTypes.KeyPassagesSummary | services/inference-py/src/logic_consistency/consistency_checker.py:60-74 | after the scan the summary is the text of the last section whose lower-cased type mentions summary or abstract, and the initial value when there is none |
| InferenceTypes.KeyPassagesConclusion | services/inference-py/src/logic_consistency/consistency_checker.py:60-76 | after the scan the conclusion is the text of the last section whose type mentions a conclusion and not a summary, and the initial value when there is none |
| InferenceTypes.ScanKeyPassages | services/inference-py/src/logic_consistency/consistency_checker.py:65-76 | the loop that overwrites the two texts section by section computes the scan's pair |
| SemanticDetector.ToFullWidthMeaning | services/inference-py/src/semantic_detection/semantic_detector.py:147-148 | a mapped character moves by the fixed fullwidth offset 0xFEE0, and any other comes back unchanged |
| SemanticDetector.HalfToFullIsOffset | services/inference-py/src/semantic_detection/semantic_detector.py:31-42 | every table entry is its character moved by 0xFEE0, and every character of the punctuation class has an entry |
| SemanticDetector.TypoIssue | services/inference-py/src/semantic_detection/semantic_detector.py:93-98 | a TYPO issue of MEDIUM severity with the wrong form as snippet and the correction as suggestion |
| SemanticDetector.StyleIssue | services/inference-py/src/semantic_detection/semantic_detector.py:132-137 | a STYLE issue of MEDIUM severity with the colloquial form as snippet and the formal one as suggestion |
| SemanticDetector.OccurrencesIffContains | services/inference-py/src/semantic_detection/semantic_detector.py:90-92 | a non-empty key has a match in the text exactly when the text contains it |
| SemanticDetector.TableIssuesMeaning | services/inference-py/src/semantic_detection/semantic_detector.py:86-139 | the issues are exactly those of the table entries whose key occurs in the text |
| SemanticDetector.ScanTable | services/inference-py/src/semantic_detection/semantic_detector.py:86-100 | the nested loops over entries and their matches compute one issue per match of each entry, entries in table order |
| SemanticDetector.DetectTypos | services/inference-py/src/semantic_detection/semantic_detector.py:86-100 | the typo issues are those of the typo table |
| SemanticDetector.DetectStyleErrors | services/inference-py/src/semantic_detection/semantic_detector.py:126-139 | the style issues are those of the colloquialism table |
| SemanticDetector.PickedMeaning | services/inference-py/src/semantic_detection/semantic_detector.py:106-123 | the issues kept are exactly those of the selected positions |
| SemanticDetector.PunctuationIssuesMeaning | services/inference-py/src/semantic_detection/semantic_detector.py:102-124 | every punctuation issue comes from a flagged position, and every flagged position has its issue |
| SemanticDetector.FlaggedSuggestion | services/inference-py/src/semantic_detection/semantic_detector.py:118-121 | the suggestion for a flagged mark is one character, its fullwidth form, never the mark itself |
| SemanticDetector.DetectPunctuationErrors | services/inference-py/src/semantic_detection/semantic_detector.py:102-124 | the loop over the matches of the class computes the issues of the flagged positions, left to right |
| SemanticDetector.PunctuationIssuesStep | services/inference-py/src/semantic_detection/semantic_detector.py:106-123 | one more match position appends its issue after the earlier ones exactly when a neighbour of the mark is Chinese |
| SemanticDetector.CheckMark | services/inference-py/src/semantic_detection/semantic_detector.py:108-123 | a match yields an issue exactly when the character before or after it is in the CJK unified range |
| SemanticDetector.DetectIssues | services/inference-py/src/semantic_detection/semantic_detector.py:60-84 | the issues are the typos, then the punctuation issues, then the style issues, and the suggestions list is empty |
| SemanticDetector.DetectedTypos | services/inference-py/src/semantic_detection/semantic_detector.py:72-100 | a TYPO issue is reported for a typo key exactly when the key is in the text |
| SemanticDetector.DetectedStyle | services/inference-py/src/semantic_detection/semantic_detector.py:80-139 | a STYLE issue is reported for a colloquialism exactly when it is in the text |
| SemanticDetector.DetectedCodes | services/inference-py/src/semantic_detection/semantic_detector.py:60-84 | the detector reports only TYPO, PUNCTUATION and STYLE issues |
| SemanticDetector.DetectedPunctuation | services/inference-py/src/semantic_detection/semantic_detector.py:76-124 | every flagged position is reported, as its mark with the fullwidth suggestion |
| SemanticDetector.TypoIssuesDistinct | services/inference-py/src/semantic_detection/semantic_detector.py:23-28 | distinct typo entries give distinct issues |
| SemanticDetector.StyleIssuesDistinct | services/inference-py/src/semantic_detection/semantic_detector.py:45-58 | distinct colloquialisms give distinct issues |
| SemanticDetector.SelfCorrection | services/inference-py/src/semantic_detection/semantic_detector.py:27 | the entry for "听闻" suggests the snippet itself back |
| SemanticDetector.TypoExample | services/inference-py/src/semantic_detection/semantic_detector.py:25-100 | "份量" in a sentence is reported with the correction "分量" |
| SemanticDetector.StyleExample | services/inference-py/src/semantic_detection/semantic_detector.py:46-139 | both "听说" and "特别好" in one sentence are reported with their formal replacements |
| LlmDetector.Sentences | services/inference-py/src/semantic_detection/llm_detector.py:80-83 | the split of a text always gives at least one sentence |
| LlmDetector.SentencesConcat | services/inference-py/src/semantic_detection/llm_detector.py:80-83 | the sentences, each with its delimiter joined back on, spell the text |
| LlmDetector.SentencesShape | services/inference-py/src/semantic_detection/llm_detector.py:80-83 | every sentence but the last ends with its delimiter and holds no other, and the last holds none |
| LlmDetector.SentencesCons | services/inference-py/src/semantic_detection/llm_detector.py:80-83 | a delimiter closes a sentence of its own, and any other character opens the first sentence of the rest |
| LlmDetector.PackAllPacked | services/inference-py/src/semantic_detection/llm_detector.py:85-97 | packing the sentences gives segments that spell them, hold no empty segment, keep an over-long sentence alone, and leave no two neighbours that would fit together within the limit |
| LlmDetector.PackStepSpells | services/inference-py/src/semantic_detection/llm_detector.py:88-94 | one packing step keeps the segments and the open segment spelling the sentences read |
| LlmDetector.PackStepOversize | services/inference-py/src/semantic_detection/llm_detector.py:88-94 | one packing step keeps every segment over the limit a single sentence |
| LlmDetector.PackStepTight | services/inference-py/src/semantic_detection/llm_detector.py:88-94 | one packing step keeps every two neighbouring segments, and the last closed one with the open one, too long together for the limit |
| LlmDetector.SegmentsMeaning | services/inference-py/src/semantic_detection/llm_detector.py:77-99 | the segments spell the text, none is empty, one over the limit is a single sentence, and no two neighbours would fit together within the limit |
| LlmDetector.SplitText | services/inference-py/src/semantic_detection/llm_detector.py:77-99 | the one-pass loop computes the packed segments |
| LlmDetector.SentencesTailExample | services/inference-py/src/semantic_detection/llm_detector.py:80-83 | text after the last delimiter stays one sentence |
| LlmDetector.SentencesExample | services/inference-py/src/semantic_detection/llm_detector.py:80-83 | each delimiter closes the sentence it ends: "a.b!c" gives "a.", "b!" and "c" |
| LlmDetector.SegmentsExample | services/inference-py/src/semantic_detection/llm_detector.py:85-97 | under a limit of 3, "a.b!c" packs into "a." and "b!c" |
| LlmDetector.SeverityOf | services/inference-py/src/semantic_detection/llm_detector.py:192-200 | 4 and above is CRITICAL, 3 is HIGH, 2 is MEDIUM, 1 and below is LOW |
| LlmDetector.ItemIssue | services/inference-py/src/semantic_detection/llm_detector.py:175-200 | an item's type, reason, original and suggestion fill the issue with "UNKNOWN" and "" defaults, and its severity comes from the numeric value, 3 when absent |
| LlmDetector.SeverityIgnoresType | services/inference-py/src/semantic_detection/llm_detector.py:178-200 | the type mapping is always overwritten: a missing value gives HIGH, changing the type never changes the severity, and a SEMANTIC item rated 1 is LOW |
| LlmDetector.ParseLlmResponse | services/inference-py/src/semantic_detection/llm_detector.py:162-207 | no usable answer gives no issues; otherwise one issue per item, in order, each the item's issue |
| LlmDetector.DetectSemanticErrors | services/inference-py/src/semantic_detection/llm_detector.py:41-75 | the segment loop computes the detector's result function |
| LlmDetector.SemanticErrorsMeaning | services/inference-py/src/semantic_detection/llm_detector.py:41-75 | without the SDK or a key there are no issues; a text within the limit is analysed whole; for a longer one the segments spell the text and every issue comes from the analysis of one of them |
| ConsistencyChecker.AcronymOfWords | services/inference-py/src/logic_consistency/consistency_checker.py:298-311 | for a term of non-empty words joined by one separator, an abbreviation of two or more letters matches exactly when it is the sequence of the words' upper-cased initials |
| ConsistencyChecker.EmptyWordBlocksAcronym | services/inference-py/src/logic_consistency/consistency_checker.py:301-304 | an empty word (two separators in a row, or one at either end) rules out the initials match |
| ConsistencyChecker.KeywordsShape | services/inference-py/src/logic_consistency/consistency_checker.py:199-200 | every keyword is a run of at least four word characters |
| ConsistencyChecker.PiecesPure | services/inference-py/src/logic_consistency/consistency_checker.py:301 | no piece of the split holds a separator |
| ConsistencyChecker.Overlap | services/inference-py/src/logic_consistency/consistency_checker.py:325-327 | the share of summary keywords found in the conclusion lies between 0 and 1 |
| ConsistencyChecker.OverlapMeaning | services/inference-py/src/logic_consistency/consistency_checker.py:322-327 | the share is 1 exactly when every summary keyword is in the conclusion, and 0 exactly when they share none |
| ConsistencyChecker.AlignmentScoreMeaning | services/inference-py/src/logic_consistency/consistency_checker.py:313-327 | the score lies in [0, 1], is 0 without both texts, and for two texts with a summary keyword is 1 exactly when the conclusion has every summary keyword and 0 exactly when it has none |
| ConsistencyChecker.FirstFive | services/inference-py/src/logic_consistency/consistency_checker.py:208 | the first five topics of the listing, or all of them when fewer |
| ConsistencyChecker.SimpleAlignment | services/inference-py/src/logic_consistency/consistency_checker.py:194-212 | one HIGH SUMMARY_CONCLUSION_MISMATCH issue exactly when some summary keyword is missing from the conclusion, and none otherwise |
| ConsistencyChecker.ListingSize | services/inference-py/src/logic_consistency/consistency_checker.py:208 | a listing of a set without repeats has as many elements as the set |
| ConsistencyChecker.SimpleAlignmentNames | services/inference-py/src/logic_consistency/consistency_checker.py:203-209 | the message names distinct missing topics, five of them or all when fewer |
| ConsistencyChecker.AlignmentItemIssue | services/inference-py/src/logic_consistency/consistency_checker.py:266-277 | the issue takes the item's type and description with "ALIGNMENT_ISSUE" and "" defaults, is never CRITICAL, and is MEDIUM without a severity |
| ConsistencyChecker.ItemIssues | services/inference-py/src/logic_consistency/consistency_checker.py:264-277 | one issue per item of the answer, in order |
| ConsistencyChecker.AlignmentIssuesMeaning | services/inference-py/src/logic_consistency/consistency_checker.py:155-192 | nothing is compared without both texts; without the model, or when its call fails, the keyword check decides; a readable answer gives one issue per item; an unreadable one gives none |
| ConsistencyChecker.KeyIndex | services/inference-py/src/logic_consistency/consistency_checker.py:114 | the position found holds the key, and nothing is found exactly when no entry has it |
| ConsistencyChecker.PutValue | services/inference-py/src/logic_consistency/consistency_checker.py:70 | storing under a key keeps keys distinct, adds a new key last and changes only that key's value |
| ConsistencyChecker.RecordLookup | services/inference-py/src/logic_consistency/consistency_checker.py:134-136 | recording a section for a term keeps keys distinct, adds a new term last and adds the section to that term's list only |
| ConsistencyChecker.DedupMeaning | services/inference-py/src/logic_consistency/consistency_checker.py:135-136 | the recorded sections hold no repeats and exactly the sections given |
| ConsistencyChecker.AbbreviationIssue | services/inference-py/src/logic_consistency/consistency_checker.py:126-132 | an UNDEFINED_ABBREVIATION issue of HIGH severity with the term as snippet |
| ConsistencyChecker.TermScanUsage | services/inference-py/src/logic_consistency/consistency_checker.py:106-136 | from an empty dictionary the keys are the distinct terms found, each once, and each term's list holds its sections in order of first mention without repeats |
| ConsistencyChecker.TermSectionsDistinct | services/inference-py/src/logic_consistency/consistency_checker.py:134-136 | a term's sections never repeat, and a section is listed exactly when the term was found in it |
| ConsistencyChecker.TermScanIssuesStep | services/inference-py/src/logic_consistency/consistency_checker.py:113-132 | one more mention adds its issue after those before it exactly when it is reported |
| ConsistencyChecker.ReportedAtPrefix | services/inference-py/src/logic_consistency/consistency_checker.py:113-124 | a later mention does not change whether an earlier one is reported |
| ConsistencyChecker.TermScanIssues | services/inference-py/src/logic_consistency/consistency_checker.py:106-136 | every issue belongs to a reported mention, and every reported mention has its issue |
| ConsistencyChecker.TermScanFrom | services/inference-py/src/logic_consistency/consistency_checker.py:95-136 | issues found earlier are kept and new ones come after them |
| ConsistencyChecker.TermScanAppend | services/inference-py/src/logic_consistency/consistency_checker.py:106-136 | scanning two runs of mentions is scanning the second from where the first left off |
| ConsistencyChecker.LaterVariantNotReported | services/inference-py/src/logic_consistency/consistency_checker.py:114 | a term seen before, in any letter case, is never reported again |
| ConsistencyChecker.InconsistencyIssues | services/inference-py/src/logic_consistency/consistency_checker.py:143-151 | one MEDIUM TERM_INCONSISTENCY issue per variation, with the variation as snippet |
| ConsistencyChecker.NoTermInconsistency | services/inference-py/src/logic_consistency/consistency_checker.py:138-151 | the variation pass never reports anything, since no variations are ever found |
| ConsistencyChecker.SectionTextsMeaning | services/inference-py/src/logic_consistency/consistency_checker.py:64-70 | one entry per section id, holding the text of the last section with that id |
| ConsistencyChecker.MentionsIn | services/inference-py/src/logic_consistency/consistency_checker.py:108-111 | one mention per term found in a text, each carrying the text's section id |
| ConsistencyChecker.TermScanCodes | services/inference-py/src/logic_consistency/consistency_checker.py:126-131 | every issue of the term scan is a HIGH UNDEFINED_ABBREVIATION |
| ConsistencyChecker.ConsistencyMeaning | services/inference-py/src/logic_consistency/consistency_checker.py:48-93 | the issues are the undefined abbreviations in the order met, followed by the alignment issues, with no term inconsistency |
| ConsistencyChecker.Checker.constructor | services/inference-py/src/logic_consistency/consistency_checker.py:30-46 | a new checker has no terms and empty summary and conclusion |
| ConsistencyChecker.Checker.RecordMention | services/inference-py/src/logic_consistency/consistency_checker.py:113-136 | the term's section is recorded in the dictionary, and an issue is returned exactly when the term was undefined before it |
| ConsistencyChecker.Checker.ScanFound | services/inference-py/src/logic_consistency/consistency_checker.py:108-136 | the terms found in one text update the dictionary and give the issues of the pure term scan |
| ConsistencyChecker.Checker.VariationPass | services/inference-py/src/logic_consistency/consistency_checker.py:138-151 | the loop over the dictionary computes the variation issues |
| ConsistencyChecker.Checker.CheckTermConsistency | services/inference-py/src/logic_consistency/consistency_checker.py:95-153 | the method leaves the dictionary and issues of the term scan over every section text, then the variation issues |
| ConsistencyChecker.Checker.CheckConsistency | services/inference-py/src/logic_consistency/consistency_checker.py:48-93 | the fields are reset and then hold the last summary and conclusion and the term dictionary of the sections, and the result is the consistency function's |
| FactChecker.MissingIssueInjective | services/inference-py/src/fact_checking/fact_checker.py:321-340 | each missing-field issue names its field: two are equal exactly when their fields are |
| FactChecker.SimpleResultIssues | services/inference-py/src/fact_checking/fact_checker.py:316-340 | the format check raises an issue for a field exactly when that field is missing, and no other issue |
| FactChecker.SimpleResultOrder | services/inference-py/src/fact_checking/fact_checker.py:321-340 | the issues come in the order title, year, authors |
| FactChecker.SimpleResultValid | services/inference-py/src/fact_checking/fact_checker.py:342-347 | the reference is valid exactly when nothing is missing, with confidence 0.5, and gets confidence 0.2 otherwise |
| FactChecker.SimpleAnalysis | services/inference-py/src/fact_checking/fact_checker.py:316-347 | the three checks, each appending its issue, compute the format check's result |
| FactChecker.Listed | services/inference-py/src/fact_checking/fact_checker.py:259 | the prompt lists the first five documents, or all of them when fewer |
| FactChecker.RetrievedTextLines | services/inference-py/src/fact_checking/fact_checker.py:256-260 | when no rendered line holds a line break, the listing splits into one line per listed document, in order |
| FactChecker.RetrievedTextEmpty | services/inference-py/src/fact_checking/fact_checker.py:256-260 | the placeholder text appears exactly when nothing was retrieved |
| FactChecker.RetrievedTextFirstFive | services/inference-py/src/fact_checking/fact_checker.py:259 | documents after the fifth never reach the prompt |
| FactChecker.PlaceholderLine | services/inference-py/src/fact_checking/fact_checker.py:257-258 | a document with no keys renders with the unknown title, year and authors placeholders |
| FactChecker.ItemIssueSeverity | services/inference-py/src/fact_checking/fact_checker.py:281-290 | a severity named HIGH or LOW keeps its level, anything else is MEDIUM, never CRITICAL; a missing type reads as UNKNOWN |
| FactChecker.ParseFactCheckMeaning | services/inference-py/src/fact_checking/fact_checker.py:267-314 | an unreadable answer is one LOW parsing error, never valid, with confidence 0 and the raw text kept; a readable one gives one issue per item, in order, and is valid only when it says so |
| FactChecker.SingleResultMeaning | services/inference-py/src/fact_checking/fact_checker.py:82-100 | without a model a reference is valid exactly when its title, year and authors were found; with one, a failed call is never valid and has confidence 0, and a valid result needs a readable answer that says so |
| FactChecker.CheckSingleReference | services/inference-py/src/fact_checking/fact_checker.py:82-100 | the method computes the single-reference result, judging by the model when it is available and by the format check otherwise |
| FactChecker.CheckReferences | services/inference-py/src/fact_checking/fact_checker.py:64-80 | one result per reference, in input order, each that reference's result |
| SlidingWindow.PySlice | services/inference-py/src/sliding_window_processor.py:82 | a slice with bounds in range is the subsequence between them |
| SlidingWindow.InitialState | services/inference-py/src/sliding_window_processor.py:158-168 | the initial state holds the sections and their count |
| SlidingWindow.ProcessWindowMeaning | services/inference-py/src/sliding_window_processor.py:75-103 | a window moves the index forward by the window size, or to the end, and reports the issues of that window's sections only, each carrying its section's id or the window's start |
| SlidingWindow.ProcessDocument | services/inference-py/src/sliding_window_processor.py:147-173 | the method computes the run of the graph from the initial state |
| SlidingWindow.LastStart | services/inference-py/src/sliding_window_processor.py:81 | the last round starts within one window of the end |
| SlidingWindow.KeyPassagesAgain | services/inference-py/src/sliding_window_processor.py:126-133 | rescanning the same sections leaves the recorded summary and conclusion as they were |
| SlidingWindow.StepFacts | services/inference-py/src/sliding_window_processor.py:75-145 | one round keeps the state reachable, moves the index by a whole window unless it reaches the end, counts one more window, keeps the terms, and ends the run exactly at the end |
| SlidingWindow.StepIssues | services/inference-py/src/sliding_window_processor.py:100-103 | one round's issues are its window's, replacing the earlier ones as written or appended to them with a concatenating reducer |
| SlidingWindow.StepPassages | services/inference-py/src/sliding_window_processor.py:119-138 | one round rescans every section for the summary and conclusion texts |
| SlidingWindow.RoundAdvances | services/inference-py/src/sliding_window_processor.py:59-71 | the graph's round makes progress from every reachable state |
| SlidingWindow.RoundsStep | services/inference-py/src/sliding_window_processor.py:64-71 | a run is one round followed, while the condition says continue, by the run from the next state |
| SlidingWindow.RoundsShape | services/inference-py/src/sliding_window_processor.py:140-145 | advancing rounds end the run with every section read, one count per round, and the terms unchanged |
| SlidingWindow.RoundsPassages | services/inference-py/src/sliding_window_processor.py:119-138 | rounds that rescan the sections end with the texts of the last summary section and of the last conclusion section |
| SlidingWindow.RunShape | services/inference-py/src/sliding_window_processor.py:47-145 | with a window of at least one section the run ends normally with every section read, one count per round and the terms unchanged |
| SlidingWindow.RunPassages | services/inference-py/src/sliding_window_processor.py:119-138 | the run ends with the texts of the last summary section and of the last conclusion section |
| SlidingWindow.WindowCountClosed | services/inference-py/src/sliding_window_processor.py:81-116 | the number of rounds is the number of windows the sections fill, the last possibly short, and one round for no sections |
| SlidingWindow.ProcessDocumentMeaning | services/inference-py/src/sliding_window_processor.py:147-173 | a window of at least one section ends with every section read, one round per window, no terms, the last window's issues only, and the last summary and conclusion texts |
| SlidingWindow.RoundsLastValue | services/inference-py/src/sliding_window_processor.py:15-25 | rounds that replace the issues end with the issues of the last window only |
| SlidingWindow.RunLastValue | services/inference-py/src/sliding_window_processor.py:15-25 | as written, every round replaces the issues, so the run ends with the issues of the last window only |
| SlidingWindow.AllIssuesWindow | services/inference-py/src/sliding_window_processor.py:81-98 | the issues of the sections before a window's end are those before its start followed by the window's own |
| SlidingWindow.RoundsConcatenate | services/inference-py/src/sliding_window_processor.py:100-103 | rounds that append their window's issues end with the issues of every section |
| SlidingWindow.RunConcatenate | services/inference-py/src/sliding_window_processor.py:100-103 | with issues appended round after round the run ends with the issues of every section of the document |
| SlidingWindow.ProcessConcatenate | services/inference-py/src/sliding_window_processor.py:147-191 | from the initial state, appending rounds give the document's issues, every section's in order |
| SlidingWindow.ProcessStalls | services/inference-py/src/sliding_window_processor.py:75-145 | with sections to read, a window of zero or fewer sections never moves forward and the run fails; with no sections the first round ends the run unless the window is negative |
| SlidingWindow.LastValueKeepsLastWindow | services/inference-py/src/sliding_window_processor.py:15-25 | as written, a run over two one-section windows ends with the second section's issue alone |
| SlidingWindow.FirstSectionIssue | services/inference-py/src/sliding_window_processor.py:86-98 | the issue reported for the first section is among the document's issues |
| SlidingWindow.LastValueLosesIssues | services/inference-py/src/sliding_window_processor.py:15-25 | as written, the first window's issue, which the detector reported, is missing when the run ends |
| InferenceMain.ParseAddrEnv | services/inference-py/main.py:9-30 | the parsed address always has a non-empty host |
| InferenceMain.ParseAddrSplit | services/inference-py/main.py:16-30 | only the last colon separates: any host text followed by a colon and a part without colons gives that host, or the default for an empty one, and the part read as an integer, 0 when it is not one |
| InferenceMain.ParseAddrRoundTrip | services/inference-py/main.py:9-30 | formatting a non-empty host and a port as "host:port" and parsing it gives them back |
| InferenceMain.ParseAddrPortOnly | services/inference-py/main.py:17-21 | a bare port number keeps the default host 127.0.0.1 |
| InferenceMain.ParseAddrNameOnly | services/inference-py/main.py:17-23 | a value without a colon that starts with a letter is a host name with port 0 |
| InferenceMain.SelectWithoutEnv | services/inference-py/main.py:40-44 | without an address in the environment, or with an empty one, the command-line host and port are used |
| InferenceMain.SelectFromEnv | services/inference-py/main.py:40-44 | an address with a usable host and a positive port replaces both command-line values |
| InferenceMain.SelectContainerName | services/inference-py/main.py:43-44 | the container name "inference-py" gives way to the command-line host while the port is still taken |
| InferenceMain.SelectPortZero | services/inference-py/main.py:43-44 | a port of 0 gives way to the command-line port while the host is still taken |
| EngineApplication.ParseJavaInt | services/engine-java/src/main/java/com/auditor/engine/EngineApplication.java:19 | a parsed value exists only for present text and lies in the 32-bit range |
| EngineApplication.AddI32 | services/engine-java/src/main/java/com/auditor/engine/EngineApplication.java:40 | the sum taken back into 32 bits: the exact sum when it fits, shifted by 2^32 when it overflows either way |
| EngineApplication.PortText | services/engine-java/src/main/java/com/auditor/engine/EngineApplication.java:13-17 | the port text is the whole value, or a non-empty colon-free suffix that follows the value's last colon |
| EngineApplication.ServerPortProperty | services/engine-java/src/main/java/com/auditor/engine/EngineApplication.java:11-24 | the property changes only for a present, non-blank address, and only to the decimal text of a 32-bit integer |
| EngineApplication.GrpcPort | services/engine-java/src/main/java/com/auditor/engine/EngineApplication.java:26-41 | the gRPC port is a 32-bit integer |
| EngineApplication.StartupPorts | services/engine-java/src/main/java/com/auditor/engine/EngineApplication.java:11-41 | the gRPC port is chosen from the property as the first block leaves it |
| EngineApplication.IntToStringNotBlank | services/engine-java/src/main/java/com/auditor/engine/EngineApplication.java:20 | a printed integer is never blank |
| EngineApplication.BlankAddrKeepsProperty | services/engine-java/src/main/java/com/auditor/engine/EngineApplication.java:12 | a missing or blank address leaves the property as it was |
| EngineApplication.PortTextAfterLastColon | services/engine-java/src/main/java/com/auditor/engine/EngineApplication.java:14-16 | the port text of "host:port" is the port part, whatever the host holds |
| EngineApplication.AddrRoundTrip | services/engine-java/src/main/java/com/auditor/engine/EngineApplication.java:11-24 | "host:port", with any host text, sets the property to the port |
| EngineApplication.BarePortRoundTrip | services/engine-java/src/main/java/com/auditor/engine/EngineApplication.java:13-20 | a bare port sets the property to it |
| EngineApplication.TrailingColonKeepsProperty | services/engine-java/src/main/java/com/auditor/engine/EngineApplication.java:15-23 | with the colon as the last character the whole value is read as the port, which fails, so the property is left as it was |
| EngineApplication.ExplicitGrpcPortWins | services/engine-java/src/main/java/com/auditor/engine/EngineApplication.java:29-33 | a non-blank integer in the gRPC variable is the gRPC port, whatever the HTTP port |
| EngineApplication.ExplicitGrpcUnparseable | services/engine-java/src/main/java/com/auditor/engine/EngineApplication.java:29-33 | a non-blank gRPC variable that is not an integer gives 9192 whatever the HTTP port, never the HTTP port plus one |
| EngineApplication.GrpcFollowsHttp | services/engine-java/src/main/java/com/auditor/engine/EngineApplication.java:34-41 | without the gRPC variable a positive HTTP port below the maximum gives the next port up, and an HTTP port that is missing, not an integer, zero or negative gives 9192 |
| EngineApplication.GrpcPortWraps | services/engine-java/src/main/java/com/auditor/engine/EngineApplication.java:40 | an HTTP port of 2147483647 makes the gRPC port -2147483648 |
| EngineApplication.StartupFromAddr | services/engine-java/src/main/java/com/auditor/engine/EngineApplication.java:11-41 | with "host:port" and no gRPC variable HTTP gets the port and gRPC the next one; with neither variable and no property gRPC gets 9192 |
| TaskStore.Task.constructor | services/gateway-go/src/store/store.go:10-17 | a new task holds the given fields |
| TaskStore.Task.SetFields | services/gateway-go/src/store/store.go:46-55 | writing through the task pointer replaces every field |
| TaskStore.Store.View | services/gateway-go/src/store/store.go:20-23 | the store's view has the stored ids, each with its task's current fields |
| TaskStore.Store.constructor | services/gateway-go/src/store/store.go:26-28 | a new store holds no tasks |
| TaskStore.Store.AddTask | services/gateway-go/src/store/store.go:31-35 | the task object itself is stored under its id, replacing any earlier one, and the view gains its fields under that id |
| TaskStore.Store.GetTask | services/gateway-go/src/store/store.go:38-43 | the stored object and true exactly when the id is present, null and false otherwise |
| TaskStore.Store.UpdateTask | services/gateway-go/src/store/store.go:46-55 | true exactly when the id is present; then the stored object gets the callback's fields and every other object keeps its own; an absent id changes nothing |
| TaskStore.MarkRunning | services/gateway-go/src/store/store_test.go:16-19 | the test's callback sets status "Running" and progress 50 and keeps the other fields |
| TaskStore.AddGetUpdate | services/gateway-go/src/store/store_test.go:5-27 | after adding a pending task it is found as "Pending", the update succeeds, and it is then found as "Running" with progress 50 |
| Text.LastIndexOf | services/engine-java/src/main/java/com/auditor/engine/EngineApplication.java:14 | the index found is the start of the last occurrence, and none is found exactly when there is no occurrence |
| Text.ParseDecimal | services/engine-java/src/main/java/com/auditor/engine/EngineApplication.java:19 | a parsed value lies within the given bounds |
| Text.ParseDecimalRoundTrip | services/engine-java/src/main/java/com/auditor/engine/EngineApplication.java:19-20 | printing an integer in range and parsing it gives it back |
| Text.ParsePyInt | services/inference-py/main.py:20 | a parsed value comes from text whose trimmed, unsigned body is digit groups separated by single underscores |
| Text.ParsePyIntOfDigits | services/inference-py/main.py:20-26 | the decimal rendering of a natural number parses back to it |
| Text.LinesJoin | services/parser-rs/src/core/pdf_parser.rs:32 | for text without carriage returns, the lines joined with newlines, plus a newline when the text ended with one, give the text back |

## Left out

- Archive and file-system I/O are outside the model: zip extraction and repackaging, memory mapping, directory walking, file copies, report writing and the Go `WriteReport`. An archive is a map from part path to content. Parsed parts and page texts are inputs. In particular, `update_comments_xml` writes `word/comments.xml` with `fs::write`, which fails when the extracted archive has no `word/` directory; Writer.AnnotatedWithoutDocument and Writer.WriteAnnotations give `Ok` with the added parts in that case.
- LlmDetector.ItemIssue: the JSON `severity` is modelled as an optional integer. A fractional value such as 3.5, which the source compares against the thresholds as a float (HIGH for 3.5), is not represented.
- XML parsing is outside the model. The parsers walk an element tree whose element and attribute names are local names, with namespaces already resolved. The literal `w:left`/`w:val` lookups in `core/parser.rs` never match such an attribute; this is listed under "## Findings", and the rest of the model reads the local name, as intended.
- The parallel collect in `parse_archive` keeps order, so it is modelled as the plain sequence.
- DocxParsing.OutlineLevel, DocxParsing.DocxParser.ScanProperty, DocxParsing.DocxParser.ScanParagraphProperties, Writer.CommentIds, Writer.CommentIdsByFirstPosition: the `u32` `level + 1` and the `i32` subtraction of the counter are modelled as wrap-around, which is what a release build does. A debug build panics on the overflow instead. The atomic `fetch_add` and the `as` casts wrap in both builds.
- Python `float` values, such as the alignment score and the fact-check confidence, are Dafny `real`, so rounding is not modelled.
- `f32` values are an integer numerator over a divisor (20, 240, 2 or 1). Their text is the exact decimal when that terminates within eight digits. Rust's shortest round-trip float printing is not modelled.
- The writer's timestamps (`chrono::Utc::now`) and HTML escaping (`html_escape::encode_text`) are parameters.
- The Unicode classes of the source are approximated. Python's `\w`, `str.isalpha`, `str.isupper` and lower-casing work on ASCII letters, plus the CJK range where the source needs letters. Number parsing (Text.ParseDecimal, Text.ParsePyInt, and through them InferenceMain.ParseAddrEnv and EngineApplication.ParseJavaInt) accepts only ASCII digits, whereas Python's `int()` and Java's `Integer.parseInt` accept any Unicode decimal digit, such as fullwidth "８０８０". The whitespace sets of Rust, Python and Java are exact. Rust's regex `\d` in the citation pattern is Unicode by default, while ProtocolFormatter.MatchEnd accepts ASCII digits only. Rust's `char::is_alphabetic` (Text.IsAlphabetic) is limited to Latin, Greek, Cyrillic and CJK letters. Rust's `to_lowercase` in CoreParser.FormatOf and in the extension of DocumentProcessor.AnnotatedName, and Python's `.upper()` in `_is_abbreviation_of` (ConsistencyChecker.AcronymOfWords), change ASCII letters only. Lengths are in characters, except where Rust's UTF-8 byte length is written out.
- Language-model and vector-store calls are outside the model: DashScope, Milvus, the `\{.*\}` plus `json.loads` extraction, and the prompt texts. The call's outcome and its decoded JSON items are parameters.
- The regex-based term extraction of the consistency checker and the reference-field extraction of the fact checker are parameters.
- Python's order of iterating a set is not specified, so the listing of the missing topics is a parameter.
- Milvus retrieval returns an empty list on every path of `_retrieve_similar_documents`, so the model passes the empty list.
- LangGraph's engine is outside the model. A node's returned keys replace the state's, and a round that makes no progress is an `Err`, standing for the engine's recursion limit.
- SlidingWindow.ProcessDocument, SlidingWindow.ProcessDocumentMeaning, SlidingWindow.RunShape: `ainvoke` is called without a config, so the engine's default limit on supersteps applies. Each round takes three supersteps (process, update, check), so a document that needs more windows than the limit allows fails with a recursion error even though every round advances. That limit is not modelled, so these members promise `Ok` for documents of any length.
- DocxParsing.NodeSection, DocxParsing.NodeSections, DocxParsing.ArchiveSections, DocxParsing.DocxParser.ParseNodes: `Xml.Node` has no comment or processing-instruction nodes. In the source, `descendants()` yields those too and `parse_archive` numbers every descendant by its position. A comment or processing instruction in `document.xml` therefore shifts the ids and `#offset_N` paths of every later section; the model cannot express that shift.
- Transport and start-up are outside the model: the gRPC servers, Spring Boot start-up and the reflective `EmbeddedGrpcServer` start, `grpc_server.serve` and logging.
- Environment values, the command line and the `server.port` property before start-up are parameters.
- Concurrency is left out, because the model is sequential. The Go store's `RWMutex` is not modelled. The writer's counter is a process-wide static `AtomicI32`, so two annotation calls running at once can interleave their draws; Writer.CommentCounter and the Writer methods model one call at a time.
- TaskStore.Store.UpdateTask: the callback is a function from the task's fields before to its fields after. A callback that keeps the pointer, or writes to other tasks, is not modelled.
- ConsistencyChecker.Checker: the API key and the SDK set-up in `__init__` are outside the model. Model availability is a parameter of the checks.

## Findings

| source | as written | input that shows it | evidently intended | confidence | as-written member | corrected member |
|---|---|---|---|---|---|---|
| services/parser-rs/src/core/writer.rs:115-154 | the document step references the k-th of n issues with the k-th value drawn from the counter, c + k (line 115); the comments step numbers an issue first seen at position k as `counter.load()` minus k, which after the n draws is c + n - k (line 154), so the ids agree only when 2k = n and otherwise run in reverse order | one issue with the counter at 1: the reference carries id 1, the comment id 2; two distinct issues: references 1 and 2, comments 3 and 2 | each comment has the id its reference carries | not executed | Writer.CommentIdsMismatch | Writer.AnnotatedMatchingComments |
| services/inference-py/src/sliding_window_processor.py:15-25 | `detected_issues` has no merge function in the graph state, so each window's issues replace the earlier ones | two sections, window size 1, a detector that flags every text: only the second section's issue remains | the run returns the issues of every window, as `run_sliding_window_analysis` promises | not executed | SlidingWindow.LastValueLosesIssues | SlidingWindow.ProcessConcatenate |
| services/parser-rs/src/core/parser.rs:48-135 | `extract_formatting` and `determine_element_type` look attributes up with a plain string such as `"w:val"`, which roxmltree reads as a name without namespace whose local part is `w:val`; a WordprocessingML attribute has the namespace of the `w` prefix and the local name `val`, so no lookup ever matches | a paragraph whose `pPr` holds `<w:outlineLvl w:val="0"/>`: its formatting map is empty and it is a plain paragraph, not a level-0 heading | the attributes are found by namespace and local name, as `docx_parser.rs` does with `(W_NS, "val")` | not executed | CoreParser.NoHeadingAsWritten | CoreParser.HeadingLevelIsOutlineValue |
