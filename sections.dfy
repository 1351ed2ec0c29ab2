/** The value types the Rust parsers produce and the layout builder and
    annotation writer consume. Integer widths (`i32`, `u8`, `usize`) are
    unbounded here; where the source narrows a value, the narrowing is
    written out at that place. */
module Sections {
  /** The kind of a document element; a heading carries its level. */
  datatype ElementType = Heading(level: nat) | Paragraph | Table | Equation

  /** One parsed element of the document. */
  datatype DocumentSection = DocumentSection(
    id: int,
    elementType: ElementType,
    rawText: string,
    formatting: map<string, string>,
    xmlPath: string)

  /** A node of the outline tree: a heading (or the synthetic root) with
      the items under it. */
  datatype SectionNode = SectionNode(
    id: int,
    title: string,
    level: nat,
    xmlPath: string,
    children: seq<SectionItem>)

  datatype SectionItem = Subsection(node: SectionNode) | Content(section: DocumentSection)

  datatype DocumentMetadata = DocumentMetadata(totalElements: nat, headingCount: nat, tableCount: nat)

  /** The outline tree with its counters. */
  datatype DocumentTree = DocumentTree(root: SectionNode, metadata: DocumentMetadata)

  /** An annotation to attach to the document. */
  datatype Issue = Issue(id: int, message: string, sectionId: int)

  predicate IsHeading(s: DocumentSection) {
    s.elementType.Heading?
  }

  predicate IsTable(s: DocumentSection) {
    s.elementType.Table?
  }
}
