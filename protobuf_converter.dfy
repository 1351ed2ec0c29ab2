/** The conversions from the Rust value types to the generated protobuf
    messages (`protobuf_converter.rs`). The messages are modelled by their
    fields; optional message fields are `Option`s. */
module ProtobufConverter {
  import opened Wrappers
  import opened Text
  import opened Sections

  /** The protobuf enum: the heading level has no place in it. */
  datatype PbElementType = PbParagraph | PbHeading | PbTable | PbEquation

  datatype PbDocumentSection = PbDocumentSection(
    id: int,
    elementType: PbElementType,
    rawText: string,
    formatting: map<string, string>,
    xmlPath: string)

  datatype PbSectionNode = PbSectionNode(
    id: int,
    title: string,
    level: nat,
    xmlPath: string,
    children: seq<PbSectionItem>)

  /** The `oneof item` of a section item. */
  datatype PbItem = PbSubsection(node: PbSectionNode) | PbContent(section: PbDocumentSection)

  datatype PbSectionItem = PbSectionItem(item: Option<PbItem>)

  datatype PbDocumentMetadata = PbDocumentMetadata(totalElements: int, headingCount: int, tableCount: int)

  datatype PbDocumentTree = PbDocumentTree(root: Option<PbSectionNode>, metadata: Option<PbDocumentMetadata>)

  // ---------------------------------------------------------------------
  // Element types

  /** `From<ElementType>`: variant for variant, the level dropped. */
  function ElementTypeToPb(t: ElementType): (r: PbElementType)
    ensures r.PbHeading? <==> t.Heading?
    ensures r.PbParagraph? <==> t.Paragraph?
    ensures r.PbTable? <==> t.Table?
    ensures r.PbEquation? <==> t.Equation?
  {
    match t
    case Paragraph => PbParagraph
    case Heading(_) => PbHeading
    case Table => PbTable
    case Equation => PbEquation
  }

  /** Back from the protobuf enum, given the level a heading had. */
  function ElementTypeFromPb(r: PbElementType, level: nat): ElementType {
    match r
    case PbParagraph => Paragraph
    case PbHeading => Heading(level)
    case PbTable => Table
    case PbEquation => Equation
  }

  /** The conversion loses exactly the heading level: with it, the
      element type comes back; two headings of different levels convert
      alike. */
  lemma ElementTypeRoundTrip(t: ElementType)
    ensures ElementTypeFromPb(ElementTypeToPb(t), if t.Heading? then t.level else 0) == t
    ensures forall l | l != 0 :: ElementTypeToPb(Heading(l)) == ElementTypeToPb(Heading(0))
  {
  }

  // ---------------------------------------------------------------------
  // Sections

  function SectionToPb(s: DocumentSection): PbDocumentSection {
    PbDocumentSection(s.id, ElementTypeToPb(s.elementType), s.rawText, s.formatting, s.xmlPath)
  }

  /** `From<DocumentSection>`: the formatting pairs are copied one by one
      into a new map, which ends up equal to the original. */
  method ConvertSection(s: DocumentSection) returns (r: PbDocumentSection)
    ensures r == SectionToPb(s)
    ensures r.formatting == s.formatting
  {
    var formatting: map<string, string> := map[];
    var rest := s.formatting.Keys;
    while rest != {}
      invariant rest <= s.formatting.Keys
      invariant formatting.Keys == s.formatting.Keys - rest
      invariant forall k | k in formatting :: formatting[k] == s.formatting[k]
      decreases rest
    {
      var k :| k in rest;
      formatting := formatting[k := s.formatting[k]];
      rest := rest - {k};
    }
    assert formatting == s.formatting;
    r := PbDocumentSection(s.id, ElementTypeToPb(s.elementType), s.rawText, formatting, s.xmlPath);
  }

  // ---------------------------------------------------------------------
  // Outline tree

  /** `From<SectionNode>`: id, title and path kept, the `u8` level widened
      to `u32` (same value), the children converted in order. */
  function NodeToPb(n: SectionNode): (r: PbSectionNode)
    ensures r.id == n.id && r.title == n.title && r.level == n.level && r.xmlPath == n.xmlPath
    ensures |r.children| == |n.children|
    decreases n
  {
    PbSectionNode(n.id, n.title, n.level, n.xmlPath, ItemsToPb(n.children))
  }

  function ItemsToPb(items: seq<SectionItem>): (r: seq<PbSectionItem>)
    ensures |r| == |items|
    decreases items
  {
    if items == [] then [] else [ItemToPb(items[0])] + ItemsToPb(items[1..])
  }

  /** `From<SectionItem>`: the item is always set, with the same variant. */
  function ItemToPb(it: SectionItem): (r: PbSectionItem)
    ensures r.item.Some?
    ensures r.item.value.PbSubsection? <==> it.Subsection?
    decreases it
  {
    match it
    case Subsection(node) => PbSectionItem(Some(PbSubsection(NodeToPb(node))))
    case Content(section) => PbSectionItem(Some(PbContent(SectionToPb(section))))
  }

  /** The `k`-th converted child is the conversion of the `k`-th child. */
  lemma {:induction false} ItemsToPbAt(items: seq<SectionItem>)
    ensures forall k | 0 <= k < |items| :: ItemsToPb(items)[k] == ItemToPb(items[k])
    decreases items
  {
    if items != [] {
      ItemsToPbAt(items[1..]);
      assert forall k | 1 <= k < |items| :: items[1..][k - 1] == items[k];
    }
  }

  /** The conversion of one node: its children in a loop, each converted
      by recursion. */
  method ConvertNode(n: SectionNode) returns (r: PbSectionNode)
    ensures r == NodeToPb(n)
    decreases n, 1
  {
    var children: seq<PbSectionItem> := [];
    var i := 0;
    ItemsToPbAt(n.children);
    while i < |n.children|
      invariant 0 <= i <= |n.children|
      invariant children == ItemsToPb(n.children)[..i]
    {
      assert n.children[i] in n.children;
      var c := ConvertItem(n.children[i]);
      children := children + [c];
      i := i + 1;
    }
    r := PbSectionNode(n.id, n.title, n.level, n.xmlPath, children);
  }

  method ConvertItem(it: SectionItem) returns (r: PbSectionItem)
    ensures r == ItemToPb(it)
    decreases it, 0
  {
    match it
    case Subsection(node) =>
      var converted := ConvertNode(node);
      r := PbSectionItem(Some(PbSubsection(converted)));
    case Content(section) =>
      var converted := ConvertSection(section);
      r := PbSectionItem(Some(PbContent(converted)));
  }

  /** The ids of a tree in preorder: node ids and content section ids. */
  function NodeIds(n: SectionNode): seq<int>
    decreases n
  {
    [n.id] + ItemsIds(n.children)
  }

  function ItemsIds(items: seq<SectionItem>): seq<int>
    decreases items
  {
    if items == [] then [] else ItemIds(items[0]) + ItemsIds(items[1..])
  }

  function ItemIds(it: SectionItem): seq<int>
    decreases it
  {
    match it
    case Subsection(node) => NodeIds(node)
    case Content(section) => [section.id]
  }

  /** The same preorder on the protobuf side; an unset item has no ids. */
  function PbNodeIds(n: PbSectionNode): seq<int>
    decreases n
  {
    [n.id] + PbItemsIds(n.children)
  }

  function PbItemsIds(items: seq<PbSectionItem>): seq<int>
    decreases items
  {
    if items == [] then [] else PbItemIds(items[0]) + PbItemsIds(items[1..])
  }

  function PbItemIds(it: PbSectionItem): seq<int>
    decreases it
  {
    match it.item
    case None => []
    case Some(PbSubsection(node)) => PbNodeIds(node)
    case Some(PbContent(section)) => [section.id]
  }

  /** The conversion keeps every node and every content section, in
      preorder: nothing is dropped, added or reordered. */
  lemma {:induction false} NodeToPbKeepsIds(n: SectionNode)
    ensures PbNodeIds(NodeToPb(n)) == NodeIds(n)
    decreases n, 2
  {
    ItemsToPbKeepsIds(n.children);
  }

  lemma {:induction false} ItemsToPbKeepsIds(items: seq<SectionItem>)
    ensures PbItemsIds(ItemsToPb(items)) == ItemsIds(items)
    decreases items, 1
  {
    if items != [] {
      ItemToPbKeepsIds(items[0]);
      ItemsToPbKeepsIds(items[1..]);
    }
  }

  lemma {:induction false} ItemToPbKeepsIds(it: SectionItem)
    ensures PbItemIds(ItemToPb(it)) == ItemIds(it)
    decreases it, 0
  {
    match it
    case Subsection(node) => NodeToPbKeepsIds(node);
    case Content(section) =>
  }

  // ---------------------------------------------------------------------
  // Metadata and tree

  /** `usize as i32`: the low 32 bits read as two's complement. */
  function AsI32(n: nat): (r: int)
    ensures I32Min <= r <= I32Max
    ensures n <= I32Max ==> r == n
    ensures (r - n) % 0x1_0000_0000 == 0
  {
    var low := n % 0x1_0000_0000;
    if low > I32Max then low - 0x1_0000_0000 else low
  }

  function MetadataToPb(m: DocumentMetadata): PbDocumentMetadata {
    PbDocumentMetadata(AsI32(m.totalElements), AsI32(m.headingCount), AsI32(m.tableCount))
  }

  /** `From<DocumentTree>`: root and metadata are always present. */
  function TreeToPb(t: DocumentTree): (r: PbDocumentTree)
    ensures r.root == Some(NodeToPb(t.root)) && r.metadata == Some(MetadataToPb(t.metadata))
  {
    PbDocumentTree(Some(NodeToPb(t.root)), Some(MetadataToPb(t.metadata)))
  }

  /** Counters that fit in `i32` keep their value; larger ones wrap. */
  lemma MetadataCounts(m: DocumentMetadata)
    ensures m.totalElements <= I32Max ==> MetadataToPb(m).totalElements == m.totalElements
    ensures m.headingCount <= I32Max ==> MetadataToPb(m).headingCount == m.headingCount
    ensures m.tableCount <= I32Max ==> MetadataToPb(m).tableCount == m.tableCount
    ensures AsI32(0x8000_0000) == I32Min
  {
  }
}
