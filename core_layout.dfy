/** The flat document tree of the library parsers (`core/layout.rs`): the
    sections in order, a map from section id to position, and file
    metadata. */
module CoreLayout {
  import opened Wrappers
  import opened Sections

  /** Where an element sits on the page; the coordinates are only stored. */
  datatype PositionInfo = PositionInfo(x: real, y: real, width: real, height: real, pageNumber: Option<nat>)

  datatype FileMetadata = FileMetadata(
    totalPages: nat,
    filePath: string,
    fileSize: nat,
    creationDate: Option<string>,
    modificationDate: Option<string>)

  /** `DocumentMetadata::default()`. */
  const DefaultMetadata: FileMetadata := FileMetadata(0, "", 0, None, None)

  /** The index of the first section with the given id. */
  function FirstIndexWithId(sections: seq<DocumentSection>, id: int): (r: Option<nat>)
    ensures r.Some? ==> r.value < |sections| && sections[r.value].id == id
  {
    if sections == [] then None
    else if sections[0].id == id then Some(0)
    else match FirstIndexWithId(sections[1..], id)
      case None => None
      case Some(k) => Some(k + 1)
  }

  /** `FirstIndexWithId` finds the earliest section with the id, and finds
      none exactly when no section has it. */
  lemma {:induction false} FirstIndexWithIdMeaning(sections: seq<DocumentSection>, id: int)
    ensures FirstIndexWithId(sections, id).None? <==> forall k | 0 <= k < |sections| :: sections[k].id != id
    ensures FirstIndexWithId(sections, id).Some? ==>
              forall k | 0 <= k < FirstIndexWithId(sections, id).value :: sections[k].id != id
  {
    if sections != [] && sections[0].id != id {
      FirstIndexWithIdMeaning(sections[1..], id);
      assert forall k | 1 <= k < |sections| :: sections[k] == sections[1..][k - 1];
    }
  }

  /** The sections after `update_section(id, text)`: the raw text of the
      first section with that id replaced, nothing else changed. */
  function WithText(sections: seq<DocumentSection>, id: int, text: string): (r: seq<DocumentSection>)
    ensures |r| == |sections|
  {
    match FirstIndexWithId(sections, id)
    case None => sections
    case Some(k) => sections[k := sections[k].(rawText := text)]
  }

  /** Updating touches only the first section with the id, and only its
      raw text; an absent id changes nothing. */
  lemma WithTextChangesFirstOnly(sections: seq<DocumentSection>, id: int, text: string)
    ensures (forall k | 0 <= k < |sections| :: sections[k].id != id) ==> WithText(sections, id, text) == sections
    ensures forall k | 0 <= k < |sections| ::
              WithText(sections, id, text)[k] ==
                if FirstIndexWithId(sections, id) == Some(k) then sections[k].(rawText := text) else sections[k]
    ensures forall k | 0 <= k < |sections| :: sections[k].id == id && (forall j | 0 <= j < k :: sections[j].id != id)
              ==> WithText(sections, id, text)[k].rawText == text
  {
    FirstIndexWithIdMeaning(sections, id);
    forall k | 0 <= k < |sections| && sections[k].id == id && (forall j | 0 <= j < k :: sections[j].id != id)
      ensures FirstIndexWithId(sections, id) == Some(k)
    {
      var f := FirstIndexWithId(sections, id);
      assert f.Some?;
      assert !(f.value < k);
      assert !(k < f.value);
    }
  }

  class DocumentTree {
    var sections: seq<DocumentSection>
    var positions: map<int, PositionInfo>
    var metadata: FileMetadata

    /** `DocumentTree::new()`: no sections, no positions, default metadata. */
    constructor()
      ensures sections == [] && positions == map[] && metadata == DefaultMetadata
    {
      sections := [];
      positions := map[];
      metadata := DefaultMetadata;
    }

    /** The struct literal the parsers build: the given sections and
        metadata, and no positions. */
    constructor Literal(sections: seq<DocumentSection>, metadata: FileMetadata)
      ensures this.sections == sections && this.positions == map[] && this.metadata == metadata
    {
      this.sections := sections;
      this.positions := map[];
      this.metadata := metadata;
    }

    /** `add_section_with_position`: the section is appended and its id
        now maps to the position, replacing any earlier entry. */
    method AddSectionWithPosition(section: DocumentSection, position: PositionInfo)
      modifies this
      ensures sections == old(sections) + [section]
      ensures positions == old(positions)[section.id := position]
      ensures metadata == old(metadata)
      ensures GetPositionById(section.id) == Some(position)
      ensures GetSectionById(section.id).Some?
    {
      sections := sections + [section];
      positions := positions[section.id := position];
      FirstIndexWithIdMeaning(sections, section.id);
      assert sections[|sections| - 1].id == section.id;
    }

    /** `get_section_by_id`: the first section with the id. */
    function GetSectionById(id: int): (r: Option<DocumentSection>)
      reads this
      ensures r.Some? ==> r.value in sections && r.value.id == id
    {
      match FirstIndexWithId(sections, id)
      case None => None
      case Some(k) => Some(sections[k])
    }

    /** `get_position_by_id`. */
    function GetPositionById(id: int): (r: Option<PositionInfo>)
      reads this
      ensures r.Some? <==> id in positions
      ensures r.Some? ==> r.value == positions[id]
    {
      if id in positions then Some(positions[id]) else None
    }

    /** `update_section`: the raw text of the first section with the id is
        replaced; positions and metadata are untouched. */
    method UpdateSection(id: int, newContent: string)
      modifies this
      ensures sections == WithText(old(sections), id, newContent)
      ensures positions == old(positions) && metadata == old(metadata)
    {
      var k := 0;
      while k < |sections| && sections[k].id != id
        invariant 0 <= k <= |sections|
        invariant forall j | 0 <= j < k :: sections[j].id != id
        invariant sections == old(sections)
      {
        k := k + 1;
      }
      FirstIndexWithIdMeaning(sections, id);
      if k < |sections| {
        var f := FirstIndexWithId(sections, id);
        assert f.Some? && !(f.value < k) && !(k < f.value);
        sections := sections[k := sections[k].(rawText := newContent)];
      }
    }
  }

  /** What `get_section_by_id` finds: a section exactly when one has the
      id, and then the first of them. */
  lemma GetSectionByIdMeaning(tree: DocumentTree, id: int)
    ensures tree.GetSectionById(id).None? <==> forall k | 0 <= k < |tree.sections| :: tree.sections[k].id != id
    ensures tree.GetSectionById(id).Some? ==>
              exists k | 0 <= k < |tree.sections| :: tree.GetSectionById(id).value == tree.sections[k]
                && forall j | 0 <= j < k :: tree.sections[j].id != id
  {
    FirstIndexWithIdMeaning(tree.sections, id);
    if tree.GetSectionById(id).Some? {
      var k := FirstIndexWithId(tree.sections, id).value;
      assert tree.GetSectionById(id).value == tree.sections[k];
    }
  }
}
