/** The annotation writer (`core/writer.rs`): it patches three parts of an
    extracted .docx archive as plain strings, drawing comment ids from a
    process-wide `AtomicI32` counter. The extracted directory is a map
    from part path to content; zip extraction and repackaging are not
    part of this model. */
module Writer {
  import opened Wrappers
  import opened Text
  import opened Sections

  const DocumentPart: string := "word/document.xml"
  const CommentsPart: string := "word/comments.xml"
  const RelsPart: string := "word/_rels/document.xml.rels"

  const BodyClose: string := "</w:body>"
  const CommentsClose: string := "</w:comments>"
  const RelsClose: string := "</Relationships>"
  const CommentsTarget: string := "comments.xml"

  /** The comments part written when the archive has none. */
  const CommentsSkeleton: string :=
    "<?xml version=\"1.0\" encoding=\"UTF-8\" standalone=\"yes\"?>\n"
    + "<w:comments xmlns:w=\"http://schemas.openxmlformats.org/wordprocessingml/2006/main\">\n"
    + "</w:comments>"

  /** The relationships part written when the archive has none. */
  const RelsSkeleton: string :=
    "<?xml version=\"1.0\" encoding=\"UTF-8\" standalone=\"yes\"?>\n"
    + "<Relationships xmlns=\"http://schemas.openxmlformats.org/package/2006/relationships\">\n"
    + "</Relationships>"

  /** The relationship from the main document to the comments part. */
  const CommentRelationship: string :=
    "\n    <Relationship Id=\"rIdComments\" Type=\"http://schemas.openxmlformats.org/officeDocument/2006/relationships/comments\" Target=\"comments.xml\"/>"

  const TwoTo32: int := 0x1_0000_0000

  // ---------------------------------------------------------------------
  // 32-bit two's complement

  /** `x` wrapped into the `i32` range, as `fetch_add` and a release-mode
      subtraction do. */
  function WrapI32(x: int): (r: int)
    ensures I32Min <= r <= I32Max
    ensures I32Min <= x <= I32Max ==> r == x
  {
    (x - I32Min) % TwoTo32 + I32Min
  }

  /** Wrapping then adding one wraps like adding one outright. */
  lemma WrapSucc(x: int)
    ensures WrapI32(WrapI32(x) + 1) == WrapI32(x + 1)
  {
    var q := (x - I32Min) / TwoTo32;
    var r := (x - I32Min) % TwoTo32;
    assert x - I32Min == q * TwoTo32 + r;
    if r + 1 < TwoTo32 {
      assert x + 1 - I32Min == q * TwoTo32 + (r + 1);
    } else {
      assert x + 1 - I32Min == (q + 1) * TwoTo32;
    }
  }

  /** Adding one with `i32` wrap-around. */
  function Succ(v: int): int {
    if v == I32Max then I32Min else v + 1
  }

  /** `c` advanced `k` times by `Succ`. */
  function Advanced(c: int, k: nat): int {
    if k == 0 then c else Succ(Advanced(c, k - 1))
  }

  /** From a value in range, advancing `k` times is adding `k` modulo
      2^32, and below the top of the range it is plain addition. */
  lemma {:induction false} AdvancedWraps(c: int, k: nat)
    requires I32Min <= c <= I32Max
    ensures Advanced(c, k) == WrapI32(c + k)
    ensures c + k <= I32Max ==> Advanced(c, k) == c + k
  {
    if k > 0 {
      AdvancedWraps(c, k - 1);
      WrapSucc(c + k - 1);
      var v := Advanced(c, k - 1);
      assert I32Min <= v <= I32Max;
      if v == I32Max {
        assert WrapI32(v + 1) == I32Min;
      }
    }
  }

  /** The global comment-id counter (`COMMENT_ID_COUNTER`, starting at 1). */
  class CommentCounter {
    var value: int

    ghost predicate Valid()
      reads this
    {
      I32Min <= value <= I32Max
    }

    constructor()
      ensures value == 1 && Valid()
    {
      value := 1;
    }

    /** `fetch_add(1)`: the previous value, the counter advanced with wrap-around. */
    method FetchAdd() returns (previous: int)
      requires Valid()
      modifies this
      ensures Valid()
      ensures previous == old(value) && value == Succ(old(value))
    {
      previous := value;
      value := Succ(value);
    }

    /** `load()`. */
    function Load(): (r: int)
      reads this
      requires Valid()
      ensures I32Min <= r <= I32Max
    {
      value
    }
  }

  // ---------------------------------------------------------------------
  // The document part

  /** The ids `n` successive `fetch_add` calls return, starting at `c`. */
  function DrawnIds(c: int, n: nat): (ids: seq<int>)
    ensures |ids| == n
  {
    if n == 0 then [] else DrawnIds(c, n - 1) + [Advanced(c, n - 1)]
  }

  /** The `k`-th draw returns the starting value advanced `k` times. */
  lemma {:induction false} DrawnIdsAt(c: int, n: nat, k: nat)
    requires k < n
    ensures DrawnIds(c, n)[k] == Advanced(c, k)
  {
    if k < n - 1 {
      DrawnIdsAt(c, n - 1, k);
    }
  }

  /** Below the top of the `i32` range the drawn ids are consecutive from
      `c`: strictly increasing, so no id is drawn twice. */
  lemma DrawnIdsIncrease(c: int, n: nat)
    requires I32Min <= c && c + n - 1 <= I32Max
    ensures forall k | 0 <= k < n :: DrawnIds(c, n)[k] == c + k
    ensures forall k, l | 0 <= k < l < n :: DrawnIds(c, n)[k] < DrawnIds(c, n)[l]
  {
    forall k | 0 <= k < n
      ensures DrawnIds(c, n)[k] == c + k
    {
      DrawnIdsAt(c, n, k);
      AdvancedWraps(c, k);
    }
  }

  function CommentReference(id: int): string {
    "<w:commentReference w:id=\"" + IntToString(id) + "\"/>"
  }

  /** The reference elements for `ids`, in order. */
  function References(ids: seq<int>): (refs: seq<string>)
    ensures |refs| == |ids|
  {
    if ids == [] then [] else References(ids[..|ids| - 1]) + [CommentReference(ids[|ids| - 1])]
  }

  lemma {:induction false} ReferencesAt(ids: seq<int>, k: nat)
    requires k < |ids|
    ensures References(ids)[k] == CommentReference(ids[k])
  {
    if k < |ids| - 1 {
      ReferencesAt(ids[..|ids| - 1], k);
    }
  }

  /** The document part after the references for `ids` are placed: joined
      by single spaces, preceded by one space, just before the last
      `</w:body>`; nothing changes without ids or without that tag. */
  function PatchDocument(content: string, ids: seq<int>): (r: string)
  {
    if ids == [] then content
    else InsertBeforeLast(content, BodyClose, " " + Join(References(ids), " "))
  }

  /** The patch inserts one block at the last `</w:body>` and keeps every
      other character: cutting the block out gives the content back. */
  lemma PatchDocumentInserts(content: string, ids: seq<int>)
    ensures ids == [] || !Contains(content, BodyClose) ==> PatchDocument(content, ids) == content
    ensures ids != [] && Contains(content, BodyClose) ==>
              var i := LastIndexOf(content, BodyClose).value;
              var block := " " + Join(References(ids), " ");
              var r := PatchDocument(content, ids);
              |r| == |content| + |block|
              && r[..i] == content[..i]
              && r[i..i + |block|] == block
              && r[i + |block|..] == content[i..]
              && OccursAt(r, BodyClose, i + |block|)
  {
    if ids != [] && Contains(content, BodyClose) {
      var i := LastIndexOf(content, BodyClose).value;
      var block := " " + Join(References(ids), " ");
      var r := PatchDocument(content, ids);
      assert r == content[..i] + block + content[i..];
      assert r[i + |block|..] == content[i..];
      assert r[i + |block|..i + |block| + |BodyClose|] == content[i..i + |BodyClose|];
    }
  }

  // ---------------------------------------------------------------------
  // The comments part

  /** `issues.iter().position(|i| i.id == id)`. */
  function FirstWithId(issues: seq<Issue>, id: int): (r: Option<nat>)
    ensures r.Some? ==> r.value < |issues| && issues[r.value].id == id
                        && forall j | 0 <= j < r.value :: issues[j].id != id
    ensures r.None? ==> forall j | 0 <= j < |issues| :: issues[j].id != id
  {
    if issues == [] then None
    else if issues[0].id == id then Some(0)
    else match FirstWithId(issues[1..], id)
      case None => None
      case Some(k) => Some(k + 1)
  }

  /** The comment id the writer gives issue `k`: the counter's current
      value minus the position of the first issue with the same `id`
      (`unwrap_or(0)` when there is none), wrapped to `i32`. */
  function CommentIdOf(counter: int, issues: seq<Issue>, k: nat): int
    requires k < |issues|
  {
    WrapI32(counter - FirstWithId(issues, issues[k].id).GetOr(0))
  }

  /** Issues with equal `id` get equal comment ids, and an issue whose
      `id` is new is numbered from its own position. */
  lemma CommentIdsByFirstPosition(counter: int, issues: seq<Issue>, k: nat, l: nat)
    requires k < |issues| && l < |issues|
    ensures issues[k].id == issues[l].id ==> CommentIdOf(counter, issues, k) == CommentIdOf(counter, issues, l)
    ensures (forall j | 0 <= j < k :: issues[j].id != issues[k].id) ==>
              CommentIdOf(counter, issues, k) == WrapI32(counter - k)
  {
    var f := FirstWithId(issues, issues[k].id);
    assert f.Some? && f.value <= k;
    if forall j | 0 <= j < k :: issues[j].id != issues[k].id {
      assert f.value == k;
    }
  }

  /** The ids the comments loop assigns, as the code is written. */
  function CommentIds(counter: int, issues: seq<Issue>): (ids: seq<int>)
    ensures |ids| == |issues|
  {
    seq(|issues|, k requires 0 <= k < |issues| => CommentIdOf(counter, issues, k))
  }

  /** One comment element: its id, the timestamp, the escaped message. */
  function CommentXml(id: int, date: string, text: string): string {
    "\n    <w:comment w:id=\"" + IntToString(id) + "\" w:author=\"AI Auditor\" w:date=\"" + date + "\">"
    + "\n        <w:p>"
    + "\n            <w:pPr>"
    + "\n                <w:pStyle w:val=\"CommentText\"/>"
    + "\n            </w:pPr>"
    + "\n            <w:r>"
    + "\n                <w:rPr>"
    + "\n                    <w:rStyle w:val=\"CommentReference\"/>"
    + "\n                </w:rPr>"
    + "\n                <w:t>" + text + "</w:t>"
    + "\n            </w:r>"
    + "\n        </w:p>"
    + "\n    </w:comment>"
  }

  /** The comment elements for the issues, in issue order; `date(k)` is
      the timestamp taken for issue `k` and `escape` the text escaping. */
  function CommentBlocks(ids: seq<int>, issues: seq<Issue>, date: nat -> string, escape: string -> string): (r: seq<string>)
    requires |ids| == |issues|
    ensures |r| == |issues|
    ensures forall k | 0 <= k < |issues| :: r[k] == CommentXml(ids[k], date(k), escape(issues[k].message))
  {
    seq(|issues|, k requires 0 <= k < |issues| => CommentXml(ids[k], date(k), escape(issues[k].message)))
  }

  /** `s` after inserting each of `ts` in turn before the last `p`. */
  function InsertEachBeforeLast(s: string, p: string, ts: seq<string>): string
    decreases |ts|
  {
    if ts == [] then s
    else InsertEachBeforeLast(InsertBeforeLast(s, p, ts[0]), p, ts[1..])
  }

  /** Each insertion lands before the same occurrence of `p`, so the
      inserted texts follow the earlier content in order; with no `p`
      nothing changes. */
  lemma {:induction false} InsertEachInOrder(s: string, p: string, ts: seq<string>)
    ensures LastIndexOf(s, p).None? ==> InsertEachBeforeLast(s, p, ts) == s
    ensures LastIndexOf(s, p).Some? ==>
              var i := LastIndexOf(s, p).value;
              InsertEachBeforeLast(s, p, ts) == s[..i] + Concat(ts) + s[i..]
    decreases |ts|
  {
    if ts != [] {
      var next := InsertBeforeLast(s, p, ts[0]);
      InsertEachInOrder(next, p, ts[1..]);
      if LastIndexOf(s, p).Some? {
        var i := LastIndexOf(s, p).value;
        InsertKeepsLast(s, p, ts[0], i);
        assert next[..i + |ts[0]|] == s[..i] + ts[0];
        assert next[i + |ts[0]|..] == s[i..];
      }
    }
  }

  /** A slice of a suffix is a slice of the whole. */
  lemma SliceOfSuffix(s: string, i: nat, j: nat, m: nat)
    requires i + j + m <= |s|
    ensures s[i..][j..j + m] == s[i + j..i + j + m]
  {
  }

  /** Inserting the texts from position `k` on is inserting the `k`-th,
      then the rest. */
  lemma InsertEachStep(s: string, p: string, ts: seq<string>, k: nat)
    requires k < |ts|
    ensures InsertEachBeforeLast(s, p, ts[k..]) == InsertEachBeforeLast(InsertBeforeLast(s, p, ts[k]), p, ts[k + 1..])
  {
    assert ts[k..][1..] == ts[k + 1..];
  }

  /** After one insertion before the last `p`, that `p` is still the last. */
  lemma InsertKeepsLast(s: string, p: string, t: string, i: nat)
    requires LastIndexOf(s, p) == Some(i)
    ensures InsertBeforeLast(s, p, t) == s[..i] + t + s[i..]
    ensures LastIndexOf(InsertBeforeLast(s, p, t), p) == Some(i + |t|)
  {
    var tail := s[i..];
    SliceOfSuffix(s, i, 0, |p|);
    assert tail[..|p|] == tail[0..|p|];
    forall j | 0 < j
      ensures !OccursAt(tail, p, j)
    {
      if j + |p| <= |tail| {
        SliceOfSuffix(s, i, j, |p|);
        assert !OccursAt(s, p, i + j);
      }
    }
    LastIndexAfterPrefix(s[..i] + t, tail, p);
    assert s[..i] + t + tail == (s[..i] + t) + tail;
  }

  /** The comments part the comments step writes. */
  function PatchComments(content: string, ids: seq<int>, issues: seq<Issue>, date: nat -> string, escape: string -> string): string
    requires |ids| == |issues|
  {
    InsertEachBeforeLast(content, CommentsClose, CommentBlocks(ids, issues, date, escape))
  }

  // ---------------------------------------------------------------------
  // The relationships part

  /** The relationships part after the comments relationship is added
      before the last `</Relationships>`, unless the part already names
      `comments.xml`. */
  function PatchRels(content: string): (r: string)
  {
    if Contains(content, CommentsTarget) then content
    else InsertBeforeLast(content, RelsClose, CommentRelationship)
  }

  /** The added relationship names the comments part. */
  lemma RelationshipNamesComments()
    ensures Contains(CommentRelationship, CommentsTarget)
  {
    assert OccursAt(CommentRelationship, CommentsTarget, |CommentRelationship| - 15);
  }

  /** Any string holding `t` keeps holding it with text around it. */
  lemma ContainsInside(a: string, t: string, b: string, p: string)
    requires Contains(t, p)
    ensures Contains(a + t + b, p)
  {
    var j :| 0 <= j <= |t| - |p| && OccursAt(t, p, j);
    assert (a + t + b)[|a| + j..|a| + j + |p|] == t[j..j + |p|];
    assert OccursAt(a + t + b, p, |a| + j);
  }

  /** After the patch the part names `comments.xml` exactly when it has a
      closing tag or already named it; so patching twice is patching once. */
  lemma PatchRelsIdempotent(content: string)
    ensures Contains(PatchRels(content), CommentsTarget) <==>
              Contains(content, CommentsTarget) || Contains(content, RelsClose)
    ensures PatchRels(PatchRels(content)) == PatchRels(content)
  {
    if !Contains(content, CommentsTarget) && Contains(content, RelsClose) {
      var i := LastIndexOf(content, RelsClose).value;
      RelationshipNamesComments();
      ContainsInside(content[..i], CommentRelationship, content[i..], CommentsTarget);
    }
  }

  // ---------------------------------------------------------------------
  // The archive steps

  /** The three part paths are different. */
  lemma PartsDistinct()
    ensures DocumentPart != CommentsPart && DocumentPart != RelsPart && CommentsPart != RelsPart
  {
    assert DocumentPart[5] != CommentsPart[5];
    assert |DocumentPart| != |RelsPart| && |CommentsPart| != |RelsPart|;
  }

  /** The part's content, or `fallback` when the archive lacks it. */
  function PartOr(parts: map<string, string>, path: string, fallback: string): string {
    if path in parts then parts[path] else fallback
  }

  /** The parts after a document step that does not fail, drawing from a
      counter at `counter`. */
  function DocumentStep(parts: map<string, string>, counter: int, issues: seq<Issue>): map<string, string> {
    if DocumentPart in parts then parts[DocumentPart := PatchDocument(parts[DocumentPart], DrawnIds(counter, |issues|))]
    else parts
  }

  /** How far the document step advances the counter. */
  function Drawn(parts: map<string, string>, issues: seq<Issue>): nat {
    if DocumentPart in parts then |issues| else 0
  }

  /** The parts after a comments step that numbers the comments `ids`. */
  function CommentsStepWith(parts: map<string, string>, ids: seq<int>, issues: seq<Issue>, date: nat -> string, escape: string -> string): map<string, string>
    requires |ids| == |issues|
  {
    parts[CommentsPart := PatchComments(PartOr(parts, CommentsPart, CommentsSkeleton), ids, issues, date, escape)]
  }

  /** The parts after the comments step, reading a counter at `counter`. */
  function CommentsStep(parts: map<string, string>, counter: int, issues: seq<Issue>, date: nat -> string, escape: string -> string): map<string, string> {
    CommentsStepWith(parts, CommentIds(counter, issues), issues, date, escape)
  }

  /** The parts after the relationships step. */
  function RelsStep(parts: map<string, string>): map<string, string> {
    parts[RelsPart := PatchRels(PartOr(parts, RelsPart, RelsSkeleton))]
  }

  /** The relationships step applied twice is the step applied once. */
  lemma RelsStepIdempotent(parts: map<string, string>)
    ensures RelsStep(RelsStep(parts)) == RelsStep(parts)
  {
    PatchRelsIdempotent(PartOr(parts, RelsPart, RelsSkeleton));
  }

  /** The archive after all three steps, for a document step that does not
      fail, with the counter at `counter` before the document step. */
  function Annotated(parts: map<string, string>, counter: int, issues: seq<Issue>, date: nat -> string, escape: string -> string): map<string, string> {
    RelsStep(CommentsStep(DocumentStep(parts, counter, issues), Advanced(counter, Drawn(parts, issues)), issues, date, escape))
  }

  /** One more draw adds the reference for the next counter value. */
  lemma ReferencesStep(c: int, k: nat)
    ensures References(DrawnIds(c, k + 1)) == References(DrawnIds(c, k)) + [CommentReference(Advanced(c, k))]
  {
    var ids := DrawnIds(c, k + 1);
    assert ids[..k] == DrawnIds(c, k);
  }

  /** The references for `n` issues, drawing one counter value for each. */
  method DrawReferences(counter: CommentCounter, n: nat) returns (refs: seq<string>)
    requires counter.Valid()
    modifies counter
    ensures counter.Valid()
    ensures refs == References(DrawnIds(old(counter.value), n))
    ensures counter.value == Advanced(old(counter.value), n)
  {
    ghost var start := counter.value;
    refs := [];
    var k := 0;
    while k < n
      invariant 0 <= k <= n
      invariant counter.Valid() && counter.value == Advanced(start, k)
      invariant refs == References(DrawnIds(start, k))
    {
      var id := counter.FetchAdd();
      ReferencesStep(start, k);
      refs := refs + [CommentReference(id)];
      k := k + 1;
    }
  }

  /** The loop of the comments step: each issue's comment, numbered from
      the counter value `counter`, inserted before the last
      `</w:comments>`. */
  method AppendComments(content: string, counter: int, issues: seq<Issue>, date: nat -> string, escape: string -> string)
    returns (updated: string)
    ensures updated == PatchComments(content, CommentIds(counter, issues), issues, date, escape)
  {
    ghost var blocks := CommentBlocks(CommentIds(counter, issues), issues, date, escape);
    updated := content;
    var k := 0;
    while k < |issues|
      invariant 0 <= k <= |issues|
      invariant InsertEachBeforeLast(content, CommentsClose, blocks) == InsertEachBeforeLast(updated, CommentsClose, blocks[k..])
    {
      var comment := CommentXml(CommentIdOf(counter, issues, k), date(k), escape(issues[k].message));
      assert comment == blocks[k];
      InsertEachStep(updated, CommentsClose, blocks, k);
      updated := InsertBeforeLast(updated, CommentsClose, comment);
      k := k + 1;
    }
    assert blocks[k..] == [];
  }

  /** The extracted archive the three steps rewrite. */
  class ExtractedArchive {
    var parts: map<string, string>

    constructor(parts: map<string, string>)
      ensures this.parts == parts
    {
      this.parts := parts;
    }

    /** `update_document_xml_with_comments`: without a document part,
        nothing happens; a part that does not parse is an error; otherwise
        one counter value is drawn per issue and the references are placed
        before the last `</w:body>`. */
    method UpdateDocumentXmlWithComments(counter: CommentCounter, issues: seq<Issue>, parses: string -> bool)
      returns (r: Result<()>)
      requires counter.Valid()
      modifies this, counter
      ensures counter.Valid()
      ensures r.Err? <==> DocumentPart in old(parts) && !parses(old(parts)[DocumentPart])
      ensures r.Err? ==> parts == old(parts) && counter.value == old(counter.value)
      ensures r.Ok? ==> parts == DocumentStep(old(parts), old(counter.value), issues)
                        && counter.value == Advanced(old(counter.value), Drawn(old(parts), issues))
    {
      if DocumentPart !in parts {
        return Ok(());
      }
      var content := parts[DocumentPart];
      if !parses(content) {
        return Err("document.xml is not well-formed");
      }
      var modified := content;
      if |issues| > 0 {
        var refs := DrawReferences(counter, |issues|);
        modified := InsertBeforeLast(modified, BodyClose, " " + Join(refs, " "));
      }
      parts := parts[DocumentPart := modified];
      r := Ok(());
    }

    /** `update_comments_xml`: the existing comments part, or the empty
        skeleton, with one comment per issue inserted in issue order; the
        counter is read, not advanced. */
    method UpdateCommentsXml(counter: CommentCounter, issues: seq<Issue>, date: nat -> string, escape: string -> string)
      requires counter.Valid()
      modifies this
      ensures parts == CommentsStep(old(parts), counter.value, issues, date, escape)
    {
      var content := PartOr(parts, CommentsPart, CommentsSkeleton);
      content := AppendComments(content, counter.Load(), issues, date, escape);
      parts := parts[CommentsPart := content];
    }

    /** `update_relationships`: the existing relationships part, or the
        empty skeleton, with the comments relationship added once. */
    method UpdateRelationships()
      modifies this
      ensures parts == RelsStep(old(parts))
    {
      var content := PartOr(parts, RelsPart, RelsSkeleton);
      if !Contains(content, CommentsTarget) {
        content := InsertBeforeLast(content, RelsClose, CommentRelationship);
      }
      parts := parts[RelsPart := content];
    }
  }

  /** `write_annotations` on the extracted parts: the document step, then
      the comments step, then the relationships step; a document part that
      does not parse stops it before the other two. */
  method WriteAnnotations(original: map<string, string>, counter: CommentCounter, issues: seq<Issue>,
                          parses: string -> bool, date: nat -> string, escape: string -> string)
    returns (r: Result<map<string, string>>)
    requires counter.Valid()
    modifies counter
    ensures counter.Valid()
    ensures r.Err? <==> DocumentPart in original && !parses(original[DocumentPart])
    ensures r.Err? ==> counter.value == old(counter.value)
    ensures r.Ok? ==> r.value == Annotated(original, old(counter.value), issues, date, escape)
                      && counter.value == Advanced(old(counter.value), Drawn(original, issues))
  {
    PartsDistinct();
    var archive := new ExtractedArchive(original);
    var step := archive.UpdateDocumentXmlWithComments(counter, issues, parses);
    if step.Err? {
      return Err(step.message);
    }
    archive.UpdateCommentsXml(counter, issues, date, escape);
    archive.UpdateRelationships();
    r := Ok(archive.parts);
  }

  /** The steps touch only the three parts they patch; every other part
      keeps its content. */
  lemma AnnotatedKeepsOthers(parts: map<string, string>, counter: int, issues: seq<Issue>, date: nat -> string, escape: string -> string)
    ensures var out := Annotated(parts, counter, issues, date, escape);
            forall path | path in parts && path != DocumentPart && path != CommentsPart && path != RelsPart :: path in out && out[path] == parts[path]
  {
  }

  /** Without a document part the other two steps still run: the result
      has no document part but always a comments and a relationships
      part. */
  lemma AnnotatedWithoutDocument(parts: map<string, string>, counter: int, issues: seq<Issue>, date: nat -> string, escape: string -> string)
    requires DocumentPart !in parts
    ensures var out := Annotated(parts, counter, issues, date, escape);
            DocumentPart !in out && CommentsPart in out && RelsPart in out
  {
    PartsDistinct();
    assert DocumentStep(parts, counter, issues) == parts;
  }

  /** Without a document part the counter is not advanced before the
      comments step, so the comments are numbered from it as it was. */
  lemma AnnotatedCommentsWithoutDocument(parts: map<string, string>, counter: int, issues: seq<Issue>, date: nat -> string, escape: string -> string)
    requires DocumentPart !in parts
    ensures Annotated(parts, counter, issues, date, escape)[CommentsPart]
            == PatchComments(PartOr(parts, CommentsPart, CommentsSkeleton), CommentIds(counter, issues), issues, date, escape)
  {
    PartsDistinct();
    assert DocumentStep(parts, counter, issues) == parts;
    assert Drawn(parts, issues) == 0;
  }

  // ---------------------------------------------------------------------
  // Matching comment ids

  /** As written, the comment ids do not match the reference ids: with
      one issue and the counter at 1, the document references id 1 while
      the comment is numbered 2. */
  lemma CommentIdsMismatch()
    ensures var issues := [Issue(7, "m", 1)];
            DrawnIds(1, 1) == [1]
            && CommentIds(Advanced(1, 1), issues) == [2]
  {
    var issues := [Issue(7, "m", 1)];
    assert FirstWithId(issues, 7) == Some(0);
    assert CommentIds(2, issues)[0] == CommentIdOf(2, issues, 0);
  }

  /** The ids the comments should carry so that each comment answers the
      reference drawn for the same issue: the counter value before the
      document step plus the issue's position. */
  function MatchingCommentIds(counterBefore: int, issues: seq<Issue>): (ids: seq<int>)
    ensures |ids| == |issues|
  {
    DrawnIds(counterBefore, |issues|)
  }

  /** As written, an issue whose `id` first appears at position `k` of
      `n` issues has reference id `c + k` in the document but comment id
      `c + n - k` in the comments part, so the two agree only when
      `n == 2 * k` (away from the ends of the `i32` range). */
  lemma CommentIdsAsWritten(c: int, issues: seq<Issue>, k: nat)
    requires k < |issues| && I32Min <= c && c + |issues| <= I32Max
    requires forall j | 0 <= j < k :: issues[j].id != issues[k].id
    ensures DrawnIds(c, |issues|)[k] == c + k
    ensures CommentIds(Advanced(c, |issues|), issues)[k] == c + |issues| - k
  {
    DrawnIdsAt(c, |issues|, k);
    AdvancedWraps(c, k);
    AdvancedWraps(c, |issues|);
    CommentIdsByFirstPosition(c + |issues|, issues, k, k);
  }

  /** With matching ids, the `k`-th reference and the `k`-th comment carry
      the same id, the `k`-th value drawn from the counter. */
  lemma MatchingCommentIdsAgree(counterBefore: int, issues: seq<Issue>, date: nat -> string, escape: string -> string, k: nat)
    requires k < |issues|
    ensures var ids := MatchingCommentIds(counterBefore, issues);
            ids[k] == Advanced(counterBefore, k)
            && References(DrawnIds(counterBefore, |issues|))[k] == CommentReference(ids[k])
            && CommentBlocks(ids, issues, date, escape)[k] == CommentXml(ids[k], date(k), escape(issues[k].message))
  {
    DrawnIdsAt(counterBefore, |issues|, k);
    ReferencesAt(DrawnIds(counterBefore, |issues|), k);
  }

  /** The archive with matching ids: the comments step numbers the
      comments with the values the document step drew. */
  function AnnotatedMatching(parts: map<string, string>, counter: int, issues: seq<Issue>, date: nat -> string, escape: string -> string): map<string, string> {
    RelsStep(CommentsStepWith(DocumentStep(parts, counter, issues), MatchingCommentIds(counter, issues), issues, date, escape))
  }

  /** With matching ids the comments part numbers the comments with the
      values drawn from the counter, one per issue in issue order. */
  lemma AnnotatedMatchingComments(parts: map<string, string>, counter: int, issues: seq<Issue>, date: nat -> string, escape: string -> string)
    ensures var out := AnnotatedMatching(parts, counter, issues, date, escape);
            CommentsPart in out
            && out[CommentsPart] == PatchComments(PartOr(parts, CommentsPart, CommentsSkeleton), DrawnIds(counter, |issues|), issues, date, escape)
  {
    PartsDistinct();
    var d := DocumentStep(parts, counter, issues);
    var base := PartOr(parts, CommentsPart, CommentsSkeleton);
    if DocumentPart in parts {
      UpdateOtherKey(parts, DocumentPart, PatchDocument(parts[DocumentPart], DrawnIds(counter, |issues|)), CommentsPart);
    }
    assert PartOr(d, CommentsPart, CommentsSkeleton) == base;
    var body := PatchComments(base, DrawnIds(counter, |issues|), issues, date, escape);
    var c := d[CommentsPart := body];
    UpdateUnderOther(d, CommentsPart, body, RelsPart, PatchRels(PartOr(c, RelsPart, RelsSkeleton)));
  }

  /** With matching ids the document part references the same values,
      and the archive has a document part exactly when it had one. */
  lemma AnnotatedMatchingDocument(parts: map<string, string>, counter: int, issues: seq<Issue>, date: nat -> string, escape: string -> string)
    ensures var out := AnnotatedMatching(parts, counter, issues, date, escape);
            (DocumentPart in out <==> DocumentPart in parts)
            && (DocumentPart in parts ==> out[DocumentPart] == PatchDocument(parts[DocumentPart], DrawnIds(counter, |issues|)))
  {
    PartsDistinct();
    var d := DocumentStep(parts, counter, issues);
    var c := CommentsStepWith(d, MatchingCommentIds(counter, issues), issues, date, escape);
    KeepsOtherKey(d, CommentsPart, c[CommentsPart], RelsPart, PatchRels(PartOr(c, RelsPart, RelsSkeleton)), DocumentPart);
  }

  /** An update at another key leaves a key as it was. */
  lemma UpdateOtherKey<K, V>(m: map<K, V>, k: K, v: V, j: K)
    requires j != k
    ensures (j in m[k := v] <==> j in m)
    ensures j in m ==> m[k := v][j] == m[j]
  {
  }

  /** A value stored at `k1` survives a later update at another key. */
  lemma UpdateUnderOther<K, V>(m: map<K, V>, k1: K, v1: V, k2: K, v2: V)
    requires k1 != k2
    ensures k1 in m[k1 := v1][k2 := v2] && m[k1 := v1][k2 := v2][k1] == v1
  {
  }

  /** Two updates at other keys leave a key as it was. */
  lemma KeepsOtherKey<K, V>(m: map<K, V>, k1: K, v1: V, k2: K, v2: V, j: K)
    requires j != k1 && j != k2
    ensures (j in m[k1 := v1][k2 := v2] <==> j in m)
    ensures j in m ==> m[k1 := v1][k2 := v2][j] == m[j]
  {
  }
}
