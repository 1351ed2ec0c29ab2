/** `LayoutModeler`: the outline tree of a parsed document. One pass over
    the elements keeps an index arena of heading nodes and a stack of
    arena indices (the open headings, the synthetic root at the bottom);
    a heading closes every open heading at its level or deeper, the other
    elements go under the innermost open heading. */
module LayoutModeler {
  import opened Sections

  // ---------------------------------------------------------------------
  // The outline as a pure definition

  /** The node an element contributes when it is attached. */
  function ItemFor(e: DocumentSection): SectionItem {
    match e.elementType
    case Heading(level) => Subsection(SectionNode(e.id, e.rawText, level, e.xmlPath, []))
    case _ => Content(e)
  }

  /** Whether attaching `e` goes on below the open heading `m`: a heading
      only below a heading of a lower level, any other element always. */
  predicate GoesBelow(level: nat, e: DocumentSection) {
    match e.elementType
    case Heading(l) => level < l
    case _ => true
  }

  /** Attaching `e` to `n` goes down into `n`'s last child. */
  predicate Descends(n: SectionNode, e: DocumentSection) {
    |n.children| > 0 && Last(n.children).Subsection? && GoesBelow(Last(n.children).node.level, e)
  }

  /** `n` with `e` attached along its rightmost path: down through the last
      child as long as it is a subsection `e` goes below, then appended. */
  function Attach(n: SectionNode, e: DocumentSection): SectionNode
    decreases n
  {
    var cs := n.children;
    if Descends(n, e) then
      n.(children := cs[..|cs| - 1] + [Subsection(Attach(cs[|cs| - 1].node, e))])
    else n.(children := cs + [ItemFor(e)])
  }

  const RootSection := SectionNode(0, "Root", 0, "document.xml#root", [])

  /** The outline of `es`: each element attached in order to the root. */
  function Outline(es: seq<DocumentSection>): SectionNode {
    if es == [] then RootSection else Attach(Outline(es[..|es| - 1]), es[|es| - 1])
  }

  /** An entry of the preorder walk of an outline: a heading node's own
      fields, or a content element. */
  datatype Entry = HeadingEntry(id: int, title: string, level: nat, xmlPath: string) | ContentEntry(section: DocumentSection)

  /** The entry an input element should produce: a heading keeps its id,
      text (as title), level and path; any other element is kept whole. */
  function EntryOf(e: DocumentSection): Entry {
    match e.elementType
    case Heading(level) => HeadingEntry(e.id, e.rawText, level, e.xmlPath)
    case _ => ContentEntry(e)
  }

  function EntriesOf(es: seq<DocumentSection>): seq<Entry> {
    if es == [] then [] else EntriesOf(es[..|es| - 1]) + [EntryOf(es[|es| - 1])]
  }

  /** The preorder walk below `n` (not counting `n` itself). */
  function NodeEntries(n: SectionNode): seq<Entry>
    decreases n, 2
  {
    ItemsEntries(n.children)
  }

  function ItemsEntries(items: seq<SectionItem>): seq<Entry>
    decreases items, 1
  {
    if items == [] then [] else ItemsEntries(items[..|items| - 1]) + ItemEntries(items[|items| - 1])
  }

  function ItemEntries(item: SectionItem): seq<Entry>
    decreases item, 0
  {
    match item
    case Subsection(m) => [HeadingEntry(m.id, m.title, m.level, m.xmlPath)] + NodeEntries(m)
    case Content(s) => [ContentEntry(s)]
  }

  lemma ItemsEntriesSnoc(init: seq<SectionItem>, last: SectionItem)
    ensures ItemsEntries(init + [last]) == ItemsEntries(init) + ItemEntries(last)
  {
    assert (init + [last])[..|init|] == init;
    assert [last][..0] == [];
  }

  /** Attaching an element adds exactly its entry at the end of the walk. */
  lemma {:induction false} AttachEntries(n: SectionNode, e: DocumentSection)
    ensures NodeEntries(Attach(n, e)) == NodeEntries(n) + [EntryOf(e)]
    decreases n
  {
    var cs := n.children;
    if Descends(n, e) {
      var init := cs[..|cs| - 1];
      var m := cs[|cs| - 1].node;
      AttachEntries(m, e);
      assert init + [cs[|cs| - 1]] == cs;
      ItemsEntriesSnoc(init, cs[|cs| - 1]);
      ItemsEntriesSnoc(init, Subsection(Attach(m, e)));
    } else {
      ItemsEntriesSnoc(cs, ItemFor(e));
      if e.elementType.Heading? {
        assert NodeEntries(ItemFor(e).node) == [];
      }
    }
  }

  /** Every element appears exactly once in the outline, and the preorder
      walk reproduces the input order. */
  lemma {:induction false} OutlineEntries(es: seq<DocumentSection>)
    ensures NodeEntries(Outline(es)) == EntriesOf(es)
  {
    if es != [] {
      OutlineEntries(es[..|es| - 1]);
      AttachEntries(Outline(es[..|es| - 1]), es[|es| - 1]);
    }
  }

  /** Below a heading node, every subsection has a strictly higher level. */
  predicate Nested(n: SectionNode)
    decreases n
  {
    forall k | 0 <= k < |n.children| && n.children[k].Subsection? ::
      n.children[k].node.level > n.level && Nested(n.children[k].node)
  }

  /** The root may hold headings of any level; below it levels nest. */
  predicate RootNested(root: SectionNode) {
    forall k | 0 <= k < |root.children| && root.children[k].Subsection? :: Nested(root.children[k].node)
  }

  lemma {:induction false} AttachNested(n: SectionNode, e: DocumentSection)
    requires Nested(n) && GoesBelow(n.level, e)
    ensures Nested(Attach(n, e)) && Attach(n, e).level == n.level
    decreases n
  {
    var cs := n.children;
    if Descends(n, e) {
      AttachNested(cs[|cs| - 1].node, e);
    }
  }

  lemma AttachRootNested(root: SectionNode, e: DocumentSection)
    requires RootNested(root)
    ensures RootNested(Attach(root, e))
  {
    var cs := root.children;
    if Descends(root, e) {
      AttachNested(cs[|cs| - 1].node, e);
    }
  }

  /** Heading levels strictly increase along every path below the root. */
  lemma {:induction false} OutlineNested(es: seq<DocumentSection>)
    ensures RootNested(Outline(es))
  {
    if es != [] {
      OutlineNested(es[..|es| - 1]);
      AttachRootNested(Outline(es[..|es| - 1]), es[|es| - 1]);
    }
  }

  /** The number of elements of `es` satisfying `p`. */
  function Count(es: seq<DocumentSection>, p: DocumentSection -> bool): nat {
    if es == [] then 0 else Count(es[..|es| - 1], p) + (if p(es[|es| - 1]) then 1 else 0)
  }

  // ---------------------------------------------------------------------
  // The arena

  datatype TempItem = TempSub(index: nat) | TempContent(section: DocumentSection)
  datatype TempNode = TempNode(id: int, title: string, level: nat, xmlPath: string, children: seq<TempItem>)

  const RootTemp := TempNode(0, "Root", 0, "document.xml#root", [])

  /** Every child index points past its parent and into the arena. */
  ghost predicate ValidArena(a: seq<TempNode>) {
    forall x, t | 0 <= x < |a| && 0 <= t < |a[x].children| ::
      a[x].children[t].TempSub? ==> x < a[x].children[t].index < |a|
  }

  ghost predicate ItemsIn(items: seq<TempItem>, lo: int, hi: int) {
    forall t | 0 <= t < |items| :: items[t].TempSub? ==> lo < items[t].index < hi
  }

  /** The final tree of the arena node `idx`. */
  function ConvertToFinal(a: seq<TempNode>, idx: nat): SectionNode
    requires ValidArena(a) && idx < |a|
    decreases |a| - idx, 1
  {
    var n := a[idx];
    SectionNode(n.id, n.title, n.level, n.xmlPath, ConvertItems(a, idx, n.children))
  }

  function ConvertItems(a: seq<TempNode>, parent: nat, items: seq<TempItem>): (r: seq<SectionItem>)
    requires ValidArena(a) && parent < |a| && ItemsIn(items, parent, |a|)
    ensures |r| == |items|
    decreases |a| - parent, 0, |items|
  {
    if items == [] then []
    else
      ConvertItems(a, parent, items[..|items| - 1]) +
      match items[|items| - 1]
      case TempSub(c) => [Subsection(ConvertToFinal(a, c))]
      case TempContent(s) => [Content(s)]
  }

  lemma ConvertItemsSnoc(a: seq<TempNode>, parent: nat, init: seq<TempItem>, last: TempItem)
    requires ValidArena(a) && parent < |a| && ItemsIn(init + [last], parent, |a|)
    ensures ItemsIn(init, parent, |a|) && ItemsIn([last], parent, |a|)
    ensures ConvertItems(a, parent, init + [last]) == ConvertItems(a, parent, init) + ConvertItems(a, parent, [last])
  {
    assert forall t | 0 <= t < |init| :: init[t] == (init + [last])[t];
    assert (init + [last])[|init|] == last;
    assert (init + [last])[..|init|] == init;
    assert [last][..0] == [];
  }

  /** Every index in `[c, d)` has its children below `d`: the subtree
      rooted at `c` lies inside `[c, d)`. */
  ghost predicate BoundedBy(a: seq<TempNode>, c: int, d: int) {
    forall z, w | c <= z < d && 0 <= z < |a| && 0 <= w < |a[z].children| ::
      a[z].children[w].TempSub? ==> a[z].children[w].index < d
  }

  /** A subsection followed by a later subsection sibling is closed: its
      subtree ends before that sibling. */
  ghost predicate SiblingsBounded(a: seq<TempNode>) {
    forall x, t, u | 0 <= x < |a| && 0 <= t < u < |a[x].children|
                     && a[x].children[t].TempSub? && a[x].children[u].TempSub? ::
      a[x].children[t].index < a[x].children[u].index
      && BoundedBy(a, a[x].children[t].index, a[x].children[u].index)
  }

  /** No open heading lies inside a closed subtree. */
  ghost predicate StackOutsideClosed(a: seq<TempNode>, stack: seq<nat>) {
    forall x, t, u, k | 0 <= x < |a| && 0 <= t < u < |a[x].children|
                        && a[x].children[t].TempSub? && a[x].children[u].TempSub? && 0 <= k < |stack| ::
      !(a[x].children[t].index <= stack[k] < a[x].children[u].index)
  }

  function Last<T>(s: seq<T>): T
    requires |s| > 0
  {
    s[|s| - 1]
  }

  /** The stack is the rightmost path of the arena from the root: it
      starts at the root, each entry is the last child of the one below,
      heading levels above the root strictly increase, and the top's last
      child (if any) is not a subsection. */
  ghost predicate StackShape(a: seq<TempNode>, stack: seq<nat>) {
    |stack| >= 1 && stack[0] == 0
    && (forall k | 0 <= k < |stack| :: stack[k] < |a|)
    && (forall k, l | 0 <= k < l < |stack| :: stack[k] < stack[l])
    && (forall k | 0 <= k < |stack| - 1 ::
          |a[stack[k]].children| > 0 && Last(a[stack[k]].children) == TempSub(stack[k + 1]))
    && (forall k | 1 <= k < |stack| - 1 :: a[stack[k]].level < a[stack[k + 1]].level)
    && (a[Last(stack)].children == [] || !Last(a[Last(stack)].children).TempSub?)
  }

  ghost predicate Inv(a: seq<TempNode>, stack: seq<nat>) {
    ValidArena(a) && SiblingsBounded(a) && StackOutsideClosed(a, stack) && StackShape(a, stack)
  }

  /** `a` with `item` appended to the children of node `x`. */
  function AppendChild(a: seq<TempNode>, x: nat, item: TempItem): seq<TempNode>
    requires x < |a|
  {
    a[x := a[x].(children := a[x].children + [item])]
  }

  /** The conversion of `c` reads only the arena entries in `[c, d)`. */
  lemma {:induction false} NodeFrame(a: seq<TempNode>, b: seq<TempNode>, c: nat, d: nat)
    requires ValidArena(a) && ValidArena(b) && c < d <= |a| <= |b| && BoundedBy(a, c, d)
    requires forall z | c <= z < d :: b[z] == a[z]
    ensures ConvertToFinal(b, c) == ConvertToFinal(a, c)
    decreases |a| - c, 1
  {
    var items := a[c].children;
    assert ItemsIn(items, c, d);
    ItemsFrame(a, b, c, d, items);
  }

  lemma {:induction false} ItemsFrame(a: seq<TempNode>, b: seq<TempNode>, x: nat, d: nat, items: seq<TempItem>)
    requires ValidArena(a) && ValidArena(b) && x < d <= |a| <= |b| && ItemsIn(items, x, d)
    requires forall t | 0 <= t < |items| && items[t].TempSub? :: BoundedBy(a, items[t].index, d)
    requires forall z | x < z < d :: b[z] == a[z]
    ensures ConvertItems(b, x, items) == ConvertItems(a, x, items)
    decreases |a| - x, 0, |items|
  {
    if items != [] {
      var init := items[..|items| - 1];
      assert forall t | 0 <= t < |init| :: init[t] == items[t];
      ItemsFrame(a, b, x, d, init);
      match Last(items)
      case TempSub(c) =>
        NodeFrame(a, b, c, d);
      case TempContent(_) =>
    }
  }

  lemma ConvertOfLast(a: seq<TempNode>, x: nat)
    requires ValidArena(a) && x < |a| && |a[x].children| > 0
    ensures var cs := a[x].children;
            var conv := ConvertToFinal(a, x).children;
            ItemsIn(cs[..|cs| - 1], x, |a|)
            && conv == ConvertItems(a, x, cs[..|cs| - 1]) + ConvertItems(a, x, [Last(cs)])
            && (Last(cs).TempSub? ==> Last(conv) == Subsection(ConvertToFinal(a, Last(cs).index)))
            && (!Last(cs).TempSub? ==> !Last(conv).Subsection?)
  {
    var cs := a[x].children;
    assert cs[..|cs| - 1] + [Last(cs)] == cs;
    ConvertItemsSnoc(a, x, cs[..|cs| - 1], Last(cs));
  }

  /** The heading node `e` creates, with no children yet. */
  function Leaf(e: DocumentSection): TempNode
    requires e.elementType.Heading?
  {
    TempNode(e.id, e.rawText, e.elementType.level, e.xmlPath, [])
  }

  /** The arena after attaching `e` under the stack entry `stack[p]`. */
  function AttachArena(a: seq<TempNode>, stack: seq<nat>, p: nat, e: DocumentSection): seq<TempNode>
    requires p < |stack| && stack[p] < |a|
  {
    if e.elementType.Heading? then AppendChild(a + [Leaf(e)], stack[p], NewItem(a, e))
    else AppendChild(a, stack[p], NewItem(a, e))
  }

  /** The attaching position `p` is where `Attach` stops along the stack. */
  ghost predicate StopsAt(a: seq<TempNode>, stack: seq<nat>, p: nat, e: DocumentSection)
    requires StackShape(a, stack) && p < |stack|
  {
    (forall j | 1 <= j <= p :: GoesBelow(a[stack[j]].level, e))
    && (p + 1 < |stack| ==> !GoesBelow(a[stack[p + 1]].level, e))
  }

  lemma AttachArenaValid(a: seq<TempNode>, stack: seq<nat>, p: nat, e: DocumentSection)
    requires ValidArena(a) && StackShape(a, stack) && p < |stack|
    ensures ValidArena(AttachArena(a, stack, p, e))
    ensures |AttachArena(a, stack, p, e)| == if e.elementType.Heading? then |a| + 1 else |a|
    ensures forall z | 0 <= z < |a| && z != stack[p] :: AttachArena(a, stack, p, e)[z] == a[z]
  {
    var b := AttachArena(a, stack, p, e);
    var x := stack[p];
    forall z, t | 0 <= z < |b| && 0 <= t < |b[z].children| && b[z].children[t].TempSub?
      ensures z < b[z].children[t].index < |b|
    {
      if z == x && t == |a[x].children| {
      } else if z < |a| {
        assert b[z].children[t] == a[z].children[t];
      }
    }
  }

  /** Attaching at `stack[p]` attaches, at every stack entry up to `p`,
      along the rightmost path of the converted tree. */
  lemma {:induction false} SpineAttach(a: seq<TempNode>, stack: seq<nat>, p: nat, e: DocumentSection, k: nat)
    requires Inv(a, stack) && p < |stack| && k <= p && StopsAt(a, stack, p, e)
    ensures ValidArena(AttachArena(a, stack, p, e))
    ensures ConvertToFinal(AttachArena(a, stack, p, e), stack[k]) == Attach(ConvertToFinal(a, stack[k]), e)
    decreases p - k
  {
    AttachArenaValid(a, stack, p, e);
    if k < p {
      SpineAttach(a, stack, p, e, k + 1);
      SpineDescend(a, stack, p, e, k);
    } else {
      SpineStop(a, stack, p, e);
    }
  }

  /** At the attaching position the element is appended as the last child. */
  lemma SpineStop(a: seq<TempNode>, stack: seq<nat>, p: nat, e: DocumentSection)
    requires ValidArena(a) && StackShape(a, stack) && p < |stack| && StopsAt(a, stack, p, e)
    requires ValidArena(AttachArena(a, stack, p, e))
    ensures ConvertToFinal(AttachArena(a, stack, p, e), stack[p]) == Attach(ConvertToFinal(a, stack[p]), e)
  {
    StopAppends(a, stack, p, e);
    StopStays(a, stack, p, e);
  }

  lemma StopAppends(a: seq<TempNode>, stack: seq<nat>, p: nat, e: DocumentSection)
    requires ValidArena(a) && StackShape(a, stack) && p < |stack|
    requires ValidArena(AttachArena(a, stack, p, e))
    ensures var before := ConvertToFinal(a, stack[p]);
            ConvertToFinal(AttachArena(a, stack, p, e), stack[p]) == before.(children := before.children + [ItemFor(e)])
  {
    var b := AttachArena(a, stack, p, e);
    var x := stack[p];
    var cs := a[x].children;
    var item := NewItem(a, e);
    assert b[x].children == cs + [item];
    ConvertItemsSnoc(b, x, cs, item);
    StopKeepsOld(a, stack, p, e);
    StopConvertsNew(a, stack, p, e);
  }

  /** The item that attaching `e` appends to the arena node. */
  function NewItem(a: seq<TempNode>, e: DocumentSection): TempItem {
    if e.elementType.Heading? then TempSub(|a|) else TempContent(e)
  }

  lemma StopKeepsOld(a: seq<TempNode>, stack: seq<nat>, p: nat, e: DocumentSection)
    requires ValidArena(a) && StackShape(a, stack) && p < |stack|
    requires ValidArena(AttachArena(a, stack, p, e))
    ensures ItemsIn(a[stack[p]].children, stack[p], |a|)
    ensures ConvertItems(AttachArena(a, stack, p, e), stack[p], a[stack[p]].children)
            == ConvertItems(a, stack[p], a[stack[p]].children)
  {
    AttachArenaValid(a, stack, p, e);
    var x := stack[p];
    var cs := a[x].children;
    assert ItemsIn(cs, x, |a|);
    assert forall t | 0 <= t < |cs| && cs[t].TempSub? :: BoundedBy(a, cs[t].index, |a|);
    ItemsFrame(a, AttachArena(a, stack, p, e), x, |a|, cs);
  }

  lemma StopConvertsNew(a: seq<TempNode>, stack: seq<nat>, p: nat, e: DocumentSection)
    requires ValidArena(a) && StackShape(a, stack) && p < |stack|
    requires ValidArena(AttachArena(a, stack, p, e))
    ensures ItemsIn([NewItem(a, e)], stack[p], |AttachArena(a, stack, p, e)|)
    ensures ConvertItems(AttachArena(a, stack, p, e), stack[p], [NewItem(a, e)]) == [ItemFor(e)]
  {
    AttachArenaValid(a, stack, p, e);
    var b := AttachArena(a, stack, p, e);
    if e.elementType.Heading? {
      assert b[|a|] == Leaf(e);
      assert ConvertItems(b, |a|, []) == [];
    }
  }

  lemma StopStays(a: seq<TempNode>, stack: seq<nat>, p: nat, e: DocumentSection)
    requires ValidArena(a) && StackShape(a, stack) && p < |stack| && StopsAt(a, stack, p, e)
    ensures !Descends(ConvertToFinal(a, stack[p]), e)
  {
    var x := stack[p];
    var cs := a[x].children;
    if cs != [] {
      ConvertOfLast(a, x);
      if Last(cs).TempSub? {
        assert p + 1 < |stack| && stack[p + 1] == Last(cs).index;
      }
    }
  }

  /** Above the attaching position the element goes down into the last child. */
  lemma SpineDescend(a: seq<TempNode>, stack: seq<nat>, p: nat, e: DocumentSection, k: nat)
    requires Inv(a, stack) && p < |stack| && k < p && StopsAt(a, stack, p, e)
    requires ValidArena(AttachArena(a, stack, p, e))
    requires ConvertToFinal(AttachArena(a, stack, p, e), stack[k + 1]) == Attach(ConvertToFinal(a, stack[k + 1]), e)
    ensures ConvertToFinal(AttachArena(a, stack, p, e), stack[k]) == Attach(ConvertToFinal(a, stack[k]), e)
  {
    AttachArenaValid(a, stack, p, e);
    var b := AttachArena(a, stack, p, e);
    var x := stack[k];
    var next := stack[k + 1];
    var cs := a[x].children;
    assert Last(cs) == TempSub(next);
    var init := cs[..|cs| - 1];
    assert x < stack[p];
    assert b[x] == a[x];
    ConvertOfLast(a, x);
    ConvertOfLast(b, x);
    assert GoesBelow(a[next].level, e);
    assert next <= stack[p];
    forall t | 0 <= t < |init| && init[t].TempSub?
      ensures init[t].index < next && BoundedBy(a, init[t].index, next)
    {
      assert cs[t] == init[t];
      assert cs[|cs| - 1] == TempSub(next);
    }
    assert ItemsIn(init, x, next);
    forall z | x < z < next
      ensures b[z] == a[z]
    {
    }
    ItemsFrame(a, b, x, next, init);
    var before := ConvertToFinal(a, x);
    var m := ConvertToFinal(a, next);
    assert before.children == ConvertItems(a, x, init) + [Subsection(m)];
    assert before.children[..|before.children| - 1] == ConvertItems(a, x, init);
    assert ConvertToFinal(b, x).children == ConvertItems(a, x, init) + [Subsection(Attach(m, e))];
  }

  /** What attaching changes in the arena: one node gains a last child
      and, for a heading, the new node is added at the end. */
  lemma ArenaGrowth(a: seq<TempNode>, stack: seq<nat>, p: nat, e: DocumentSection)
    requires p < |stack| && stack[p] < |a|
    ensures var b := AttachArena(a, stack, p, e);
            |b| == (if e.elementType.Heading? then |a| + 1 else |a|)
            && (forall z | 0 <= z < |a| && z != stack[p] :: b[z] == a[z])
            && b[stack[p]] == a[stack[p]].(children := a[stack[p]].children + [NewItem(a, e)])
            && (e.elementType.Heading? ==> b[|a|] == Leaf(e))
  {
  }

  /** A closed range that does not hold the changed node stays closed. */
  lemma KeepBounded(a: seq<TempNode>, b: seq<TempNode>, x: nat, c: int, d: int)
    requires BoundedBy(a, c, d) && d <= |a| <= |b| && !(c <= x < d)
    requires forall z | 0 <= z < |a| && z != x :: b[z] == a[z]
    ensures BoundedBy(b, c, d)
  {
    forall z, w | c <= z < d && 0 <= z < |b| && 0 <= w < |b[z].children|
      ensures b[z].children[w].TempSub? ==> b[z].children[w].index < d
    {
      assert b[z] == a[z];
    }
  }

  /** The invariant survives attaching a non-heading element at the top. */
  lemma ContentStep(a: seq<TempNode>, stack: seq<nat>, e: DocumentSection)
    requires Inv(a, stack) && !e.elementType.Heading?
    ensures Inv(AttachArena(a, stack, |stack| - 1, e), stack)
  {
    AttachArenaValid(a, stack, |stack| - 1, e);
    ContentSiblings(a, stack, e);
    ContentStackClosed(a, stack, e);
    ContentShape(a, stack, e);
  }

  lemma ContentSiblings(a: seq<TempNode>, stack: seq<nat>, e: DocumentSection)
    requires ValidArena(a) && StackShape(a, stack) && SiblingsBounded(a) && StackOutsideClosed(a, stack)
    requires !e.elementType.Heading?
    ensures SiblingsBounded(AttachArena(a, stack, |stack| - 1, e))
  {
    var p := |stack| - 1;
    var b := AttachArena(a, stack, p, e);
    var x := stack[p];
    ArenaGrowth(a, stack, p, e);
    forall y, t, u | 0 <= y < |b| && 0 <= t < u < |b[y].children|
                     && b[y].children[t].TempSub? && b[y].children[u].TempSub?
      ensures b[y].children[t].index < b[y].children[u].index
              && BoundedBy(b, b[y].children[t].index, b[y].children[u].index)
    {
      assert u < |a[y].children|;
      assert b[y].children[t] == a[y].children[t] && b[y].children[u] == a[y].children[u];
      KeepBounded(a, b, x, a[y].children[t].index, a[y].children[u].index);
    }
  }

  lemma ContentStackClosed(a: seq<TempNode>, stack: seq<nat>, e: DocumentSection)
    requires ValidArena(a) && StackShape(a, stack) && StackOutsideClosed(a, stack)
    requires !e.elementType.Heading?
    ensures StackOutsideClosed(AttachArena(a, stack, |stack| - 1, e), stack)
  {
    var p := |stack| - 1;
    var b := AttachArena(a, stack, p, e);
    ArenaGrowth(a, stack, p, e);
    forall y, t, u | 0 <= y < |b| && 0 <= t < u < |b[y].children|
                     && b[y].children[t].TempSub? && b[y].children[u].TempSub?
      ensures u < |a[y].children| && b[y].children[t] == a[y].children[t] && b[y].children[u] == a[y].children[u]
    {
    }
  }

  lemma ContentShape(a: seq<TempNode>, stack: seq<nat>, e: DocumentSection)
    requires ValidArena(a) && StackShape(a, stack) && !e.elementType.Heading?
    ensures StackShape(AttachArena(a, stack, |stack| - 1, e), stack)
  {
    var p := |stack| - 1;
    var b := AttachArena(a, stack, p, e);
    ArenaGrowth(a, stack, p, e);
    forall k | 0 <= k < p
      ensures b[stack[k]] == a[stack[k]]
    {
      assert stack[k] < stack[p];
    }
    assert Last(b[stack[p]].children) == TempContent(e);
  }

  /** The invariant survives attaching a heading at `stack[p]` and
      pushing it on the stack cut back to `p`. */
  lemma HeadingStep(a: seq<TempNode>, stack: seq<nat>, p: nat, e: DocumentSection)
    requires Inv(a, stack) && e.elementType.Heading? && p < |stack| && StopsAt(a, stack, p, e)
    ensures Inv(AttachArena(a, stack, p, e), stack[..p + 1] + [|a|])
  {
    AttachArenaValid(a, stack, p, e);
    HeadingSiblings(a, stack, p, e);
    HeadingStackClosed(a, stack, p, e);
    HeadingShape(a, stack, p, e);
  }

  lemma HeadingSiblings(a: seq<TempNode>, stack: seq<nat>, p: nat, e: DocumentSection)
    requires ValidArena(a) && StackShape(a, stack) && SiblingsBounded(a) && StackOutsideClosed(a, stack)
    requires e.elementType.Heading? && p < |stack|
    ensures SiblingsBounded(AttachArena(a, stack, p, e))
  {
    var b := AttachArena(a, stack, p, e);
    var x := stack[p];
    var n := |a|;
    ArenaGrowth(a, stack, p, e);
    forall y, t, u | 0 <= y < |b| && 0 <= t < u < |b[y].children|
                     && b[y].children[t].TempSub? && b[y].children[u].TempSub?
      ensures b[y].children[t].index < b[y].children[u].index
              && BoundedBy(b, b[y].children[t].index, b[y].children[u].index)
    {
      assert y < n;
      assert b[y].children[t] == a[y].children[t];
      var c := a[y].children[t].index;
      if y == x && u == |a[x].children| {
        assert b[y].children[u] == TempSub(n);
        forall z, w | c <= z < n && 0 <= z < |b| && 0 <= w < |b[z].children|
          ensures b[z].children[w].TempSub? ==> b[z].children[w].index < n
        {
          assert b[z] == a[z];
        }
      } else {
        assert b[y].children[u] == a[y].children[u];
        KeepBounded(a, b, x, c, a[y].children[u].index);
      }
    }
  }

  lemma HeadingStackClosed(a: seq<TempNode>, stack: seq<nat>, p: nat, e: DocumentSection)
    requires ValidArena(a) && StackShape(a, stack) && StackOutsideClosed(a, stack)
    requires e.elementType.Heading? && p < |stack|
    ensures StackOutsideClosed(AttachArena(a, stack, p, e), stack[..p + 1] + [|a|])
  {
    var b := AttachArena(a, stack, p, e);
    var x := stack[p];
    var n := |a|;
    var s := stack[..p + 1] + [n];
    ArenaGrowth(a, stack, p, e);
    forall y, t, u, k | 0 <= y < |b| && 0 <= t < u < |b[y].children|
                        && b[y].children[t].TempSub? && b[y].children[u].TempSub? && 0 <= k < |s|
      ensures !(b[y].children[t].index <= s[k] < b[y].children[u].index)
    {
      assert y < n;
      assert b[y].children[t] == a[y].children[t];
      if k <= p {
        assert s[k] == stack[k];
        if y == x && u == |a[x].children| {
          assert stack[k] <= x;
        } else {
          assert b[y].children[u] == a[y].children[u];
        }
      } else {
        assert s[k] == n;
        if !(y == x && u == |a[x].children|) {
          assert b[y].children[u] == a[y].children[u];
        }
      }
    }
  }

  lemma HeadingShape(a: seq<TempNode>, stack: seq<nat>, p: nat, e: DocumentSection)
    requires ValidArena(a) && StackShape(a, stack) && e.elementType.Heading? && p < |stack| && StopsAt(a, stack, p, e)
    ensures StackShape(AttachArena(a, stack, p, e), stack[..p + 1] + [|a|])
  {
    HeadingSpine(a, stack, p, e);
    HeadingLevels(a, stack, p, e);
  }

  /** After a heading is attached, the cut stack plus the new node is
      still a chain of last children, in increasing arena order. */
  lemma HeadingSpine(a: seq<TempNode>, stack: seq<nat>, p: nat, e: DocumentSection)
    requires ValidArena(a) && StackShape(a, stack) && e.elementType.Heading? && p < |stack|
    ensures var b := AttachArena(a, stack, p, e);
            var s := stack[..p + 1] + [|a|];
            |s| >= 1 && s[0] == 0
            && (forall k | 0 <= k < |s| :: s[k] < |b|)
            && (forall k, l | 0 <= k < l < |s| :: s[k] < s[l])
            && (forall k | 0 <= k < |s| - 1 :: |b[s[k]].children| > 0 && Last(b[s[k]].children) == TempSub(s[k + 1]))
            && (b[Last(s)].children == [] || !Last(b[Last(s)].children).TempSub?)
  {
    var b := AttachArena(a, stack, p, e);
    var n := |a|;
    var s := stack[..p + 1] + [n];
    ArenaGrowth(a, stack, p, e);
    assert |s| == p + 2 && s[p + 1] == n;
    forall k | 0 <= k < |s|
      ensures s[k] < |b|
    {
      if k <= p { assert s[k] == stack[k]; }
    }
    forall k, l | 0 <= k < l < |s|
      ensures s[k] < s[l]
    {
      assert s[k] == stack[k];
      if l <= p { assert s[l] == stack[l]; }
    }
    forall k | 0 <= k < |s| - 1
      ensures |b[s[k]].children| > 0 && Last(b[s[k]].children) == TempSub(s[k + 1])
    {
      assert s[k] == stack[k];
      if k < p {
        assert s[k + 1] == stack[k + 1];
        assert stack[k] < stack[p];
        assert b[stack[k]] == a[stack[k]];
      }
    }
    assert b[Last(s)] == Leaf(e);
  }

  /** After a heading is attached, the levels along the cut stack plus
      the new node still increase strictly (below the root). */
  lemma HeadingLevels(a: seq<TempNode>, stack: seq<nat>, p: nat, e: DocumentSection)
    requires ValidArena(a) && StackShape(a, stack) && e.elementType.Heading? && p < |stack| && StopsAt(a, stack, p, e)
    ensures var b := AttachArena(a, stack, p, e);
            var s := stack[..p + 1] + [|a|];
            forall k | 1 <= k < |s| - 1 :: b[s[k]].level < b[s[k + 1]].level
  {
    var b := AttachArena(a, stack, p, e);
    var n := |a|;
    var s := stack[..p + 1] + [n];
    ArenaGrowth(a, stack, p, e);
    assert |s| == p + 2 && s[p + 1] == n;
    forall k | 1 <= k < |s| - 1
      ensures b[s[k]].level < b[s[k + 1]].level
    {
      assert s[k] == stack[k];
      assert b[stack[k]].level == a[stack[k]].level;
      if k < p {
        assert s[k + 1] == stack[k + 1];
        assert b[stack[k + 1]].level == a[stack[k + 1]].level;
      } else {
        assert GoesBelow(a[stack[p]].level, e);
      }
    }
  }

  // ---------------------------------------------------------------------
  // The builder

  /** `build_tree`: one pass over the elements with the arena and the
      stack of open headings; the result is the outline of the elements
      with their counters. */
  /** One step of the builder on the arena: attaching at the entry the
      stack was cut back to keeps the invariant and attaches `e` in the
      converted tree. */
  lemma AttachStep(a: seq<TempNode>, stack: seq<nat>, p: nat, e: DocumentSection)
    requires Inv(a, stack) && p < |stack| && StopsAt(a, stack, p, e)
    requires !e.elementType.Heading? ==> p == |stack| - 1
    ensures Inv(AttachArena(a, stack, p, e), if e.elementType.Heading? then stack[..p + 1] + [|a|] else stack)
    ensures ConvertToFinal(AttachArena(a, stack, p, e), 0) == Attach(ConvertToFinal(a, 0), e)
  {
    SpineAttach(a, stack, p, e, 0);
    if e.elementType.Heading? {
      HeadingStep(a, stack, p, e);
    } else {
      ContentStep(a, stack, e);
    }
  }

  /** The inner loop of the builder: pops stack entries whose heading
      level is not below the new heading's, never the root. */
  method PopStack(sections: seq<TempNode>, stack: seq<nat>, e: DocumentSection) returns (popped: seq<nat>)
    requires StackShape(sections, stack) && e.elementType.Heading?
    ensures 1 <= |popped| <= |stack| && popped == stack[..|popped|]
    ensures StopsAt(sections, stack, |popped| - 1, e)
  {
    var newLevel := e.elementType.level;
    popped := stack;
    while |popped| > 1
      invariant 1 <= |popped| <= |stack| && popped == stack[..|popped|]
      invariant forall k | |popped| <= k < |stack| :: sections[stack[k]].level >= newLevel
    {
      var lastIdx := popped[|popped| - 1];
      if sections[lastIdx].level < newLevel {
        break;
      }
      popped := popped[..|popped| - 1];
    }
    ghost var p := |popped| - 1;
    forall j | 1 <= j <= p
      ensures GoesBelow(sections[stack[j]].level, e)
    {
      assert popped[p] == stack[p];
      if j < p {
        LevelsIncrease(sections, stack, j, p);
      }
    }
  }

  /** The outline and the counts of one more element. */
  lemma ElementsPrefixStep(es: seq<DocumentSection>, i: nat)
    requires i < |es|
    ensures Outline(es[..i + 1]) == Attach(Outline(es[..i]), es[i])
    ensures Count(es[..i + 1], IsHeading) == Count(es[..i], IsHeading) + (if IsHeading(es[i]) then 1 else 0)
    ensures Count(es[..i + 1], IsTable) == Count(es[..i], IsTable) + (if IsTable(es[i]) then 1 else 0)
  {
    assert es[..i + 1][..i] == es[..i];
  }

  /** One iteration of the builder's loop: cut the stack back for a
      heading, append the element under the stack top, and push a heading.
      The converted tree gains the element as `Attach` places it. */
  method AddElement(sections: seq<TempNode>, stack: seq<nat>, element: DocumentSection)
    returns (sections': seq<TempNode>, stack': seq<nat>)
    requires Inv(sections, stack)
    ensures Inv(sections', stack')
    ensures ConvertToFinal(sections', 0) == Attach(ConvertToFinal(sections, 0), element)
  {
    stack' := stack;
    var p: nat;
    match element.elementType {
      case Heading(newLevel) =>
        stack' := PopStack(sections, stack, element);
        p := |stack'| - 1;
        var newSection := TempNode(element.id, element.rawText, newLevel, element.xmlPath, []);
        var newIdx := |sections|;
        sections' := sections + [newSection];
        var parentIdx := stack'[|stack'| - 1];
        sections' := sections'[parentIdx := sections'[parentIdx].(children := sections'[parentIdx].children + [TempSub(newIdx)])];
        stack' := stack' + [newIdx];
      case _ =>
        p := |stack| - 1;
        var parentIdx := stack[|stack| - 1];
        sections' := sections[parentIdx := sections[parentIdx].(children := sections[parentIdx].children + [TempContent(element)])];
    }
    assert sections' == AttachArena(sections, stack, p, element);
    AttachStep(sections, stack, p, element);
  }

  /** The builder starts from an arena holding only the root, which
      converts to the empty outline. */
  lemma InitialArena()
    ensures Inv([RootTemp], [0])
    ensures ConvertToFinal([RootTemp], 0) == Outline([])
  {
    assert ConvertItems([RootTemp], 0, []) == [];
  }

  /** Builds the section tree: a stack of open headings over an arena of
      nodes, then conversion from the root. The result is the outline of
      the elements, and the metadata counts them. */
  method BuildTree(elements: seq<DocumentSection>) returns (tree: DocumentTree)
    ensures tree.root == Outline(elements)
    ensures tree.metadata == DocumentMetadata(|elements|, Count(elements, IsHeading), Count(elements, IsTable))
  {
    var sections: seq<TempNode> := [RootTemp];
    var stack: seq<nat> := [0];
    var headingCount := 0;
    var tableCount := 0;
    var i := 0;
    InitialArena();
    while i < |elements|
      invariant 0 <= i <= |elements|
      invariant Inv(sections, stack)
      invariant ConvertToFinal(sections, 0) == Outline(elements[..i])
      invariant headingCount == Count(elements[..i], IsHeading)
      invariant tableCount == Count(elements[..i], IsTable)
    {
      var element := elements[i];
      ElementsPrefixStep(elements, i);
      if element.elementType.Heading? {
        headingCount := headingCount + 1;
      } else if element.elementType.Table? {
        tableCount := tableCount + 1;
      }
      sections, stack := AddElement(sections, stack, element);
      i := i + 1;
    }
    assert elements[..|elements|] == elements;
    var root := ConvertToFinal(sections, 0);
    tree := DocumentTree(root, DocumentMetadata(|elements|, headingCount, tableCount));
  }

  lemma {:induction false} LevelsIncrease(a: seq<TempNode>, s: seq<nat>, j: nat, p: nat)
    requires j <= p < |s| && forall k | 0 <= k < |s| :: s[k] < |a|
    requires forall l | j <= l < p :: a[s[l]].level < a[s[l + 1]].level
    ensures a[s[j]].level <= a[s[p]].level
    decreases p - j
  {
    if j < p {
      LevelsIncrease(a, s, j + 1, p);
    }
  }
}
