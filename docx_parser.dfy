/** The WordprocessingML parser: style records, `basedOn` resolution,
    the formatting cascade of a paragraph (run, then resolved style, then
    built-in default), element classification and the section numbering
    of a whole document. */
module DocxParsing {
  import opened Wrappers
  import opened Text
  import opened Xml
  import opened Sections

  datatype Spacing = Spacing(line: Option<int>, lineRule: Option<string>)
  datatype Indent = Indent(firstLine: Option<int>)
  datatype ParagraphProperties = ParagraphProperties(
    style: Option<string>, spacing: Option<Spacing>, ind: Option<Indent>)
  datatype RFonts = RFonts(ascii: Option<string>, eastAsia: Option<string>)
  datatype RunProperties = RunProperties(sz: Option<int>, rfonts: Option<RFonts>)
  datatype StyleDefinition = StyleDefinition(
    name: string,
    basedOn: Option<string>,
    paragraphProps: ParagraphProperties,
    runProps: RunProperties)

  /** Style records by style id. */
  type Catalog = map<string, StyleDefinition>

  const NoParagraphProperties := ParagraphProperties(None, None, None)
  const NoRunProperties := RunProperties(None, None)

  /** The sentinels of the cascade: a size of 24 half-points (12pt), the
      family "Times New Roman" and the spacing text "1.15" all mean "not
      set yet". */
  const SentinelSize: int := 24
  const SentinelFamily: string := "Times New Roman"
  const SentinelSpacing: string := "1.15"

  // ---------------------------------------------------------------------
  // Attribute values

  function ParseI32(s: string): (r: Option<int>)
    ensures r.Some? ==> I32Min <= r.value <= I32Max
  {
    ParseDecimal(s, true, I32Min, I32Max)
  }

  function ParseU32(s: string): (r: Option<int>)
    ensures r.Some? ==> 0 <= r.value <= U32Max
  {
    ParseDecimal(s, false, 0, U32Max)
  }

  /** An attribute that is present and parses as an `i32`. */
  function AttrI32(n: Node, key: string): Option<int> {
    match Attr(n, key)
    case Some(v) => ParseI32(v)
    case None => None
  }

  function AttrU32(n: Node, key: string): Option<int> {
    match Attr(n, key)
    case Some(v) => ParseU32(v)
    case None => None
  }

  /** The index of the last node of `cs` that satisfies `p`. */
  function LastWhere(cs: seq<Node>, p: Node -> bool): (r: Option<nat>)
    ensures r.Some? ==> r.value < |cs| && p(cs[r.value])
  {
    if cs == [] then None
    else if p(cs[|cs| - 1]) then Some(|cs| - 1)
    else LastWhere(cs[..|cs| - 1], p)
  }

  /** No node after the one `LastWhere` finds satisfies `p`, and it finds
      none exactly when no node does. */
  lemma {:induction false} LastWhereMeaning(cs: seq<Node>, p: Node -> bool)
    ensures LastWhere(cs, p).Some? ==> forall j | LastWhere(cs, p).value < j < |cs| :: !p(cs[j])
    ensures LastWhere(cs, p).None? <==> forall j | 0 <= j < |cs| :: !p(cs[j])
  {
    if cs != [] && !p(cs[|cs| - 1]) {
      var init := cs[..|cs| - 1];
      LastWhereMeaning(init, p);
      assert forall j | 0 <= j < |init| :: init[j] == cs[j];
    }
  }

  /** Looking at one more node of `cs`. */
  lemma LastWherePrefixStep(cs: seq<Node>, i: nat, p: Node -> bool)
    requires i < |cs|
    ensures LastWhere(cs[..i + 1], p) == if p(cs[i]) then Some(i) else LastWhere(cs[..i], p)
    ensures forall k | 0 <= k < i :: cs[..i + 1][k] == cs[..i][k]
  {
    assert cs[..i + 1][..i] == cs[..i];
  }

  // ---------------------------------------------------------------------
  // Property records

  predicate IsSpacing(c: Node) { Name(c) == "spacing" }
  predicate IsIndent(c: Node) { Name(c) == "ind" }
  predicate IsStyleRef(c: Node) { Name(c) == "pStyle" && Attr(c, "val").Some? }
  predicate IsSizeWithValue(c: Node) { Name(c) == "sz" && AttrI32(c, "val").Some? }
  predicate IsFonts(c: Node) { Name(c) == "rFonts" }

  /** Paragraph properties of a `pPr` element's children: for each kind
      the last child of that kind decides. */
  function ParagraphPropertiesOf(cs: seq<Node>): ParagraphProperties {
    ParagraphProperties(
      match LastWhere(cs, IsStyleRef)
      case Some(k) => Attr(cs[k], "val")
      case None => None,
      match LastWhere(cs, IsSpacing)
      case Some(k) => Some(Spacing(AttrI32(cs[k], "line"), Attr(cs[k], "lineRule")))
      case None => None,
      match LastWhere(cs, IsIndent)
      case Some(k) => Some(Indent(AttrI32(cs[k], "firstLine")))
      case None => None)
  }

  /** Run properties of an `rPr` element's children: the last `sz` whose
      value parses, and the last `rFonts`. */
  function RunPropertiesOf(cs: seq<Node>): RunProperties {
    RunProperties(
      match LastWhere(cs, IsSizeWithValue)
      case Some(k) => AttrI32(cs[k], "val")
      case None => None,
      match LastWhere(cs, IsFonts)
      case Some(k) => Some(RFonts(Attr(cs[k], "ascii"), Attr(cs[k], "eastAsia")))
      case None => None)
  }

  predicate IsStyleRecord(c: Node) {
    Name(c) == "style" && Attr(c, "styleId").Some?
  }

  /** The record a `style` element defines: the name defaults to the id,
      and the first `name`, `basedOn`, `pPr` and `rPr` children are read. */
  function StyleOf(c: Node): StyleDefinition
    requires IsStyleRecord(c)
  {
    var cs := Children(c);
    StyleDefinition(
      FirstChildAttr(cs, "name", "val").GetOr(Attr(c, "styleId").value),
      FirstChildAttr(cs, "basedOn", "val"),
      match FirstNamed(cs, "pPr")
      case Some(p) => ParagraphPropertiesOf(Children(p))
      case None => NoParagraphProperties,
      match FirstNamed(cs, "rPr")
      case Some(p) => RunPropertiesOf(Children(p))
      case None => NoRunProperties)
  }

  /** `base` after inserting the records of `cs` in order. */
  function CatalogOf(base: Catalog, cs: seq<Node>): Catalog {
    if cs == [] then base
    else
      var prev := CatalogOf(base, cs[..|cs| - 1]);
      var c := cs[|cs| - 1];
      if IsStyleRecord(c) then prev[Attr(c, "styleId").value := StyleOf(c)] else prev
  }

  predicate Defines(c: Node, id: string) {
    IsStyleRecord(c) && Attr(c, "styleId").value == id
  }

  /** The index of the last record of `cs` that defines `id`. */
  function LastDefinition(cs: seq<Node>, id: string): (r: Option<nat>)
    ensures r.Some? ==> r.value < |cs| && Defines(cs[r.value], id)
    ensures r.Some? ==> forall j | r.value < j < |cs| :: !Defines(cs[j], id)
    ensures r.None? ==> forall j | 0 <= j < |cs| :: !Defines(cs[j], id)
  {
    if cs == [] then None
    else if Defines(cs[|cs| - 1], id) then Some(|cs| - 1)
    else LastDefinition(cs[..|cs| - 1], id)
  }

  /** A later record with the same id replaces an earlier one: the catalog
      maps each id to its last record, and keeps `base` for other ids. */
  lemma {:induction false} CatalogLookup(base: Catalog, cs: seq<Node>, id: string)
    ensures LastDefinition(cs, id).Some? ==>
              id in CatalogOf(base, cs) && CatalogOf(base, cs)[id] == StyleOf(cs[LastDefinition(cs, id).value])
    ensures LastDefinition(cs, id).None? ==>
              (id in CatalogOf(base, cs) <==> id in base)
              && (id in base ==> CatalogOf(base, cs)[id] == base[id])
  {
    if cs != [] {
      CatalogLookup(base, cs[..|cs| - 1], id);
    }
  }

  // ---------------------------------------------------------------------
  // Style resolution (specification)

  predicate AllKnown(styles: Catalog, ids: seq<string>) {
    forall k | 0 <= k < |ids| :: ids[k] in styles
  }

  function Seen(ids: seq<string>): set<string> {
    set v | v in ids
  }

  /** The records of `chain` that exist, in chain order. */
  function Present(styles: Catalog, chain: seq<string>): seq<StyleDefinition> {
    if chain == [] then []
    else (if chain[0] in styles then [styles[chain[0]]] else []) + Present(styles, chain[1..])
  }

  /** The value of the record nearest the end of `defs` (the root end of a
      chain) that sets the property `f`. */
  function NearestRoot<T>(defs: seq<StyleDefinition>, f: StyleDefinition -> Option<T>): Option<T> {
    if defs == [] then None
    else Or(NearestRoot(defs[1..], f), f(defs[0]))
  }

  /** `NearestRoot` is the value of the last record of `defs` that sets the
      property, and is absent exactly when no record sets it. */
  lemma {:induction false} NearestRootMeaning<T>(defs: seq<StyleDefinition>, f: StyleDefinition -> Option<T>)
    ensures var r := NearestRoot(defs, f);
            r.Some? ==>
              exists i | 0 <= i < |defs| :: f(defs[i]) == r && forall j | i < j < |defs| :: f(defs[j]).None?
    ensures NearestRoot(defs, f).None? <==> forall i | 0 <= i < |defs| :: f(defs[i]).None?
  {
    if defs != [] {
      var t := defs[1..];
      NearestRootMeaning(t, f);
      assert forall j | 1 <= j < |defs| :: defs[j] == t[j - 1];
      var rest := NearestRoot(t, f);
      if rest.Some? {
        var i :| 0 <= i < |t| && f(t[i]) == rest && forall j | i < j < |t| :: f(t[j]).None?;
        assert f(defs[i + 1]) == rest;
      }
    }
  }

  function Or<T>(a: Option<T>, b: Option<T>): Option<T> {
    if a.Some? then a else b
  }

  function PStyleOf(d: StyleDefinition): Option<string> { d.paragraphProps.style }
  function SpacingOf(d: StyleDefinition): Option<Spacing> { d.paragraphProps.spacing }
  function IndentOf(d: StyleDefinition): Option<Indent> { d.paragraphProps.ind }
  function SizeOf(d: StyleDefinition): Option<int> { d.runProps.sz }
  function FontsOf(d: StyleDefinition): Option<RFonts> { d.runProps.rfonts }

  /** `r` with each unset property taken from `inherited`. */
  function Fill(r: StyleDefinition, inherited: StyleDefinition): StyleDefinition {
    StyleDefinition(
      r.name,
      r.basedOn,
      ParagraphProperties(
        Or(PStyleOf(r), PStyleOf(inherited)),
        Or(SpacingOf(r), SpacingOf(inherited)),
        Or(IndentOf(r), IndentOf(inherited))),
      RunProperties(
        Or(SizeOf(r), SizeOf(inherited)),
        Or(FontsOf(r), FontsOf(inherited))))
  }

  /** `def` with each unset property filled from the records of `chain`,
      the record nearest the root winning. */
  function InheritedStyle(styles: Catalog, def: StyleDefinition, chain: seq<string>): StyleDefinition {
    var defs := Present(styles, chain);
    StyleDefinition(
      def.name,
      def.basedOn,
      ParagraphProperties(
        Or(PStyleOf(def), NearestRoot(defs, PStyleOf)),
        Or(SpacingOf(def), NearestRoot(defs, SpacingOf)),
        Or(IndentOf(def), NearestRoot(defs, IndentOf))),
      RunProperties(
        Or(SizeOf(def), NearestRoot(defs, SizeOf)),
        Or(FontsOf(def), NearestRoot(defs, FontsOf))))
  }

  lemma NearestRootCons<T>(d: StyleDefinition, rest: seq<StyleDefinition>, f: StyleDefinition -> Option<T>)
    ensures NearestRoot([d] + rest, f) == Or(NearestRoot(rest, f), f(d))
  {
    assert ([d] + rest)[1..] == rest;
  }

  /** Walking one more record towards the start of the chain fills, from
      that record, what the records nearer the root left unset. */
  lemma InheritedStep(styles: Catalog, def: StyleDefinition, chain: seq<string>, i: nat)
    requires i < |chain|
    ensures InheritedStyle(styles, def, chain[i..]) ==
              if chain[i] in styles then Fill(InheritedStyle(styles, def, chain[i + 1..]), styles[chain[i]])
              else InheritedStyle(styles, def, chain[i + 1..])
  {
    assert chain[i..][1..] == chain[i + 1..];
    var rest := Present(styles, chain[i + 1..]);
    if chain[i] in styles {
      var d := styles[chain[i]];
      assert Present(styles, chain[i..]) == [d] + rest;
      NearestRootCons(d, rest, PStyleOf);
      NearestRootCons(d, rest, SpacingOf);
      NearestRootCons(d, rest, IndentOf);
      NearestRootCons(d, rest, SizeOf);
      NearestRootCons(d, rest, FontsOf);
    } else {
      assert Present(styles, chain[i..]) == rest;
    }
  }

  /** Resolution from `cur`, having already walked `visited`. */
  function ResolveFrom(styles: Catalog, cur: string, visited: seq<string>): Option<StyleDefinition>
    requires AllKnown(styles, visited)
    decreases styles.Keys - Seen(visited)
  {
    if cur !in styles || cur in visited then None
    else
      assert cur in styles.Keys - Seen(visited);
      match styles[cur].basedOn
      case Some(b) => ResolveFrom(styles, b, visited + [cur])
      case None => Some(InheritedStyle(styles, styles[cur], visited + [cur]))
  }

  function Resolve(styles: Catalog, id: string): Option<StyleDefinition> {
    ResolveFrom(styles, id, [])
  }

  /** `c` is the whole `basedOn` chain of `id`: it starts at `id`, every
      id in it is defined and appears once, each record is based on the
      next, and the last record is based on nothing. */
  predicate IsChain(styles: Catalog, id: string, c: seq<string>) {
    |c| >= 1 && c[0] == id && AllKnown(styles, c)
    && (forall i, j | 0 <= i < j < |c| :: c[i] != c[j])
    && (forall i | 0 <= i < |c| - 1 :: styles[c[i]].basedOn == Some(c[i + 1]))
    && styles[c[|c| - 1]].basedOn.None?
  }

  lemma {:induction false} ChainResolves(styles: Catalog, visited: seq<string>, c: seq<string>)
    requires AllKnown(styles, visited) && |c| >= 1 && IsChain(styles, c[0], c)
    requires forall i | 0 <= i < |c| :: c[i] !in visited
    ensures ResolveFrom(styles, c[0], visited) == Some(InheritedStyle(styles, styles[c[|c| - 1]], visited + c))
    decreases |c|
  {
    var cur := c[0];
    if |c| > 1 {
      var t := c[1..];
      assert IsChain(styles, t[0], t) by {
        forall i, j | 0 <= i < j < |t| ensures t[i] != t[j] {
          assert t[i] == c[i + 1] && t[j] == c[j + 1];
        }
        forall i | 0 <= i < |t| - 1 ensures styles[t[i]].basedOn == Some(t[i + 1]) {
          assert t[i] == c[i + 1];
        }
      }
      forall i | 0 <= i < |t| ensures t[i] !in visited + [cur] {
        assert t[i] == c[i + 1];
      }
      ChainResolves(styles, visited + [cur], t);
      assert visited + [cur] + t == visited + c;
    } else {
      assert visited + [cur] == visited + c;
    }
  }

  lemma {:induction false} ResolvedHasChain(styles: Catalog, cur: string, visited: seq<string>)
    requires AllKnown(styles, visited) && ResolveFrom(styles, cur, visited).Some?
    ensures exists c :: IsChain(styles, cur, c) && forall i | 0 <= i < |c| :: c[i] !in visited
    decreases styles.Keys - Seen(visited)
  {
    assert cur in styles.Keys - Seen(visited);
    match styles[cur].basedOn
    case None =>
      assert IsChain(styles, cur, [cur]);
    case Some(b) =>
      ResolvedHasChain(styles, b, visited + [cur]);
      var t :| IsChain(styles, b, t) && forall i | 0 <= i < |t| :: t[i] !in visited + [cur];
      var c := [cur] + t;
      assert forall i | 1 <= i < |c| :: c[i] == t[i - 1];
      assert IsChain(styles, cur, c);
  }

  /** Resolution terminates on every catalog, cyclic or not, and succeeds
      exactly when `id` has a complete `basedOn` chain; it fails when `id`
      is undefined, when the chain reaches an undefined parent and when the
      chain revisits an id. A successful result is the root record with
      its unset properties filled along the chain. */
  lemma ResolveIffChain(styles: Catalog, id: string)
    ensures Resolve(styles, id).Some? <==> exists c :: IsChain(styles, id, c)
    ensures forall c | IsChain(styles, id, c) ::
              Resolve(styles, id) == Some(InheritedStyle(styles, styles[c[|c| - 1]], c))
  {
    if Resolve(styles, id).Some? {
      ResolvedHasChain(styles, id, []);
    }
    forall c | IsChain(styles, id, c)
      ensures Resolve(styles, id) == Some(InheritedStyle(styles, styles[c[|c| - 1]], c))
    {
      ChainResolves(styles, [], c);
      assert [] + c == c;
    }
  }

  /** A record based on itself never resolves. */
  lemma SelfBasedFails(styles: Catalog, id: string)
    requires id in styles && styles[id].basedOn == Some(id)
    ensures Resolve(styles, id).None?
  {
    assert [] + [id] == [id];
    assert ResolveFrom(styles, id, [id]).None?;
  }

  lemma {:induction false} PresentAllKnown(styles: Catalog, c: seq<string>)
    requires AllKnown(styles, c)
    ensures |Present(styles, c)| == |c|
    ensures forall i | 0 <= i < |c| :: Present(styles, c)[i] == styles[c[i]]
  {
    if c != [] {
      PresentAllKnown(styles, c[1..]);
    }
  }

  /** Filling the root record along its own chain gives each property the
      value of the record nearest the root that sets it: the root's own
      value first, then its child's, and so on towards `id`. */
  lemma InheritedFromRoot(styles: Catalog, c: seq<string>)
    requires |c| >= 1 && AllKnown(styles, c)
    ensures var r := InheritedStyle(styles, styles[c[|c| - 1]], c);
            var defs := Present(styles, c);
            r.paragraphProps.style == NearestRoot(defs, PStyleOf)
            && r.paragraphProps.spacing == NearestRoot(defs, SpacingOf)
            && r.paragraphProps.ind == NearestRoot(defs, IndentOf)
            && r.runProps.sz == NearestRoot(defs, SizeOf)
            && r.runProps.rfonts == NearestRoot(defs, FontsOf)
  {
    PresentAllKnown(styles, c);
    var defs := Present(styles, c);
    var root := styles[c[|c| - 1]];
    assert defs[|defs| - 1] == root;
    NearestRootOfLast(defs, PStyleOf);
    NearestRootOfLast(defs, SpacingOf);
    NearestRootOfLast(defs, IndentOf);
    NearestRootOfLast(defs, SizeOf);
    NearestRootOfLast(defs, FontsOf);
  }

  lemma {:induction false} NearestRootOfLast<T>(defs: seq<StyleDefinition>, f: StyleDefinition -> Option<T>)
    requires |defs| >= 1
    ensures f(defs[|defs| - 1]).Some? ==> NearestRoot(defs, f) == f(defs[|defs| - 1])
    decreases |defs|
  {
    if |defs| > 1 {
      NearestRootOfLast(defs[1..], f);
      assert defs[1..][|defs| - 2] == defs[|defs| - 1];
    }
  }

  // ---------------------------------------------------------------------
  // The paragraph cascade (specification)

  /** The rendering of a `w:line` value: at or above 1000 it is read as
      twentieths of a point ("pt" suffix), below as 240ths of a line. */
  function LineSpacingText(line: int): string {
    if line >= 1000 then RenderQuotient(line, 20) + "pt" else RenderQuotient(line, 240)
  }

  lemma LineSpacingExamples()
    ensures LineSpacingText(360) == "1.5"
    ensures LineSpacingText(1200) == "60pt"
    ensures LineSpacingText(276) == SentinelSpacing
  {
    assert DivMod(360, 240) == (1, 120);
    assert FractionDigits(0, 240, 7) == "";
    assert 120 * 10 / 240 == 5 && 120 * 10 % 240 == 0;
    assert FractionDigits(120, 240, 8) == "5";
    assert NatToString(1) == "1";
    assert DivMod(1200, 20) == (60, 0);
    assert NatToString(6) == "6";
    assert NatToString(60) == "60";
    assert DivMod(276, 240) == (1, 36);
    assert FractionDigits(0, 240, 6) == "";
    assert FractionDigits(120, 240, 7) == "5";
    assert FractionDigits(36, 240, 8) == "15";
  }

  /** The text of a node: every descendant text node in document order,
      with carriage returns and line feeds removed. */
  function NodeText(n: Node): (t: string)
    ensures '\r' !in t && '\n' !in t
  {
    RemoveChar(RemoveChar(Concat(TextContents(Descendants(n))), '\r'), '\n')
  }

  function TextContents(ns: seq<Node>): seq<string> {
    if ns == [] then []
    else
      var last := ns[|ns| - 1];
      TextContents(ns[..|ns| - 1]) + (if last.Text? then [last.content] else [])
  }

  /** The paragraph's style id: the `val` of the first `pStyle` of the
      first `pPr`, "Normal" when any of these is missing. */
  function StyleIdOf(para: Node): string {
    match FirstNamed(Children(para), "pPr")
    case Some(p) => FirstChildAttr(Children(p), "pStyle", "val").GetOr("Normal")
    case None => "Normal"
  }

  /** The children of the paragraph's first `pPr` (none without one). */
  function PPrChildren(para: Node): seq<Node> {
    match FirstNamed(Children(para), "pPr")
    case Some(p) => Children(p)
    case None => []
  }

  predicate HasFirstLine(c: Node) { Name(c) == "ind" && AttrI32(c, "firstLine").Some? }
  predicate HasLine(c: Node) { Name(c) == "spacing" && AttrI32(c, "line").Some? }
  predicate HasOutline(c: Node) { Name(c) == "outlineLvl" && AttrU32(c, "val").Some? }

  /** `firstLine` of the last `ind` where it parses (twentieths of a point). */
  function OwnIndent(cs: seq<Node>): Option<int> {
    match LastWhere(cs, HasFirstLine)
    case Some(k) => AttrI32(cs[k], "firstLine")
    case None => None
  }

  /** `line` of the last `spacing` where it parses. */
  function OwnLine(cs: seq<Node>): Option<int> {
    match LastWhere(cs, HasLine)
    case Some(k) => AttrI32(cs[k], "line")
    case None => None
  }

  /** The outline level: the last `outlineLvl` value that parses as `u32`,
      plus one, wrapping around at 2^32. */
  function OutlineLevel(cs: seq<Node>): (r: Option<nat>)
    ensures r.Some? ==> r.value <= U32Max
  {
    match LastWhere(cs, HasOutline)
    case Some(k) => Some((AttrU32(cs[k], "val").value + 1) % (U32Max + 1))
    case None => None
  }

  /** Looking at one more child of a `pPr`: a child of the kind replaces
      the value, any other child leaves it. */
  lemma OwnIndentPrefixStep(cs: seq<Node>, i: nat)
    requires i < |cs|
    ensures OwnIndent(cs[..i + 1]) == if HasFirstLine(cs[i]) then AttrI32(cs[i], "firstLine") else OwnIndent(cs[..i])
  {
    LastWherePrefixStep(cs, i, HasFirstLine);
    assert cs[..i + 1][i] == cs[i];
  }

  lemma OwnLinePrefixStep(cs: seq<Node>, i: nat)
    requires i < |cs|
    ensures OwnLine(cs[..i + 1]) == if HasLine(cs[i]) then AttrI32(cs[i], "line") else OwnLine(cs[..i])
  {
    LastWherePrefixStep(cs, i, HasLine);
    assert cs[..i + 1][i] == cs[i];
  }

  lemma OutlinePrefixStep(cs: seq<Node>, i: nat)
    requires i < |cs|
    ensures OutlineLevel(cs[..i + 1]) ==
              if HasOutline(cs[i]) then Some((AttrU32(cs[i], "val").value + 1) % (U32Max + 1))
              else OutlineLevel(cs[..i])
  {
    LastWherePrefixStep(cs, i, HasOutline);
    assert cs[..i + 1][i] == cs[i];
  }

  function SpacingText(own: Option<int>): string {
    match own
    case Some(l) => LineSpacingText(l)
    case None => SentinelSpacing
  }

  /** The size a run declares: its first `rPr`, that element's first
      `sz`, and the `val` of that when it parses (half-points). */
  function RunSize(n: Node): Option<int> {
    if Name(n) != "r" then None
    else match FirstNamed(Children(n), "rPr")
      case None => None
      case Some(rpr) =>
        match FirstNamed(Children(rpr), "sz")
        case None => None
        case Some(sz) => AttrI32(sz, "val")
  }

  /** The family a run declares: `ascii` of its first `rFonts`, else
      `eastAsia`. */
  function RunFamily(n: Node): Option<string> {
    if Name(n) != "r" then None
    else match FirstNamed(Children(n), "rPr")
      case None => None
      case Some(rpr) =>
        match FirstNamed(Children(rpr), "rFonts")
        case None => None
        case Some(f) => Or(Attr(f, "ascii"), Attr(f, "eastAsia"))
  }

  /** `n` declares, through `get`, a value other than `sentinel`. */
  predicate Decides<T(==)>(get: Node -> Option<T>, sentinel: T, n: Node) {
    get(n).Some? && get(n).value != sentinel
  }

  /** The value the first node of `ds` that decides declares; `sentinel`
      when none does. A declared value equal to the sentinel is passed
      over, exactly as if it had not been declared. */
  function FirstDecided<T(==)>(ds: seq<Node>, get: Node -> Option<T>, sentinel: T): T {
    if ds == [] then sentinel
    else if get(ds[0]).Some? && get(ds[0]).value != sentinel then get(ds[0]).value
    else FirstDecided(ds[1..], get, sentinel)
  }

  /** `FirstDecided` is the value of the first deciding node, and is the
      sentinel exactly when no node decides. */
  lemma {:induction false} FirstDecidedMeaning<T>(ds: seq<Node>, get: Node -> Option<T>, sentinel: T)
    ensures var r := FirstDecided(ds, get, sentinel);
            r != sentinel ==>
              exists i | 0 <= i < |ds| ::
                Decides(get, sentinel, ds[i]) && get(ds[i]).value == r
                && forall j | 0 <= j < i :: !Decides(get, sentinel, ds[j])
    ensures FirstDecided(ds, get, sentinel) == sentinel <==>
              forall i | 0 <= i < |ds| :: !Decides(get, sentinel, ds[i])
  {
    if ds != [] && !Decides(get, sentinel, ds[0]) {
      var t := ds[1..];
      FirstDecidedMeaning(t, get, sentinel);
      assert forall j | 1 <= j < |ds| :: ds[j] == t[j - 1];
      var r := FirstDecided(t, get, sentinel);
      if r != sentinel {
        var i :| 0 <= i < |t| && Decides(get, sentinel, t[i]) && get(t[i]).value == r
                 && forall j | 0 <= j < i :: !Decides(get, sentinel, t[j]);
        assert Decides(get, sentinel, ds[i + 1]);
      }
    }
  }

  /** Scanning `a` then `b`: `b` is consulted only when `a` decides nothing. */
  lemma {:induction false} FirstDecidedAppend<T>(a: seq<Node>, b: seq<Node>, get: Node -> Option<T>, sentinel: T)
    ensures FirstDecided(a + b, get, sentinel) ==
              if FirstDecided(a, get, sentinel) != sentinel then FirstDecided(a, get, sentinel)
              else FirstDecided(b, get, sentinel)
  {
    if a == [] {
      assert a + b == b;
    } else {
      assert (a + b)[0] == a[0];
      assert (a + b)[1..] == a[1..] + b;
      FirstDecidedAppend(a[1..], b, get, sentinel);
    }
  }

  /** A single node decides exactly what it declares. */
  lemma FirstDecidedSingle<T>(n: Node, get: Node -> Option<T>, sentinel: T)
    ensures FirstDecided([n], get, sentinel) == get(n).GetOr(sentinel)
  {
    assert [n][1..] == [];
  }

  /** Scanning one more node of `ds`. */
  lemma FirstDecidedPrefixStep<T>(ds: seq<Node>, i: nat, get: Node -> Option<T>, sentinel: T)
    requires i < |ds|
    ensures FirstDecided(ds[..i + 1], get, sentinel) ==
              if FirstDecided(ds[..i], get, sentinel) != sentinel then FirstDecided(ds[..i], get, sentinel)
              else get(ds[i]).GetOr(sentinel)
  {
    assert ds[..i] + [ds[i]] == ds[..i + 1];
    FirstDecidedAppend(ds[..i], [ds[i]], get, sentinel);
    FirstDecidedSingle(ds[i], get, sentinel);
  }

  /** Once a prefix of `ds` has decided, the rest cannot change the value. */
  lemma FirstDecidedStays<T>(ds: seq<Node>, i: nat, get: Node -> Option<T>, sentinel: T)
    requires i <= |ds| && FirstDecided(ds[..i], get, sentinel) != sentinel
    ensures FirstDecided(ds, get, sentinel) == FirstDecided(ds[..i], get, sentinel)
  {
    assert ds[..i] + ds[i..] == ds;
    FirstDecidedAppend(ds[..i], ds[i..], get, sentinel);
  }

  /** The size of the first run whose size differs from the sentinel;
      the sentinel when no run has one. */
  function FirstRunSize(ds: seq<Node>): int {
    FirstDecided(ds, RunSize, SentinelSize)
  }

  /** The family of the first run whose family differs from the sentinel;
      the sentinel when no run has one. */
  function FirstRunFamily(ds: seq<Node>): string {
    FirstDecided(ds, RunFamily, SentinelFamily)
  }

  /** Size (half-points), family and spacing text of a paragraph. */
  datatype RunFormat = RunFormat(size: int, family: string, spacing: string)

  /** The family a style's `rFonts` supplies: its `ascii` font, else its
      `eastAsia` font, else the family already held. */
  function FamilyFrom(fonts: Option<RFonts>, family: string): (r: string)
    ensures fonts.Some? && fonts.value.ascii.Some? ==> r == fonts.value.ascii.value
    ensures fonts.Some? && fonts.value.ascii.None? && fonts.value.eastAsia.Some? ==> r == fonts.value.eastAsia.value
    ensures fonts.None? || (fonts.value.ascii.None? && fonts.value.eastAsia.None?) ==> r == family
  {
    match fonts
    case Some(f) => Or(f.ascii, f.eastAsia).GetOr(family)
    case None => family
  }

  /** The built-in style applied when the paragraph's style does not
      resolve: 24 half-points, Times New Roman, line 240. */
  function DefaultStyle(): StyleDefinition {
    StyleDefinition(
      "Default", None,
      ParagraphProperties(Some("Normal"), Some(Spacing(Some(240), Some("auto"))), None),
      RunProperties(Some(24), Some(RFonts(Some("Times New Roman"), Some("宋体")))))
  }

  /** The second and third stages of the cascade: values still at their
      sentinel are taken from the resolved style, or from the built-in
      default when the style does not resolve. */
  function ApplyStyle(resolved: Option<StyleDefinition>, own: RunFormat): (r: RunFormat)
    ensures own.size != SentinelSize ==> r.size == own.size
    ensures own.family != SentinelFamily ==> r.family == own.family
    ensures own.spacing != SentinelSpacing ==> r.spacing == own.spacing
    ensures resolved.None? ==> r == own
    ensures resolved.Some? && own.size == SentinelSize && resolved.value.runProps.sz.Some? ==>
              r.size == resolved.value.runProps.sz.value
    ensures resolved.Some? && own.family == SentinelFamily ==>
              r.family == FamilyFrom(resolved.value.runProps.rfonts, SentinelFamily)
    ensures resolved.Some? && own.spacing == SentinelSpacing && resolved.value.paragraphProps.spacing.Some?
              && resolved.value.paragraphProps.spacing.value.line.Some? ==>
              r.spacing == LineSpacingText(resolved.value.paragraphProps.spacing.value.line.value)
  {
    match resolved
    case Some(rs) =>
      RunFormat(
        if own.size == SentinelSize && rs.runProps.sz.Some? then rs.runProps.sz.value else own.size,
        if own.family == SentinelFamily then FamilyFrom(rs.runProps.rfonts, own.family) else own.family,
        if own.spacing == SentinelSpacing && rs.paragraphProps.spacing.Some?
           && rs.paragraphProps.spacing.value.line.Some?
        then LineSpacingText(rs.paragraphProps.spacing.value.line.value)
        else own.spacing)
    case None =>
      var d := DefaultStyle();
      RunFormat(
        if own.size == SentinelSize && d.runProps.sz.Some? then d.runProps.sz.value else own.size,
        if own.family == SentinelFamily then FamilyFrom(d.runProps.rfonts, own.family) else own.family,
        own.spacing)
  }

  /** The digit a style id ends with, when it ends with an ASCII digit. */
  function TrailingDigit(s: string): (r: Option<nat>)
    ensures r.Some? ==> r.value <= 9
  {
    if s != [] && IsAsciiDigit(s[|s| - 1]) then Some(s[|s| - 1] as int - '0' as int) else None
  }

  predicate IsHeadingStyle(styleId: string, outline: Option<nat>) {
    outline.Some? || StartsWith(styleId, "Heading") || Contains(styleId, "标题")
  }

  function Min(a: nat, b: nat): nat { if a <= b then a else b }

  /** The element type of a non-blank paragraph. */
  function ParagraphKind(para: Node, text: string, styleId: string, outline: Option<nat>): (r: ElementType)
    ensures r.Heading? <==> IsHeadingStyle(styleId, outline)
    ensures r.Heading? ==> r.level <= 255
    ensures r.Heading? && outline.Some? ==> r.level == Min(outline.value, 255)
    ensures r.Heading? && outline.None? ==> r.level == TrailingDigit(styleId).GetOr(1)
    ensures r.Table? <==> !IsHeadingStyle(styleId, outline) && HasChildNamed(para, "tbl")
    ensures r.Equation? <==>
              !IsHeadingStyle(styleId, outline) && !HasChildNamed(para, "tbl")
              && (Contains(text, "OMML") || Contains(text, "Math") || Contains(text, "math"))
  {
    if IsHeadingStyle(styleId, outline) then
      var level := if outline.Some? then outline.value else TrailingDigit(styleId).GetOr(1);
      Heading(Min(level, 255))
    else if HasChildNamed(para, "tbl") then Table
    else if Contains(text, "OMML") || Contains(text, "Math") || Contains(text, "math") then Equation
    else Paragraph
  }

  function OffsetPath(offset: nat): string {
    "document.xml#offset_" + NatToString(offset)
  }

  /** The formatting map of a paragraph. */
  function ParagraphFormatting(f: RunFormat, indent: Option<int>): (m: map<string, string>)
    ensures m.Keys == {"font-size", "line-spacing", "font-family"} + (if indent.Some? then {"first-line-indent"} else {})
    ensures m["font-size"] == RenderQuotient(f.size, 2) + "pt"
    ensures m["line-spacing"] == f.spacing && m["font-family"] == f.family
  {
    var m := map["font-size" := RenderQuotient(f.size, 2) + "pt", "line-spacing" := f.spacing, "font-family" := f.family];
    match indent
    case Some(i) => m["first-line-indent" := RenderQuotient(i, 20) + "pt"]
    case None => m
  }

  /** The section a `p` element yields, none when its text is blank. */
  function ParagraphSection(styles: Catalog, para: Node, offset: nat, id: int): (r: Option<DocumentSection>)
    ensures r.None? <==> Trim(NodeText(para), IsRustSpace) == []
    ensures r.Some? ==> r.value.id == id && r.value.rawText == NodeText(para)
                        && r.value.xmlPath == OffsetPath(offset)
  {
    var text := NodeText(para);
    if Trim(text, IsRustSpace) == [] then None
    else
      var styleId := StyleIdOf(para);
      var cs := PPrChildren(para);
      var ds := Descendants(para);
      var own := RunFormat(FirstRunSize(ds), FirstRunFamily(ds), SpacingText(OwnLine(cs)));
      var f := ApplyStyle(Resolve(styles, styleId), own);
      Some(DocumentSection(
        id, ParagraphKind(para, text, styleId, OutlineLevel(cs)), text,
        ParagraphFormatting(f, OwnIndent(cs)), OffsetPath(offset)))
  }

  /** The section a `tbl` element yields. */
  function TableSection(tbl: Node, offset: nat, id: int): DocumentSection {
    DocumentSection(id, Table, NodeText(tbl), map["font-size" := "12pt"], OffsetPath(offset))
  }

  /** The section the node at document position `offset` yields. */
  function NodeSection(styles: Catalog, n: Node, offset: nat): (r: Option<DocumentSection>)
    ensures r.Some? ==> r.value.id == offset + 1 && r.value.xmlPath == OffsetPath(offset)
    ensures r.Some? ==> Name(n) == "p" || Name(n) == "tbl"
    ensures Name(n) == "tbl" ==> r == Some(TableSection(n, offset, offset + 1))
  {
    if Name(n) == "p" then ParagraphSection(styles, n, offset, offset + 1)
    else if Name(n) == "tbl" then Some(TableSection(n, offset, offset + 1))
    else None
  }

  /** The sections present in `os`, in order. */
  function Yielded(os: seq<Option<DocumentSection>>): seq<DocumentSection> {
    if os == [] then []
    else Yielded(os[..|os| - 1]) + (if os[|os| - 1].Some? then [os[|os| - 1].value] else [])
  }

  /** The section at position `k`, when there is one, has id `k + 1`. */
  predicate NumberedByPosition(os: seq<Option<DocumentSection>>) {
    forall k | 0 <= k < |os| && os[k].Some? :: os[k].value.id == k + 1
  }

  lemma {:induction false} YieldedIds(os: seq<Option<DocumentSection>>)
    requires NumberedByPosition(os)
    ensures |Yielded(os)| <= |os|
    ensures forall k | 0 <= k < |Yielded(os)| :: 1 <= Yielded(os)[k].id <= |os|
    ensures forall k, l | 0 <= k < l < |Yielded(os)| :: Yielded(os)[k].id < Yielded(os)[l].id
  {
    if os != [] {
      var init := os[..|os| - 1];
      assert forall k | 0 <= k < |init| :: init[k] == os[k];
      YieldedIds(init);
    }
  }

  /** Appending what the last node yields changes nothing about the ids
      of the earlier nodes. */
  lemma YieldedInit(os: seq<Option<DocumentSection>>, i: nat)
    requires NumberedByPosition(os) && i < |os| - 1
    ensures HasSectionId(Yielded(os), i + 1) <==> HasSectionId(Yielded(os[..|os| - 1]), i + 1)
    ensures forall k | 0 <= k < |Yielded(os)| && Yielded(os)[k].id == i + 1 ::
              k < |Yielded(os[..|os| - 1])| && Yielded(os)[k] == Yielded(os[..|os| - 1])[k]
  {
    var prev := Yielded(os[..|os| - 1]);
    var r := Yielded(os);
    assert forall k | 0 <= k < |prev| :: r[k] == prev[k];
    if os[|os| - 1].Some? {
      assert r[|prev|].id == |os|;
    }
  }

  /** The last node's id is carried by its section alone. */
  lemma YieldedLast(os: seq<Option<DocumentSection>>)
    requires NumberedByPosition(os) && |os| > 0
    ensures os[|os| - 1].Some? <==> HasSectionId(Yielded(os), |os|)
    ensures forall k | 0 <= k < |Yielded(os)| && Yielded(os)[k].id == |os| :: Some(Yielded(os)[k]) == os[|os| - 1]
  {
    var init := os[..|os| - 1];
    assert forall k | 0 <= k < |init| :: init[k] == os[k];
    var prev := Yielded(init);
    var r := Yielded(os);
    YieldedIds(init);
    assert forall k | 0 <= k < |prev| :: r[k] == prev[k] && prev[k].id < |os|;
    if os[|os| - 1].Some? {
      assert r[|prev|] == os[|os| - 1].value;
    }
  }

  lemma {:induction false} YieldedComplete(os: seq<Option<DocumentSection>>, i: nat)
    requires NumberedByPosition(os) && i < |os|
    ensures os[i].Some? <==> HasSectionId(Yielded(os), i + 1)
    ensures forall k | 0 <= k < |Yielded(os)| && Yielded(os)[k].id == i + 1 :: Some(Yielded(os)[k]) == os[i]
  {
    if i < |os| - 1 {
      var init := os[..|os| - 1];
      assert forall k | 0 <= k < |init| :: init[k] == os[k];
      YieldedComplete(init, i);
      YieldedInit(os, i);
    } else {
      YieldedLast(os);
    }
  }

  lemma YieldedPrefixStep(os: seq<Option<DocumentSection>>, i: nat)
    requires i < |os|
    ensures Yielded(os[..i + 1]) == Yielded(os[..i]) + (if os[i].Some? then [os[i].value] else [])
  {
    assert os[..i + 1][..i] == os[..i];
  }

  /** What each node of `ns` yields at its document position. */
  function NodeSections(styles: Catalog, ns: seq<Node>): (r: seq<Option<DocumentSection>>)
    ensures |r| == |ns| && NumberedByPosition(r)
    ensures forall k | 0 <= k < |ns| :: r[k] == NodeSection(styles, ns[k], k)
  {
    seq(|ns|, k requires 0 <= k < |ns| => NodeSection(styles, ns[k], k))
  }

  /** The sections of a document whose nodes, in document order, are
      `ns`: the node at position `i` has id `i + 1`, so ids increase
      strictly but skip the nodes that yield nothing. */
  function ArchiveSections(styles: Catalog, ns: seq<Node>): (r: seq<DocumentSection>)
    ensures |r| <= |ns|
    ensures forall k | 0 <= k < |r| :: 1 <= r[k].id <= |ns|
    ensures forall k, l | 0 <= k < l < |r| :: r[k].id < r[l].id
  {
    var os := NodeSections(styles, ns);
    YieldedIds(os);
    Yielded(os)
  }

  predicate HasSectionId(r: seq<DocumentSection>, id: int) {
    exists k | 0 <= k < |r| :: r[k].id == id
  }

  /** Every node that yields a section contributes exactly that section,
      and no other section carries that node's id. */
  lemma ArchiveSectionsComplete(styles: Catalog, ns: seq<Node>, i: nat)
    requires i < |ns|
    ensures NodeSection(styles, ns[i], i).Some? <==> HasSectionId(ArchiveSections(styles, ns), i + 1)
    ensures forall k | 0 <= k < |ArchiveSections(styles, ns)| && ArchiveSections(styles, ns)[k].id == i + 1 ::
              Some(ArchiveSections(styles, ns)[k]) == NodeSection(styles, ns[i], i)
  {
    YieldedComplete(NodeSections(styles, ns), i);
  }

  /** The style catalog of an archive: the records of `word/styles.xml`
      when that part exists, none otherwise. */
  function ArchiveStyles(archive: map<string, XmlPart>): Catalog {
    if "word/styles.xml" in archive && archive["word/styles.xml"].Wellformed? then
      CatalogOf(map[], Children(archive["word/styles.xml"].root))
    else map[]
  }

  /** `parse_archive`: a malformed styles part or a missing or malformed
      document part is an error; otherwise the sections of every node of
      the document in order. */
  function ArchiveResult(archive: map<string, XmlPart>): Result<seq<DocumentSection>> {
    if "word/styles.xml" in archive && archive["word/styles.xml"].Malformed? then
      Err("word/styles.xml: malformed XML")
    else if "word/document.xml" !in archive then
      Err("word/document.xml: not found in archive")
    else if archive["word/document.xml"].Malformed? then
      Err("word/document.xml: malformed XML")
    else
      Ok(ArchiveSections(ArchiveStyles(archive), Descendants(archive["word/document.xml"].root)))
  }

  // ---------------------------------------------------------------------
  // The parser

  class DocxParser {
    var styles: Catalog

    constructor()
      ensures styles == map[]
    {
      styles := map[];
    }

    method ParseParagraphPropertiesFromNode(ppr: Node) returns (props: ParagraphProperties)
      ensures props == ParagraphPropertiesOf(Children(ppr))
    {
      var cs := Children(ppr);
      props := NoParagraphProperties;
      var i := 0;
      while i < |cs|
        invariant 0 <= i <= |cs|
        invariant props == ParagraphPropertiesOf(cs[..i])
      {
        var child := cs[i];
        LastWherePrefixStep(cs, i, IsStyleRef);
        LastWherePrefixStep(cs, i, IsSpacing);
        LastWherePrefixStep(cs, i, IsIndent);
        if Name(child) == "spacing" {
          props := props.(spacing := Some(Spacing(AttrI32(child, "line"), Attr(child, "lineRule"))));
        } else if Name(child) == "ind" {
          props := props.(ind := Some(Indent(AttrI32(child, "firstLine"))));
        } else if Name(child) == "pStyle" {
          match Attr(child, "val") {
            case Some(v) => props := props.(style := Some(v));
            case None =>
          }
        }
        assert cs[..i + 1][..i] == cs[..i];
        i := i + 1;
      }
      assert cs[..|cs|] == cs;
    }

    method ParseRunPropertiesFromNode(rpr: Node) returns (props: RunProperties)
      ensures props == RunPropertiesOf(Children(rpr))
    {
      var cs := Children(rpr);
      props := NoRunProperties;
      var i := 0;
      while i < |cs|
        invariant 0 <= i <= |cs|
        invariant props == RunPropertiesOf(cs[..i])
      {
        var child := cs[i];
        LastWherePrefixStep(cs, i, IsSizeWithValue);
        LastWherePrefixStep(cs, i, IsFonts);
        if Name(child) == "sz" {
          match AttrI32(child, "val") {
            case Some(v) => props := props.(sz := Some(v));
            case None =>
          }
        } else if Name(child) == "rFonts" {
          props := props.(rfonts := Some(RFonts(Attr(child, "ascii"), Attr(child, "eastAsia"))));
        }
        assert cs[..i + 1][..i] == cs[..i];
        i := i + 1;
      }
      assert cs[..|cs|] == cs;
    }

    /** Reads the style records of a styles part into the catalog; a part
        the XML reader rejects is an error and changes nothing. */
    method ParseStylesXml(part: XmlPart) returns (r: Result<()>)
      modifies this
      ensures part.Malformed? ==> r.Err? && styles == old(styles)
      ensures part.Wellformed? ==> r == Ok(()) && styles == CatalogOf(old(styles), Children(part.root))
    {
      if part.Malformed? {
        return Err("styles part: malformed XML");
      }
      var cs := Children(part.root);
      var i := 0;
      while i < |cs|
        invariant 0 <= i <= |cs|
        invariant styles == CatalogOf(old(styles), cs[..i])
      {
        var node := cs[i];
        if Name(node) == "style" && Attr(node, "styleId").Some? {
          var id := Attr(node, "styleId").value;
          var kids := Children(node);
          var pp := NoParagraphProperties;
          var rp := NoRunProperties;
          match FirstNamed(kids, "pPr") {
            case Some(p) => pp := ParseParagraphPropertiesFromNode(p);
            case None =>
          }
          match FirstNamed(kids, "rPr") {
            case Some(p) => rp := ParseRunPropertiesFromNode(p);
            case None =>
          }
          styles := styles[id := StyleDefinition(
            FirstChildAttr(kids, "name", "val").GetOr(id), FirstChildAttr(kids, "basedOn", "val"), pp, rp)];
        }
        assert cs[..i + 1][..i] == cs[..i];
        i := i + 1;
      }
      assert cs[..|cs|] == cs;
      r := Ok(());
    }

    /** Fills the unset properties of `def` walking `chain` from its end
        (the root) back to its start. */
    method ApplyInheritedProperties(def: StyleDefinition, chain: seq<string>) returns (r: StyleDefinition)
      ensures r == InheritedStyle(styles, def, chain)
    {
      r := def;
      var i := |chain|;
      while i > 0
        invariant 0 <= i <= |chain|
        invariant r == InheritedStyle(styles, def, chain[i..])
      {
        i := i - 1;
        InheritedStep(styles, def, chain, i);
        if chain[i] in styles {
          var inherited := styles[chain[i]];
          ghost var before := r;
          if r.paragraphProps.style.None? && inherited.paragraphProps.style.Some? {
            r := r.(paragraphProps := r.paragraphProps.(style := inherited.paragraphProps.style));
          }
          if r.paragraphProps.spacing.None? && inherited.paragraphProps.spacing.Some? {
            r := r.(paragraphProps := r.paragraphProps.(spacing := inherited.paragraphProps.spacing));
          }
          if r.paragraphProps.ind.None? && inherited.paragraphProps.ind.Some? {
            r := r.(paragraphProps := r.paragraphProps.(ind := inherited.paragraphProps.ind));
          }
          if r.runProps.sz.None? && inherited.runProps.sz.Some? {
            r := r.(runProps := r.runProps.(sz := inherited.runProps.sz));
          }
          if r.runProps.rfonts.None? && inherited.runProps.rfonts.Some? {
            r := r.(runProps := r.runProps.(rfonts := inherited.runProps.rfonts));
          }
          assert r == Fill(before, inherited);
        }
      }
    }

    /** Follows `basedOn` links from `styleId` with a visited list. */
    method ResolveStyle(styleId: string) returns (r: Option<StyleDefinition>)
      ensures r == Resolve(styles, styleId)
    {
      var cur := styleId;
      var visited: seq<string> := [];
      while cur in styles
        invariant AllKnown(styles, visited)
        invariant ResolveFrom(styles, cur, visited) == Resolve(styles, styleId)
        decreases styles.Keys - Seen(visited)
      {
        if cur in visited {
          break;
        }
        var def := styles[cur];
        assert Seen(visited + [cur]) == Seen(visited) + {cur};
        visited := visited + [cur];
        match def.basedOn {
          case Some(b) =>
            cur := b;
          case None =>
            var filled := ApplyInheritedProperties(def, visited);
            return Some(filled);
        }
      }
      r := None;
    }

    method ExtractTextFromNode(n: Node) returns (text: string)
      ensures text == NodeText(n)
    {
      var ds := Descendants(n);
      var acc := "";
      var i := 0;
      while i < |ds|
        invariant 0 <= i <= |ds|
        invariant acc == Concat(TextContents(ds[..i]))
      {
        assert ds[..i + 1][..i] == ds[..i];
        assert ds[..i + 1][i] == ds[i];
        if ds[i].Text? {
          assert TextContents(ds[..i + 1]) == TextContents(ds[..i]) + [ds[i].content];
          ConcatAppend(TextContents(ds[..i]), ds[i].content);
          acc := acc + ds[i].content;
        } else {
          assert TextContents(ds[..i + 1]) == TextContents(ds[..i]) + [];
          assert TextContents(ds[..i]) + [] == TextContents(ds[..i]);
        }
        i := i + 1;
      }
      assert ds[..|ds|] == ds;
      text := RemoveChar(RemoveChar(acc, '\r'), '\n');
    }

    /** One pass over the first `pPr`: the last parsable `ind/@firstLine`,
        `spacing/@line` and `outlineLvl/@val` decide. */
    method ScanParagraphProperties(cs: seq<Node>) returns (indent: Option<int>, spacing: string, outline: Option<nat>)
      ensures indent == OwnIndent(cs) && spacing == SpacingText(OwnLine(cs)) && outline == OutlineLevel(cs)
    {
      indent, spacing, outline := None, SentinelSpacing, None;
      var i := 0;
      while i < |cs|
        invariant 0 <= i <= |cs|
        invariant indent == OwnIndent(cs[..i]) && spacing == SpacingText(OwnLine(cs[..i]))
        invariant outline == OutlineLevel(cs[..i])
      {
        OwnIndentPrefixStep(cs, i);
        OwnLinePrefixStep(cs, i);
        OutlinePrefixStep(cs, i);
        indent, spacing, outline := ScanProperty(cs[i], indent, spacing, outline);
        i := i + 1;
      }
      assert cs[..|cs|] == cs;
    }

    /** The body of the `pPr` loop: an `ind`, `spacing` or `outlineLvl`
        child whose attribute parses replaces that value. */
    static method ScanProperty(child: Node, indent0: Option<int>, spacing0: string, outline0: Option<nat>)
      returns (indent: Option<int>, spacing: string, outline: Option<nat>)
      ensures indent == if HasFirstLine(child) then AttrI32(child, "firstLine") else indent0
      ensures spacing == if HasLine(child) then LineSpacingText(AttrI32(child, "line").value) else spacing0
      ensures outline == if HasOutline(child) then Some((AttrU32(child, "val").value + 1) % (U32Max + 1)) else outline0
    {
      indent, spacing, outline := indent0, spacing0, outline0;
      if Name(child) == "ind" {
        match AttrI32(child, "firstLine") {
          case Some(fl) => indent := Some(fl);
          case None =>
        }
      } else if Name(child) == "spacing" {
        match AttrI32(child, "line") {
          case Some(line) => spacing := LineSpacingText(line);
          case None =>
        }
      } else if Name(child) == "outlineLvl" {
        match AttrU32(child, "val") {
          case Some(level) => outline := Some((level + 1) % (U32Max + 1));
          case None =>
        }
      }
    }

    /** The size and family one run contributes, given what earlier runs
        have already set. */
    static method ScanRun(run: Node, size0: int, family0: string) returns (size: int, family: string)
      ensures size == if size0 != SentinelSize then size0 else RunSize(run).GetOr(SentinelSize)
      ensures family == if family0 != SentinelFamily then family0 else RunFamily(run).GetOr(SentinelFamily)
    {
      size, family := size0, family0;
      if Name(run) == "r" && FirstNamed(Children(run), "rPr").Some? {
        var rpr := FirstNamed(Children(run), "rPr").value;
        if size == SentinelSize {
          match FirstNamed(Children(rpr), "sz") {
            case Some(sz) =>
              match AttrI32(sz, "val") {
                case Some(v) => size := v;
                case None =>
              }
            case None =>
          }
        }
        if family == SentinelFamily {
          match FirstNamed(Children(rpr), "rFonts") {
            case Some(f) =>
              match Or(Attr(f, "ascii"), Attr(f, "eastAsia")) {
                case Some(v) => family := v;
                case None =>
              }
            case None =>
          }
        }
      }
    }

    /** The run stage of the paragraph cascade: the first run that sets a
        size other than the sentinel decides the size, likewise the family,
        and the scan stops once both are decided. */
    static method ScanRuns(ds: seq<Node>) returns (size: int, family: string)
      ensures size == FirstRunSize(ds) && family == FirstRunFamily(ds)
    {
      size, family := SentinelSize, SentinelFamily;
      var i := 0;
      while i < |ds|
        invariant 0 <= i <= |ds|
        invariant size == FirstRunSize(ds[..i]) && family == FirstRunFamily(ds[..i])
      {
        FirstDecidedPrefixStep(ds, i, RunSize, SentinelSize);
        FirstDecidedPrefixStep(ds, i, RunFamily, SentinelFamily);
        size, family := ScanRun(ds[i], size, family);
        i := i + 1;
        if size != SentinelSize && family != SentinelFamily {
          FirstDecidedStays(ds, i, RunSize, SentinelSize);
          FirstDecidedStays(ds, i, RunFamily, SentinelFamily);
          return;
        }
      }
      assert ds[..|ds|] == ds;
    }

    method ParseParagraph(para: Node, offset: nat, sectionId: int) returns (r: Option<DocumentSection>)
      ensures r == ParagraphSection(styles, para, offset, sectionId)
    {
      var text := ExtractTextFromNode(para);
      if Trim(text, IsRustSpace) == [] {
        return None;
      }
      var styleId := StyleIdOf(para);
      var indent, spacing, outline := ScanParagraphProperties(PPrChildren(para));
      var size, family := ScanRuns(Descendants(para));
      var resolved := ResolveStyle(styleId);
      var f := ApplyStyle(resolved, RunFormat(size, family, spacing));
      r := Some(DocumentSection(
        sectionId, ParagraphKind(para, text, styleId, outline), text,
        ParagraphFormatting(f, indent), OffsetPath(offset)));
    }

    method ParseTable(tbl: Node, offset: nat, sectionId: int) returns (r: DocumentSection)
      ensures r == TableSection(tbl, offset, sectionId)
    {
      var text := ExtractTextFromNode(tbl);
      r := DocumentSection(sectionId, Table, text, map["font-size" := "12pt"], OffsetPath(offset));
    }

    /** The sections of the document nodes `nodes`, in order, the node at
        position `i` numbered `i + 1`. */
    method ParseNodes(nodes: seq<Node>) returns (sections: seq<DocumentSection>)
      ensures sections == ArchiveSections(styles, nodes)
    {
      ghost var os := NodeSections(styles, nodes);
      sections := [];
      var offset := 0;
      while offset < |nodes|
        invariant 0 <= offset <= |nodes|
        invariant sections == Yielded(os[..offset])
      {
        var node := nodes[offset];
        YieldedPrefixStep(os, offset);
        assert os[offset] == NodeSection(styles, node, offset);
        if Name(node) == "p" {
          var s := ParseParagraph(node, offset, offset + 1);
          if s.Some? {
            sections := sections + [s.value];
          }
        } else if Name(node) == "tbl" {
          var s := ParseTable(node, offset, offset + 1);
          sections := sections + [s];
        }
        offset := offset + 1;
      }
      assert os[..|os|] == os;
    }

    /** Parses an archive: styles first (optional), then every node of the
        document in order, the node at position `i` numbered `i + 1`. */
    static method ParseArchive(archive: map<string, XmlPart>) returns (r: Result<seq<DocumentSection>>)
      ensures r == ArchiveResult(archive)
    {
      var parser := new DocxParser();
      if "word/styles.xml" in archive {
        var loaded := parser.ParseStylesXml(archive["word/styles.xml"]);
        if loaded.Err? {
          return Err("word/styles.xml: malformed XML");
        }
      }
      assert parser.styles == ArchiveStyles(archive);
      if "word/document.xml" !in archive {
        return Err("word/document.xml: not found in archive");
      }
      if archive["word/document.xml"].Malformed? {
        return Err("word/document.xml: malformed XML");
      }
      var sections := parser.ParseNodes(Descendants(archive["word/document.xml"].root));
      r := Ok(sections);
    }
  }
}
