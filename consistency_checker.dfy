/** The logic-consistency checker of the inference service
    (`consistency_checker.py`): abbreviation matching, the record of which
    sections use which term, the keyword comparison of summary and
    conclusion, and the checker object whose fields `check_consistency`
    resets and refills. The term extraction (three regular expressions) and
    the language-model call are outside the model: the terms found in a
    text are a parameter, and so is the model's parsed answer. */
module ConsistencyChecker {
  import opened Wrappers
  import opened Text
  import opened Seqs
  import opened InferenceTypes

  // ---------------------------------------------------------------------
  // Abbreviations

  /** The class `[\s\-_]`. */
  predicate IsTermSeparator(c: char) {
    IsPySpace(c) || c == '-' || c == '_'
  }

  function TermSeparator(): char -> bool {
    (c: char) => IsTermSeparator(c)
  }

  function Words(fullTerm: string): seq<string> {
    Pieces(fullTerm, TermSeparator())
  }

  /** `_is_abbreviation_of`: as many letters as words, each the upper-cased
      initial of its word (no word may be empty); or a single letter that
      starts some word once upper-cased; otherwise never. */
  predicate IsAbbreviationOf(abbr: string, fullTerm: string) {
    var words := Words(fullTerm);
    if |abbr| == |words| then
      forall i | 0 <= i < |words| :: words[i] != "" && AsciiUpperChar(words[i][0]) == abbr[i]
    else if |abbr| == 1 then
      exists i | 0 <= i < |words| :: words[i] != "" && StartsWith(words[i], AsciiUpper(abbr))
    else false
  }

  /** For a term made of words joined by single separators, an
      abbreviation of two or more letters is exactly the sequence of the
      upper-cased initials. */
  lemma AcronymOfWords(abbr: string, words: seq<string>, c: char)
    requires |words| >= 1 && IsTermSeparator(c)
    requires forall k | 0 <= k < |words| :: words[k] != "" && NoSeparator(words[k], TermSeparator())
    requires |abbr| >= 2
    ensures IsAbbreviationOf(abbr, Join(words, [c])) <==>
              |abbr| == |words| && forall i | 0 <= i < |words| :: abbr[i] == AsciiUpperChar(words[i][0])
  {
    PiecesJoin(words, c, TermSeparator());
  }

  /** An empty word (two separators in a row, or one at either end) rules
      out the initials match. */
  lemma EmptyWordBlocksAcronym(abbr: string, fullTerm: string)
    requires |abbr| >= 2 && |abbr| == |Words(fullTerm)|
    requires exists i | 0 <= i < |Words(fullTerm)| :: Words(fullTerm)[i] == ""
    ensures !IsAbbreviationOf(abbr, fullTerm)
  {
  }

  // ---------------------------------------------------------------------
  // Keywords and the alignment score

  /** Python's `\w`, for the scripts the documents use. */
  predicate IsWordChar(c: char) {
    IsAlphabetic(c) || IsAsciiDigit(c) || c == '_'
  }

  function NonWord(): char -> bool {
    (c: char) => !IsWordChar(c)
  }

  /** `set(re.findall(r'\b\w{4,}\b', text.lower()))`: the maximal runs of
      word characters of length at least four. */
  function Keywords(text: string): set<string> {
    set w | w in Pieces(AsciiLower(text), NonWord()) && |w| >= 4
  }

  /** Every keyword is a run of at least four word characters. */
  lemma KeywordsShape(text: string)
    ensures forall w | w in Keywords(text) :: |w| >= 4 && forall k | 0 <= k < |w| :: IsWordChar(w[k])
  {
    PiecesPure(AsciiLower(text), NonWord());
    forall w | w in Keywords(text) ensures forall k | 0 <= k < |w| :: IsWordChar(w[k]) {
      var i :| 0 <= i < |Pieces(AsciiLower(text), NonWord())| && Pieces(AsciiLower(text), NonWord())[i] == w;
      assert NoSeparator(w, NonWord());
      forall k | 0 <= k < |w| ensures IsWordChar(w[k]) {
        assert !NonWord()(w[k]);
      }
    }
  }

  /** No piece holds a separator. */
  lemma {:induction false} PiecesPure(s: string, sep: char -> bool)
    ensures forall k | 0 <= k < |Pieces(s, sep)| :: NoSeparator(Pieces(s, sep)[k], sep)
    decreases |s|
  {
    if s != [] {
      PiecesPure(s[1..], sep);
      var rest := Pieces(s[1..], sep);
      var r := Pieces(s, sep);
      if sep(s[0]) {
        assert forall k | 1 <= k < |r| :: r[k] == rest[k - 1];
      } else {
        assert forall k | 1 <= k < |r| :: r[k] == rest[k];
        assert forall j | 1 <= j < |r[0]| :: r[0][j] == rest[0][j - 1];
      }
    }
  }

  /** The share of `s` that `c` also has, capped at 1 as `min(score, 1.0)`
      does. */
  function Overlap(s: set<string>, c: set<string>): (r: real)
    requires s != {}
    ensures 0.0 <= r <= 1.0
  {
    SubsetCard(s * c, s);
    var score := (|s * c| as real) / (|s| as real);
    if score < 1.0 then score else 1.0
  }

  /** `_calculate_alignment_score`: 0 when either text is empty or the
      summary has no keyword, otherwise the share of summary keywords the
      conclusion also has. */
  function AlignmentScore(summary: string, conclusion: string): real {
    if summary == "" || conclusion == "" || Keywords(summary) == {} then 0.0
    else Overlap(Keywords(summary), Keywords(conclusion))
  }

  lemma {:induction false} SubsetCard<T>(a: set<T>, b: set<T>)
    requires a <= b
    ensures |a| <= |b|
    ensures |a| == |b| ==> a == b
    decreases |b|
  {
    if b != {} {
      var x :| x in b;
      SubsetCard(a - {x}, b - {x});
      if x in a {
        assert |a - {x}| == |a| - 1;
        assert a == (a - {x}) + {x};
      } else {
        assert a - {x} == a;
      }
    }
  }

  /** The overlap is 1 exactly when `s` lies inside `c`, and 0 exactly when
      they are disjoint. */
  lemma OverlapMeaning(s: set<string>, c: set<string>)
    requires s != {}
    ensures Overlap(s, c) == 1.0 <==> s <= c
    ensures Overlap(s, c) == 0.0 <==> s * c == {}
  {
    SubsetCard(s * c, s);
    var n := |s * c| as real;
    var d := |s| as real;
    assert d > 0.0;
    assert n / d == 1.0 <==> n == d;
    assert n / d == 0.0 <==> n == 0.0;
    assert |s * c| == |s| <==> s * c == s;
  }

  /** The score lies in [0, 1]; for two non-empty texts and some summary
      keyword it is 1 exactly when every summary keyword is in the
      conclusion, and 0 exactly when they share none. */
  lemma AlignmentScoreMeaning(summary: string, conclusion: string)
    ensures 0.0 <= AlignmentScore(summary, conclusion) <= 1.0
    ensures summary == "" || conclusion == "" ==> AlignmentScore(summary, conclusion) == 0.0
    ensures summary != "" && conclusion != "" && Keywords(summary) != {} ==>
              (AlignmentScore(summary, conclusion) == 1.0 <==> Keywords(summary) <= Keywords(conclusion)) &&
              (AlignmentScore(summary, conclusion) == 0.0 <==> Keywords(summary) * Keywords(conclusion) == {})
  {
    if summary != "" && conclusion != "" && Keywords(summary) != {} {
      OverlapMeaning(Keywords(summary), Keywords(conclusion));
    }
  }

  // ---------------------------------------------------------------------
  // Summary-conclusion alignment

  /** The summary keywords the conclusion lacks. */
  function MissingTopics(summary: string, conclusion: string): set<string> {
    Keywords(summary) - Keywords(conclusion)
  }

  function MismatchMessage(named: seq<string>): string {
    "摘要中提到但结论中缺失的主题: " + Join(named, ", ")
  }

  /** At most the first five of a listing. */
  function FirstFive(xs: seq<string>): (r: seq<string>)
    ensures |r| == if |xs| < 5 then |xs| else 5
    ensures forall k | 0 <= k < |r| :: r[k] == xs[k]
  {
    if |xs| <= 5 then xs else xs[..5]
  }

  /** `_simple_alignment_check`. The order in which Python iterates a set
      is not specified; `listing` stands for `list(...)` of a set. */
  function SimpleAlignment(summary: string, conclusion: string, listing: set<string> -> seq<string>): (r: seq<Issue>)
    ensures |r| <= 1
    ensures |r| == 1 <==> MissingTopics(summary, conclusion) != {}
    ensures |r| == 1 ==> r[0] == Bare("SUMMARY_CONCLUSION_MISMATCH",
                                       MismatchMessage(FirstFive(listing(MissingTopics(summary, conclusion)))), High)
  {
    var missing := MissingTopics(summary, conclusion);
    if missing != {} then
      [Bare("SUMMARY_CONCLUSION_MISMATCH", MismatchMessage(FirstFive(listing(missing))), High)]
    else []
  }

  predicate NoDuplicates<T(==)>(xs: seq<T>) {
    forall i, j | 0 <= i < j < |xs| :: xs[i] != xs[j]
  }

  /** A listing that enumerates a set without repeats has as many elements
      as the set. */
  lemma {:induction false} ListingSize<T>(xs: seq<T>, s: set<T>)
    requires NoDuplicates(xs) && forall x :: x in xs <==> x in s
    ensures |xs| == |s|
    decreases |xs|
  {
    if xs != [] {
      var init := xs[..|xs| - 1];
      var x := xs[|xs| - 1];
      assert forall y :: y in init <==> y in s - {x} by {
        forall y ensures y in init <==> y in s - {x} {
          if y in init {
            var i :| 0 <= i < |init| && init[i] == y;
            assert xs[i] == y;
          }
          if y in xs && y != x {
            var i :| 0 <= i < |xs| && xs[i] == y;
            assert i < |xs| - 1 && init[i] == y;
          }
        }
      }
      ListingSize(init, s - {x});
    }
  }

  /** When the listing enumerates the missing topics, the message names
      distinct missing topics, five of them or all when fewer. */
  lemma SimpleAlignmentNames(summary: string, conclusion: string, listing: set<string> -> seq<string>)
    requires var xs := listing(MissingTopics(summary, conclusion));
      NoDuplicates(xs) && forall x :: x in xs <==> x in MissingTopics(summary, conclusion)
    ensures var named := FirstFive(listing(MissingTopics(summary, conclusion)));
      && NoDuplicates(named)
      && (forall k | 0 <= k < |named| :: named[k] in Keywords(summary) && named[k] !in Keywords(conclusion))
      && |named| == if |MissingTopics(summary, conclusion)| < 5 then |MissingTopics(summary, conclusion)| else 5
  {
    var xs := listing(MissingTopics(summary, conclusion));
    ListingSize(xs, MissingTopics(summary, conclusion));
    var named := FirstFive(xs);
    forall k | 0 <= k < |named| ensures named[k] in MissingTopics(summary, conclusion) {
      assert named[k] == xs[k] && xs[k] in xs;
    }
  }

  /** One element of the model's `issues` array for the alignment check;
      absent keys are `None`. */
  datatype AlignmentItem = AlignmentItem(kind: Option<string>, description: Option<string>, severity: Option<string>)

  /** The answer of the language model: a failed call (an error status or
      an exception), or the parsed `issues` array, `None` when the answer
      holds no JSON object, does not decode, or has no `issues` key. */
  datatype AlignmentAnswer = CallFailed | Answered(items: Option<seq<AlignmentItem>>)

  function AlignmentItemIssue(item: AlignmentItem): (r: Issue)
    ensures r.code == item.kind.GetOr("ALIGNMENT_ISSUE") && r.message == item.description.GetOr("")
    ensures r.severity != Critical
    ensures item.severity.None? ==> r.severity == Medium
  {
    Bare(item.kind.GetOr("ALIGNMENT_ISSUE"), item.description.GetOr(""),
         NamedSeverity(item.severity.GetOr("MEDIUM")))
  }

  function ItemIssues(items: seq<AlignmentItem>): (r: seq<Issue>)
    ensures |r| == |items| && forall k | 0 <= k < |items| :: r[k] == AlignmentItemIssue(items[k])
  {
    seq(|items|, k requires 0 <= k < |items| => AlignmentItemIssue(items[k]))
  }

  /** `_check_summary_conclusion_alignment`, given whether the model can be
      called (SDK installed and a key set) and its answer for the two
      texts. */
  function AlignmentIssues(summary: string, conclusion: string, modelAvailable: bool,
                           ask: (string, string) -> AlignmentAnswer,
                           listing: set<string> -> seq<string>): seq<Issue>
  {
    if summary == "" || conclusion == "" then []
    else if !modelAvailable then SimpleAlignment(summary, conclusion, listing)
    else match ask(summary, conclusion)
      case CallFailed => SimpleAlignment(summary, conclusion, listing)
      case Answered(items) => if items.Some? then ItemIssues(items.value) else []
  }

  /** Nothing is compared without both texts; without the model, or when
      its call fails, the keyword check decides; a usable answer is taken
      item for item; an unreadable one gives nothing. */
  lemma AlignmentIssuesMeaning(summary: string, conclusion: string, modelAvailable: bool,
                               ask: (string, string) -> AlignmentAnswer,
                               listing: set<string> -> seq<string>)
    ensures summary == "" || conclusion == "" ==> AlignmentIssues(summary, conclusion, modelAvailable, ask, listing) == []
    ensures summary != "" && conclusion != "" && (!modelAvailable || ask(summary, conclusion).CallFailed?) ==>
              (AlignmentIssues(summary, conclusion, modelAvailable, ask, listing) != [] <==>
               MissingTopics(summary, conclusion) != {})
    ensures summary != "" && conclusion != "" && modelAvailable && ask(summary, conclusion) == Answered(None) ==>
              AlignmentIssues(summary, conclusion, modelAvailable, ask, listing) == []
    ensures summary != "" && conclusion != "" && modelAvailable && ask(summary, conclusion).Answered? &&
            ask(summary, conclusion).items.Some? ==>
              |AlignmentIssues(summary, conclusion, modelAvailable, ask, listing)| == |ask(summary, conclusion).items.value|
  {
  }

  // ---------------------------------------------------------------------
  // Term usage

  /** A Python dictionary as its entries in insertion order. */
  function KeysOf<K, V>(u: seq<(K, V)>): (r: seq<K>)
    ensures |r| == |u| && forall k | 0 <= k < |u| :: r[k] == u[k].0
  {
    seq(|u|, k requires 0 <= k < |u| => u[k].0)
  }

  /** The position of key `t`, if present. */
  function KeyIndex<K(==), V>(u: seq<(K, V)>, t: K): (r: Option<nat>)
    ensures r.Some? ==> r.value < |u| && u[r.value].0 == t
    ensures r.None? <==> forall k | 0 <= k < |u| :: u[k].0 != t
    decreases |u|
  {
    if u == [] then None
    else if u[|u| - 1].0 == t then Some(|u| - 1)
    else
      var r := KeyIndex(u[..|u| - 1], t);
      assert forall k | 0 <= k < |u| - 1 :: u[..|u| - 1][k] == u[k];
      r
  }

  function Value<K(==), V>(u: seq<(K, V)>, t: K): Option<V> {
    match KeyIndex(u, t)
    case Some(k) => Some(u[k].1)
    case None => None
  }

  /** `d[t] = v`: an existing key keeps its place, a new one goes last. */
  function Put<K(==), V>(u: seq<(K, V)>, t: K, v: V): seq<(K, V)> {
    match KeyIndex(u, t)
    case Some(k) => u[k := (t, v)]
    case None => u + [(t, v)]
  }

  predicate DistinctKeys<K(==), V>(u: seq<(K, V)>) {
    forall i, j | 0 <= i < j < |u| :: u[i].0 != u[j].0
  }

  /** Storing keeps the keys distinct, adds the key last on first use, and
      changes the value of that key only. */
  lemma PutValue<K, V>(u: seq<(K, V)>, t: K, v: V, t': K)
    requires DistinctKeys(u)
    ensures DistinctKeys(Put(u, t, v))
    ensures KeysOf(Put(u, t, v)) == if t in KeysOf(u) then KeysOf(u) else KeysOf(u) + [t]
    ensures Value(Put(u, t, v), t') == if t' == t then Some(v) else Value(u, t')
  {
    var w := Put(u, t, v);
    match KeyIndex(u, t)
    case Some(k) =>
      assert t in KeysOf(u) by { assert KeysOf(u)[k] == t; }
      assert KeysOf(w) == KeysOf(u);
      if t' == t {
        assert KeyIndex(w, t) == Some(k);
      } else {
        match KeyIndex(u, t')
        case Some(j) => assert KeyIndex(w, t') == Some(j);
        case None =>
      }
    case None =>
      assert t !in KeysOf(u);
      assert KeysOf(w) == KeysOf(u) + [t];
      if t' == t {
        assert KeyIndex(w, t) == Some(|u|);
      } else {
        match KeyIndex(u, t')
        case Some(j) => assert KeyIndex(w, t') == Some(j);
        case None =>
      }
  }

  /** The `terms` dictionary: each term with the ids of the sections that
      use it. */
  type Usage = seq<(string, seq<int>)>

  /** `self.terms[t]`: the sections of a term, none for an unknown one. */
  function Lookup(u: Usage, t: string): seq<int> {
    Value(u, t).GetOr([])
  }

  /** `if x not in xs: xs.append(x)`. */
  function Add(xs: seq<int>, x: int): seq<int> {
    if x in xs then xs else xs + [x]
  }

  /** `if sec_id not in self.terms[term]: self.terms[term].append(sec_id)`,
      with the key created on first access. */
  function Record(u: Usage, t: string, id: int): Usage {
    Put(u, t, Add(Lookup(u, t), id))
  }

  lemma RecordLookup(u: Usage, t: string, id: int, t': string)
    requires DistinctKeys(u)
    ensures DistinctKeys(Record(u, t, id))
    ensures KeysOf(Record(u, t, id)) == if t in KeysOf(u) then KeysOf(u) else KeysOf(u) + [t]
    ensures Lookup(Record(u, t, id), t') == if t' == t then Add(Lookup(u, t), id) else Lookup(u, t')
  {
    PutValue(u, t, Add(Lookup(u, t), id), t');
  }

  /** The distinct elements of `xs`, in order of first occurrence. */
  function Dedup(xs: seq<int>): seq<int> {
    if xs == [] then [] else Add(Dedup(xs[..|xs| - 1]), xs[|xs| - 1])
  }

  lemma {:induction false} DedupMeaning(xs: seq<int>)
    ensures NoDuplicates(Dedup(xs))
    ensures forall x :: x in Dedup(xs) <==> x in xs
  {
    if xs != [] {
      var init := xs[..|xs| - 1];
      DedupMeaning(init);
      assert xs == init + [xs[|xs| - 1]];
    }
  }

  /** One term found in one section. */
  datatype Mention = Mention(sectionId: int, term: string)

  function Terms(ms: seq<Mention>): (r: seq<string>)
    ensures |r| == |ms| && forall k | 0 <= k < |ms| :: r[k] == ms[k].term
  {
    seq(|ms|, k requires 0 <= k < |ms| => ms[k].term)
  }

  /** The section ids of the mentions of `t`, in order. */
  function SectionsOf(ms: seq<Mention>, t: string): seq<int> {
    if ms == [] then []
    else SectionsOf(ms[..|ms| - 1], t) + (if ms[|ms| - 1].term == t then [ms[|ms| - 1].sectionId] else [])
  }

  // ---------------------------------------------------------------------
  // Undefined abbreviations

  /** Python's `str.isupper` on the ASCII letters: some upper-case letter
      and no lower-case one. */
  predicate IsUpperCased(s: string) {
    (exists k | 0 <= k < |s| :: 'A' <= s[k] <= 'Z') && forall k | 0 <= k < |s| :: !('a' <= s[k] <= 'z')
  }

  /** A term is reported when no known term equals it ignoring case, it is
      an upper-case word of two or more characters, and no known term is
      its full form. Only membership in `known` matters. */
  predicate Undefined(known: seq<string>, term: string) {
    && !(exists x | x in known :: AsciiLower(x) == AsciiLower(term))
    && IsUpperCased(term) && |term| > 1
    && !(exists x | x in known :: IsAbbreviationOf(term, x))
  }

  function AbbreviationMessage(sectionId: int, term: string): string {
    "章节 " + IntToString(sectionId) + " 中使用了未定义的缩写: '" + term + "'"
  }

  function AbbreviationSuggestion(term: string): string {
    "首次使用时应给出全称，如 'XXX (" + term + ")'"
  }

  function AbbreviationIssue(m: Mention): (r: Issue)
    ensures r.code == "UNDEFINED_ABBREVIATION" && r.severity == High
    ensures r.originalSnippet == m.term && r.sectionId == 0
  {
    Issue("UNDEFINED_ABBREVIATION", AbbreviationMessage(m.sectionId, m.term), m.term,
          AbbreviationSuggestion(m.term), High, 0)
  }

  datatype TermState = TermState(usage: Usage, issues: seq<Issue>)

  /** One mention: the check against the known terms, then the record. */
  function TermStep(st: TermState, m: Mention): TermState {
    var report := if Undefined(KeysOf(st.usage), m.term) then [AbbreviationIssue(m)] else [];
    TermState(Record(st.usage, m.term, m.sectionId), st.issues + report)
  }

  function TermScan(st: TermState, ms: seq<Mention>): TermState {
    if ms == [] then st else TermStep(TermScan(st, ms[..|ms| - 1]), ms[|ms| - 1])
  }

  /** Starting from no terms: the keys are the distinct terms in order of
      first mention, and the sections of each term are the distinct
      sections that mention it, in order of first mention, never
      repeated. */
  lemma {:induction false} TermScanUsage(ms: seq<Mention>)
    ensures DistinctKeys(TermScan(TermState([], []), ms).usage)
    ensures forall x :: x in KeysOf(TermScan(TermState([], []), ms).usage) <==> x in Terms(ms)
    ensures forall t :: Lookup(TermScan(TermState([], []), ms).usage, t) == Dedup(SectionsOf(ms, t))
  {
    if ms != [] {
      var init := ms[..|ms| - 1];
      var m := ms[|ms| - 1];
      TermScanUsage(init);
      var u := TermScan(TermState([], []), init).usage;
      assert Terms(ms) == Terms(init) + [m.term];
      forall t ensures Lookup(Record(u, m.term, m.sectionId), t) == Dedup(SectionsOf(ms, t)) {
        RecordLookup(u, m.term, m.sectionId, t);
        if m.term == t {
          assert SectionsOf(ms, t) == SectionsOf(init, t) + [m.sectionId];
          assert SectionsOf(ms, t)[..|SectionsOf(ms, t)| - 1] == SectionsOf(init, t);
        } else {
          assert SectionsOf(ms, t) == SectionsOf(init, t);
        }
      }
      RecordLookup(u, m.term, m.sectionId, m.term);
    }
  }

  /** A term's sections never repeat. */
  lemma TermSectionsDistinct(ms: seq<Mention>, t: string)
    ensures NoDuplicates(Lookup(TermScan(TermState([], []), ms).usage, t))
    ensures forall id :: id in Lookup(TermScan(TermState([], []), ms).usage, t) <==> Mention(id, t) in ms
  {
    TermScanUsage(ms);
    DedupMeaning(SectionsOf(ms, t));
    SectionsOfMembers(ms, t);
  }

  lemma {:induction false} SectionsOfMembers(ms: seq<Mention>, t: string)
    ensures forall id :: id in SectionsOf(ms, t) <==> Mention(id, t) in ms
  {
    if ms != [] {
      var init := ms[..|ms| - 1];
      SectionsOfMembers(init, t);
      assert ms == init + [ms[|ms| - 1]];
    }
  }

  /** Mention `i` is reported exactly when no earlier mention has its term
      ignoring case or is its full form, and it is an upper-case word of
      two or more characters. */
  predicate Reported(ms: seq<Mention>, i: nat)
    requires i < |ms|
  {
    Undefined(Terms(ms[..i]), ms[i].term)
  }

  function ReportedAt(ms: seq<Mention>): nat -> bool {
    (i: nat) => i < |ms| && Reported(ms, i)
  }

  function IssueAt(ms: seq<Mention>): nat -> Issue {
    (i: nat) => if i < |ms| then AbbreviationIssue(ms[i]) else AbbreviationIssue(Mention(0, ""))
  }

  /** A list built by appending the chosen items one index at a time holds
      exactly the items of the chosen indices; choices that agree below
      `n` describe the same list. */
  lemma ChosenStep<A>(before: seq<A>, after: seq<A>, n: nat,
                      chosen0: nat -> bool, mk0: nat -> A, chosen: nat -> bool, mk: nat -> A)
    requires forall x | x in before :: exists i | 0 <= i < n :: chosen0(i) && x == mk0(i)
    requires forall i | 0 <= i < n && chosen0(i) :: mk0(i) in before
    requires forall i | 0 <= i < n :: chosen0(i) == chosen(i) && mk0(i) == mk(i)
    requires after == before + (if chosen(n) then [mk(n)] else [])
    ensures forall x | x in after :: exists i | 0 <= i < n + 1 :: chosen(i) && x == mk(i)
    ensures forall i | 0 <= i < n + 1 && chosen(i) :: mk(i) in after
  {
    forall x | x in after ensures exists i | 0 <= i < n + 1 :: chosen(i) && x == mk(i) {
      if x in before {
        var i :| 0 <= i < n && chosen0(i) && x == mk0(i);
        assert chosen(i) && x == mk(i);
      } else {
        assert chosen(n) && x == mk(n);
      }
    }
  }

  /** Only the members of the known terms matter. */
  lemma UndefinedMembers(a: seq<string>, b: seq<string>, term: string)
    requires forall x :: x in a <==> x in b
    ensures Undefined(a, term) == Undefined(b, term)
  {
  }

  /** The issues of one more mention: those before it, then its own when
      it is reported. */
  lemma TermScanIssuesStep(ms: seq<Mention>)
    requires ms != []
    ensures TermScan(TermState([], []), ms).issues ==
      TermScan(TermState([], []), ms[..|ms| - 1]).issues
      + (if Reported(ms, |ms| - 1) then [AbbreviationIssue(ms[|ms| - 1])] else [])
  {
    var init := ms[..|ms| - 1];
    TermScanUsage(init);
    UndefinedMembers(KeysOf(TermScan(TermState([], []), init).usage), Terms(init), ms[|ms| - 1].term);
  }

  /** A later mention does not change whether an earlier one is
      reported. */
  lemma ReportedAtPrefix(ms: seq<Mention>)
    requires ms != []
    ensures forall i | 0 <= i < |ms| - 1 ::
              ReportedAt(ms)(i) == ReportedAt(ms[..|ms| - 1])(i) && IssueAt(ms)(i) == IssueAt(ms[..|ms| - 1])(i)
    ensures ReportedAt(ms)(|ms| - 1) == Reported(ms, |ms| - 1)
    ensures IssueAt(ms)(|ms| - 1) == AbbreviationIssue(ms[|ms| - 1])
  {
    var init := ms[..|ms| - 1];
    forall i | 0 <= i < |init|
      ensures ReportedAt(ms)(i) == ReportedAt(init)(i) && IssueAt(ms)(i) == IssueAt(init)(i)
    {
      assert ms[..i] == init[..i];
    }
  }

  /** Starting from no terms, the issues are those of the reported
      mentions: each issue belongs to a reported mention, and each
      reported mention has its issue. */
  lemma {:induction false} TermScanIssues(ms: seq<Mention>)
    ensures forall x | x in TermScan(TermState([], []), ms).issues ::
              exists i | 0 <= i < |ms| :: ReportedAt(ms)(i) && x == IssueAt(ms)(i)
    ensures forall i | 0 <= i < |ms| && ReportedAt(ms)(i) :: IssueAt(ms)(i) in TermScan(TermState([], []), ms).issues
  {
    if ms != [] {
      var init := ms[..|ms| - 1];
      var before := TermScan(TermState([], []), init).issues;
      var after := TermScan(TermState([], []), ms).issues;
      TermScanIssues(init);
      TermScanIssuesStep(ms);
      ReportedAtPrefix(ms);
      ChosenStep(before, after, |init|, ReportedAt(init), IssueAt(init), ReportedAt(ms), IssueAt(ms));
    }
  }

  /** The issues found so far are kept, and new ones appended after them. */
  lemma {:induction false} TermScanFrom(u: Usage, issues: seq<Issue>, ms: seq<Mention>)
    ensures TermScan(TermState(u, issues), ms) ==
      TermState(TermScan(TermState(u, []), ms).usage, issues + TermScan(TermState(u, []), ms).issues)
  {
    if ms != [] {
      TermScanFrom(u, issues, ms[..|ms| - 1]);
    }
  }

  /** Scanning two runs of mentions is scanning the second from where the
      first left off. */
  lemma {:induction false} TermScanAppend(st: TermState, a: seq<Mention>, b: seq<Mention>)
    ensures TermScan(st, a + b) == TermScan(TermScan(st, a), b)
    decreases |b|
  {
    if b == [] {
      assert a + b == a;
    } else {
      assert (a + b)[..|a + b| - 1] == a + b[..|b| - 1];
      TermScanAppend(st, a, b[..|b| - 1]);
    }
  }

  /** A term seen again, in any case, is never reported again: an
      abbreviation is reported at most once. */
  lemma LaterVariantNotReported(ms: seq<Mention>, i: nat, j: nat)
    requires i < j < |ms| && AsciiLower(ms[i].term) == AsciiLower(ms[j].term)
    ensures !Reported(ms, j)
  {
    assert Terms(ms[..j])[i] == ms[i].term;
  }

  // ---------------------------------------------------------------------
  // Term variations

  /** `_find_term_variations`: its loop over the texts does nothing, and
      the list it returns is always empty. */
  function TermVariations(term: string, texts: seq<(int, string)>): seq<string> {
    []
  }

  function InconsistencyIssue(term: string, variation: string): (r: Issue)
    ensures r.code == "TERM_INCONSISTENCY" && r.severity == Medium && r.originalSnippet == variation
  {
    Issue("TERM_INCONSISTENCY", "术语 '" + term + "' 存在不一致的表达方式: '" + variation + "'", variation,
          "统一使用术语 '" + term + "'", Medium, 0)
  }

  /** One TERM_INCONSISTENCY issue per variation. */
  function InconsistencyIssues(term: string, variations: seq<string>): (r: seq<Issue>)
    ensures |r| == |variations|
    ensures forall k | 0 <= k < |r| :: r[k].code == "TERM_INCONSISTENCY" && r[k].originalSnippet == variations[k]
  {
    seq(|variations|, k requires 0 <= k < |variations| => InconsistencyIssue(term, variations[k]))
  }

  /** The issues for one dictionary entry: those of the variations of a
      term used in more than one section. */
  function VariationsOf(texts: seq<(int, string)>): ((string, seq<int>)) -> seq<Issue> {
    (e: (string, seq<int>)) =>
      if |e.1| > 1 then InconsistencyIssues(e.0, TermVariations(e.0, texts)) else []
  }

  function VariationIssues(u: Usage, texts: seq<(int, string)>): seq<Issue> {
    ConcatMap(u, VariationsOf(texts))
  }

  /** The second pass of the term check never reports anything: there is
      no TERM_INCONSISTENCY issue. */
  lemma {:induction false} NoTermInconsistency(u: Usage, texts: seq<(int, string)>)
    ensures VariationIssues(u, texts) == []
    decreases |u|
  {
    if u != [] {
      NoTermInconsistency(u[..|u| - 1], texts);
      var e := u[|u| - 1];
      assert VariationsOf(texts)(e) == if |e.1| > 1 then InconsistencyIssues(e.0, TermVariations(e.0, texts)) else [];
    }
  }

  // ---------------------------------------------------------------------
  // The check

  /** `section.get('section_id', 0)`. */
  function IdOf(s: SectionRecord): int {
    s.sectionId.GetOr(0)
  }

  function HasId(id: int): SectionRecord -> bool {
    (s: SectionRecord) => IdOf(s) == id
  }

  /** `section_texts[sec_id] = sec_text` over all sections. */
  function SectionTexts(sections: seq<SectionRecord>): seq<(int, string)> {
    if sections == [] then []
    else
      var last := sections[|sections| - 1];
      Put(SectionTexts(sections[..|sections| - 1]), IdOf(last), last.text)
  }

  /** One entry per section id, holding the text of the last section with
      that id. */
  lemma {:induction false} SectionTextsMeaning(sections: seq<SectionRecord>, id: int)
    ensures DistinctKeys(SectionTexts(sections))
    ensures Value(SectionTexts(sections), id) ==
      match LastWhere(sections, HasId(id))
      case Some(j) => Some(sections[j].text)
      case None => None
  {
    if sections != [] {
      var init := sections[..|sections| - 1];
      var last := sections[|sections| - 1];
      SectionTextsMeaning(init, id);
      PutValue(SectionTexts(init), IdOf(last), last.text, id);
      assert HasId(id)(last) == (IdOf(last) == id);
    }
  }

  /** The terms found in one text, each with its section. */
  function MentionsIn(id: int, found: seq<string>): (r: seq<Mention>)
    ensures |r| == |found| && forall k | 0 <= k < |found| :: r[k] == Mention(id, found[k])
  {
    seq(|found|, k requires 0 <= k < |found| => Mention(id, found[k]))
  }

  function MentionsOf(termsOf: string -> seq<string>): ((int, string)) -> seq<Mention> {
    (e: (int, string)) => MentionsIn(e.0, termsOf(e.1))
  }

  /** The terms of every section text, in dictionary order; `termsOf`
      stands for the three patterns' matches in one text, in order. */
  function Mentions(texts: seq<(int, string)>, termsOf: string -> seq<string>): seq<Mention> {
    ConcatMap(texts, MentionsOf(termsOf))
  }

  datatype ConsistencyResult = ConsistencyResult(issues: seq<Issue>, termUsage: Usage, alignmentScore: real)

  /** What `check_consistency` returns, whatever the checker held before. */
  function Consistency(sections: seq<SectionRecord>, termsOf: string -> seq<string>, modelAvailable: bool,
                       ask: (string, string) -> AlignmentAnswer,
                       listing: set<string> -> seq<string>): ConsistencyResult
  {
    var kp := KeyPassages(sections, ("", ""));
    var texts := SectionTexts(sections);
    var st := TermScan(TermState([], []), Mentions(texts, termsOf));
    ConsistencyResult(st.issues + VariationIssues(st.usage, texts)
                        + AlignmentIssues(kp.0, kp.1, modelAvailable, ask, listing),
                      st.usage, AlignmentScore(kp.0, kp.1))
  }

  /** Every issue of the term scan is an undefined abbreviation of HIGH
      severity. */
  lemma {:induction false} TermScanCodes(st: TermState, ms: seq<Mention>)
    requires forall k | 0 <= k < |st.issues| :: st.issues[k].code == "UNDEFINED_ABBREVIATION" && st.issues[k].severity == High
    ensures forall k | 0 <= k < |TermScan(st, ms).issues| ::
      TermScan(st, ms).issues[k].code == "UNDEFINED_ABBREVIATION" && TermScan(st, ms).issues[k].severity == High
  {
    if ms != [] {
      var prev := TermScan(st, ms[..|ms| - 1]);
      var m := ms[|ms| - 1];
      TermScanCodes(st, ms[..|ms| - 1]);
      var report := if Undefined(KeysOf(prev.usage), m.term) then [AbbreviationIssue(m)] else [];
      var r := TermScan(st, ms).issues;
      assert r == prev.issues + report;
      forall k | 0 <= k < |r| ensures r[k].code == "UNDEFINED_ABBREVIATION" && r[k].severity == High {
        if k >= |prev.issues| {
          assert r[k] == AbbreviationIssue(m);
        } else {
          assert r[k] == prev.issues[k];
        }
      }
    }
  }

  /** The issues are the undefined abbreviations, in the order their
      mentions were met, followed by the alignment issues; no term
      inconsistency is reported. */
  lemma ConsistencyMeaning(sections: seq<SectionRecord>, termsOf: string -> seq<string>, modelAvailable: bool,
                           ask: (string, string) -> AlignmentAnswer,
                           listing: set<string> -> seq<string>)
    ensures var st := TermScan(TermState([], []), Mentions(SectionTexts(sections), termsOf));
      var kp := KeyPassages(sections, ("", ""));
      && Consistency(sections, termsOf, modelAvailable, ask, listing).issues ==
           st.issues + AlignmentIssues(kp.0, kp.1, modelAvailable, ask, listing)
      && (forall k | 0 <= k < |st.issues| :: st.issues[k].code == "UNDEFINED_ABBREVIATION")
  {
    var texts := SectionTexts(sections);
    var st := TermScan(TermState([], []), Mentions(texts, termsOf));
    NoTermInconsistency(st.usage, texts);
    assert st.issues + VariationIssues(st.usage, texts) == st.issues;
    TermScanCodes(TermState([], []), Mentions(texts, termsOf));
  }

  /** The checker object: the term dictionary and the two texts it keeps
      between calls. */
  class Checker {
    var terms: Usage
    var summarySection: string
    var conclusionSection: string

    /** `__init__`: no terms and empty texts (the key and the SDK set-up
        are outside the model). */
    constructor ()
      ensures terms == [] && summarySection == "" && conclusionSection == ""
    {
      terms := [];
      summarySection := "";
      conclusionSection := "";
    }

    /** One found term in `_check_term_consistency`: the check against the
        known terms, the full-form search with its early exit, then the
        record of the section. */
    method RecordMention(m: Mention) returns (report: seq<Issue>)
      modifies this
      ensures terms == Record(old(terms), m.term, m.sectionId)
      ensures report == if Undefined(KeysOf(old(terms)), m.term) then [AbbreviationIssue(m)] else []
      ensures summarySection == old(summarySection) && conclusionSection == old(conclusionSection)
    {
      report := [];
      var keys := KeysOf(terms);
      if !(exists x | x in keys :: AsciiLower(x) == AsciiLower(m.term)) {
        if IsUpperCased(m.term) && |m.term| > 1 {
          var fullFormFound := false;
          var i := 0;
          while i < |keys|
            invariant 0 <= i <= |keys|
            invariant !fullFormFound
            invariant forall k | 0 <= k < i :: !IsAbbreviationOf(m.term, keys[k])
          {
            if IsAbbreviationOf(m.term, keys[i]) {
              fullFormFound := true;
              break;
            }
            i := i + 1;
          }
          if !fullFormFound {
            report := [AbbreviationIssue(m)];
          }
        }
      }
      terms := Record(terms, m.term, m.sectionId);
    }

    /** The found terms of one section text, in order. */
    method ScanFound(secId: int, found: seq<string>) returns (issues: seq<Issue>)
      modifies this
      ensures var st := TermScan(TermState(old(terms), []), MentionsIn(secId, found));
        terms == st.usage && issues == st.issues
      ensures summarySection == old(summarySection) && conclusionSection == old(conclusionSection)
    {
      issues := [];
      ghost var start := TermState(terms, []);
      var j := 0;
      while j < |found|
        invariant 0 <= j <= |found|
        invariant TermState(terms, issues) == TermScan(start, MentionsIn(secId, found[..j]))
        invariant summarySection == old(summarySection) && conclusionSection == old(conclusionSection)
      {
        var m := Mention(secId, found[j]);
        var report := RecordMention(m);
        issues := issues + report;
        assert MentionsIn(secId, found[..j + 1]) == MentionsIn(secId, found[..j]) + [m];
        assert MentionsIn(secId, found[..j + 1])[..j] == MentionsIn(secId, found[..j]);
        j := j + 1;
      }
      assert found[..j] == found;
    }

    /** The second loop of `_check_term_consistency`, over the dictionary. */
    method VariationPass(texts: seq<(int, string)>) returns (issues: seq<Issue>)
      ensures issues == VariationIssues(terms, texts)
    {
      issues := [];
      var k := 0;
      while k < |terms|
        invariant 0 <= k <= |terms|
        invariant issues == VariationIssues(terms[..k], texts)
      {
        var (term, used) := terms[k];
        assert terms[..k + 1] == terms[..k] + [terms[k]];
        ConcatMapSnoc(terms[..k], terms[k], VariationsOf(texts));
        if |used| > 1 {
          var variations := TermVariations(term, texts);
          issues := issues + InconsistencyIssues(term, variations);
        }
        k := k + 1;
      }
      assert terms[..k] == terms;
    }

    /** `_check_term_consistency`: every found term of every section text
        in order, then the variation pass over the dictionary. */
    method CheckTermConsistency(texts: seq<(int, string)>, termsOf: string -> seq<string>) returns (issues: seq<Issue>)
      modifies this
      ensures var st := TermScan(TermState(old(terms), []), Mentions(texts, termsOf));
        terms == st.usage && issues == st.issues + VariationIssues(st.usage, texts)
      ensures summarySection == old(summarySection) && conclusionSection == old(conclusionSection)
    {
      issues := [];
      ghost var start := TermState(terms, []);
      var i := 0;
      while i < |texts|
        invariant 0 <= i <= |texts|
        invariant TermState(terms, issues) == TermScan(start, Mentions(texts[..i], termsOf))
        invariant summarySection == old(summarySection) && conclusionSection == old(conclusionSection)
      {
        var (secId, text) := texts[i];
        var found := termsOf(text);
        ghost var before := TermState(terms, issues);
        var more := ScanFound(secId, found);
        TermScanFrom(before.usage, before.issues, MentionsIn(secId, found));
        TermScanAppend(start, Mentions(texts[..i], termsOf), MentionsIn(secId, found));
        issues := issues + more;
        assert texts[..i + 1] == texts[..i] + [texts[i]];
        ConcatMapSnoc(texts[..i], texts[i], MentionsOf(termsOf));
        assert MentionsOf(termsOf)(texts[i]) == MentionsIn(secId, found);
        i := i + 1;
      }
      assert texts[..i] == texts;
      var more := VariationPass(texts);
      issues := issues + more;
    }

    /** `check_consistency`: the fields reset, one pass over the sections
        for the dictionary of texts and the two key passages, the term
        check, the alignment check, the score. */
    method CheckConsistency(sections: seq<SectionRecord>, termsOf: string -> seq<string>, modelAvailable: bool,
                            ask: (string, string) -> AlignmentAnswer,
                            listing: set<string> -> seq<string>) returns (r: ConsistencyResult)
      modifies this
      ensures (summarySection, conclusionSection) == KeyPassages(sections, ("", ""))
      ensures terms == TermScan(TermState([], []), Mentions(SectionTexts(sections), termsOf)).usage
      ensures r == Consistency(sections, termsOf, modelAvailable, ask, listing)
    {
      terms := [];
      summarySection := "";
      conclusionSection := "";
      var texts: seq<(int, string)> := [];
      var i := 0;
      while i < |sections|
        invariant 0 <= i <= |sections|
        invariant texts == SectionTexts(sections[..i])
        invariant (summarySection, conclusionSection) == KeyPassages(sections[..i], ("", ""))
        invariant terms == []
      {
        var s := sections[i];
        assert sections[..i + 1][..i] == sections[..i];
        texts := Put(texts, IdOf(s), s.text);
        if IsSummaryKind(s.kind) {
          summarySection := s.text;
        } else if IsConclusionKind(s.kind) {
          conclusionSection := s.text;
        }
        i := i + 1;
      }
      assert sections[..i] == sections;
      var issues := CheckTermConsistency(texts, termsOf);
      var alignment := AlignmentIssues(summarySection, conclusionSection, modelAvailable, ask, listing);
      var score := AlignmentScore(summarySection, conclusionSection);
      r := ConsistencyResult(issues + alignment, terms, score);
    }
  }
}
