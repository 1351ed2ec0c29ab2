/** The sliding-window processor of the inference service
    (`sliding_window_processor.py`): a three-node state graph that runs the
    semantic detector over the sections a window at a time, counts the
    windows and records the summary and conclusion texts, looping back
    while sections remain. The graph engine itself is outside the model:
    each node's update replaces the state keys it names (the engine's
    default for keys declared without a reducer), and a round that makes no
    progress stands for the engine's step limit, which such a run reaches.
    The limit a long run of advancing rounds also reaches is not modelled.
    The detector is a parameter. */
module SlidingWindow {
  import opened Wrappers
  import opened Seqs
  import opened InferenceTypes

  /** The term record `global_terms`: term and the section ids using it. */
  type Terms = seq<(string, seq<int>)>

  /** `GraphState`. */
  datatype GraphState = GraphState(
    sections: seq<SectionRecord>,
    currentIndex: int,
    totalSections: int,
    detectedIssues: seq<Issue>,
    globalTerms: Terms,
    windowSize: int,
    processedWindows: int,
    summarySection: string,
    conclusionSection: string)

  /** How the engine merges a node's `detected_issues` into the state:
      `LastValue` replaces it, which is what a key declared without a
      reducer gets; `Concatenate` appends to it. */
  datatype Reducer = LastValue | Concatenate

  function Min(a: int, b: int): int {
    if a < b then a else b
  }

  /** Python's `s[a:b]`: negative bounds count from the end, and bounds
      out of range are clamped. */
  function PySlice<T>(s: seq<T>, a: int, b: int): (r: seq<T>)
    ensures 0 <= a <= b <= |s| ==> r == s[a..b]
  {
    var n := |s|;
    var lo := if a < 0 then (if a + n < 0 then 0 else a + n) else (if a > n then n else a);
    var hi := if b < 0 then (if b + n < 0 then 0 else b + n) else (if b > n then n else b);
    if lo >= hi then [] else s[lo..hi]
  }

  /** The initial state `process_document` hands to the graph. */
  function InitialState(sections: seq<SectionRecord>, windowSize: int): (r: GraphState)
    ensures r.totalSections == |sections| && r.sections == sections
  {
    GraphState(sections, 0, |sections|, [], [], windowSize, 0, "", "")
  }

  // ---------------------------------------------------------------------
  // The nodes

  /** The detector's issues for one section, each given the section's id,
      or `dflt` when the section has none. */
  function SectionIssues(detect: string -> seq<Issue>, dflt: int): SectionRecord -> seq<Issue> {
    (s: SectionRecord) =>
      var found := detect(s.text);
      seq(|found|, k requires 0 <= k < |found| => found[k].(sectionId := s.sectionId.GetOr(dflt)))
  }

  function IssuesOf(sections: seq<SectionRecord>, dflt: int, detect: string -> seq<Issue>): seq<Issue> {
    ConcatMap(sections, SectionIssues(detect, dflt))
  }

  datatype WindowUpdate = WindowUpdate(issues: seq<Issue>, currentIndex: int)

  /** `_process_window`: the sections from the current index up to the
      window's end, and that end as the new index. */
  function ProcessWindow(st: GraphState, detect: string -> seq<Issue>): WindowUpdate {
    var start := st.currentIndex;
    var end := Min(start + st.windowSize, st.totalSections);
    WindowUpdate(IssuesOf(PySlice(st.sections, start, end), start, detect), end)
  }

  /** Within the sections, a window moves the index forward by at most the
      window size and never past the end, and reports the issues of that
      window's sections only; every issue carries the id of one of them,
      or the window's start for a section without an id. */
  lemma ProcessWindowMeaning(st: GraphState, detect: string -> seq<Issue>)
    requires st.totalSections == |st.sections| && 0 <= st.currentIndex <= st.totalSections
    requires st.windowSize >= 0
    ensures st.currentIndex <= ProcessWindow(st, detect).currentIndex <= st.totalSections
    ensures ProcessWindow(st, detect).currentIndex <= st.currentIndex + st.windowSize
    ensures ProcessWindow(st, detect).currentIndex < st.totalSections ==>
              ProcessWindow(st, detect).currentIndex == st.currentIndex + st.windowSize
    ensures ProcessWindow(st, detect).issues ==
              IssuesOf(st.sections[st.currentIndex..ProcessWindow(st, detect).currentIndex], st.currentIndex, detect)
    ensures forall i | i in ProcessWindow(st, detect).issues ::
              exists k | st.currentIndex <= k < ProcessWindow(st, detect).currentIndex ::
                i.sectionId == st.sections[k].sectionId.GetOr(st.currentIndex)
  {
    var start := st.currentIndex;
    var end := ProcessWindow(st, detect).currentIndex;
    var window := st.sections[start..end];
    var f := SectionIssues(detect, start);
    ConcatMapMembers(window, f);
    forall i | i in ProcessWindow(st, detect).issues
      ensures exists k | start <= k < end :: i.sectionId == st.sections[k].sectionId.GetOr(start)
    {
      var j :| 0 <= j < |window| && i in f(window[j]);
      assert window[j] == st.sections[start + j];
    }
  }

  datatype GlobalUpdate = GlobalUpdate(globalTerms: Terms, processedWindows: int)

  /** `_update_global_state`: the terms as they are, one more window. */
  function UpdateGlobalState(st: GraphState): GlobalUpdate {
    GlobalUpdate(st.globalTerms, st.processedWindows + 1)
  }

  /** `_check_consistency`: a scan of every section (not only the window)
      from the texts already recorded. */
  function CheckConsistency(st: GraphState): (string, string) {
    KeyPassages(st.sections, (st.summarySection, st.conclusionSection))
  }

  /** `_continue_condition`: loop back while the index is before the end. */
  predicate Continues(st: GraphState) {
    st.currentIndex < st.totalSections
  }

  /** One round of the graph: the three nodes in edge order, each update
      merged into the state before the next node reads it. */
  function Step(st: GraphState, detect: string -> seq<Issue>, reducer: Reducer): GraphState {
    var w := ProcessWindow(st, detect);
    var issues := if reducer == LastValue then w.issues else st.detectedIssues + w.issues;
    var s1 := st.(detectedIssues := issues, currentIndex := w.currentIndex);
    var g := UpdateGlobalState(s1);
    var s2 := s1.(globalTerms := g.globalTerms, processedWindows := g.processedWindows);
    var c := CheckConsistency(s2);
    s2.(summarySection := c.0, conclusionSection := c.1)
  }

  const NoProgress := "the graph's step limit is reached without progress"

  /** A round made progress: the index moved forward. No node writes
      `total_sections`, so the total is the same in both states. */
  predicate Progress(st: GraphState, next: GraphState) {
    st.currentIndex < next.currentIndex && next.totalSections == st.totalSections
  }

  /** One round as a state transformer. */
  function RoundOf(detect: string -> seq<Issue>, reducer: Reducer): GraphState -> GraphState {
    (s: GraphState) => Step(s, detect, reducer)
  }

  /** The engine's loop over any round: rounds until the condition says
      "end", or an error when a round leaves the index where it was or
      moves it back (the run then goes on until the engine's step limit
      stops it). */
  function Rounds(st: GraphState, round: GraphState -> GraphState): Result<GraphState>
    decreases st.totalSections - st.currentIndex
  {
    var next := round(st);
    if !Continues(next) then Ok(next)
    else if !Progress(st, next) then Err(NoProgress)
    else Rounds(next, round)
  }

  /** The graph run from `st`. */
  function Run(st: GraphState, detect: string -> seq<Issue>, reducer: Reducer): Result<GraphState> {
    Rounds(st, RoundOf(detect, reducer))
  }

  /** `process_document`: the initial state, then rounds of the graph
      until the condition ends the run. */
  method ProcessDocument(sections: seq<SectionRecord>, windowSize: int, detect: string -> seq<Issue>, reducer: Reducer)
    returns (r: Result<GraphState>)
    ensures r == Run(InitialState(sections, windowSize), detect, reducer)
  {
    var st := InitialState(sections, windowSize);
    while true
      invariant Run(st, detect, reducer) == Run(InitialState(sections, windowSize), detect, reducer)
      invariant st.currentIndex <= st.totalSections
      decreases st.totalSections - st.currentIndex
    {
      var next := Step(st, detect, reducer);
      if !Continues(next) {
        return Ok(next);
      }
      if !Progress(st, next) {
        return Err(NoProgress);
      }
      st := next;
    }
  }

  // ---------------------------------------------------------------------
  // What a run computes

  /** The states a run goes through from a window boundary. */
  predicate Reachable(st: GraphState, sections: seq<SectionRecord>, windowSize: int) {
    st.sections == sections && st.totalSections == |sections| && st.windowSize == windowSize &&
    windowSize >= 1 && 0 <= st.currentIndex <= st.totalSections
  }

  /** Number of rounds a run takes from index `cur`: always at least one. */
  function WindowCount(cur: int, total: int, w: int): (r: nat)
    requires w >= 1 && cur <= total
    decreases total - cur
  {
    if cur + w >= total then 1 else 1 + WindowCount(cur + w, total, w)
  }

  /** The index where the last round starts. */
  function LastStart(cur: int, total: int, w: int): (r: int)
    requires w >= 1 && cur <= total
    ensures cur <= r <= total && total <= r + w
    decreases total - cur
  {
    if cur + w >= total then cur else LastStart(cur + w, total, w)
  }

  /** Rescanning the same sections does not change the recorded texts. */
  lemma KeyPassagesAgain(sections: seq<SectionRecord>, start: (string, string))
    ensures KeyPassages(sections, KeyPassages(sections, start)) == KeyPassages(sections, start)
  {
    var once := KeyPassages(sections, start);
    KeyPassagesSummary(sections, start);
    KeyPassagesSummary(sections, once);
    KeyPassagesConclusion(sections, start);
    KeyPassagesConclusion(sections, once);
  }

  /** One round from a reachable state: the next state is reachable, the
      index moves by a whole window unless it reaches the end, one more
      window is counted and the terms are kept. */
  lemma StepFacts(st: GraphState, sections: seq<SectionRecord>, windowSize: int,
                  detect: string -> seq<Issue>, reducer: Reducer)
    requires Reachable(st, sections, windowSize)
    ensures var next := Step(st, detect, reducer);
            && Reachable(next, sections, windowSize)
            && st.currentIndex <= next.currentIndex
            && (next.currentIndex == st.currentIndex ==> next.currentIndex == |sections|)
            && next.currentIndex <= st.currentIndex + windowSize
            && (next.currentIndex < |sections| ==> next.currentIndex == st.currentIndex + windowSize)
            && (!Continues(next) <==> next.currentIndex == |sections|)
            && next.processedWindows == st.processedWindows + 1
            && next.globalTerms == st.globalTerms
  {
    ProcessWindowMeaning(st, detect);
  }

  /** One round's issues: those of the window, replacing or appended to
      the earlier ones. */
  lemma StepIssues(st: GraphState, sections: seq<SectionRecord>, windowSize: int,
                   detect: string -> seq<Issue>, reducer: Reducer)
    requires Reachable(st, sections, windowSize)
    ensures var next := Step(st, detect, reducer);
            var window := IssuesOf(sections[st.currentIndex..next.currentIndex], st.currentIndex, detect);
            next.detectedIssues == (if reducer == LastValue then window else st.detectedIssues + window)
  {
    ProcessWindowMeaning(st, detect);
  }

  /** One round rescans all sections for the two texts. */
  lemma StepPassages(st: GraphState, detect: string -> seq<Issue>, reducer: Reducer)
    ensures Step(st, detect, reducer).summarySection ==
              KeyPassages(st.sections, (st.summarySection, st.conclusionSection)).0
    ensures Step(st, detect, reducer).conclusionSection ==
              KeyPassages(st.sections, (st.summarySection, st.conclusionSection)).1
  {
  }

  /** What every round does to the index, the window count and the terms. */
  predicate Advances(st: GraphState, next: GraphState, sections: seq<SectionRecord>, windowSize: int) {
    && Reachable(next, sections, windowSize)
    && st.currentIndex <= next.currentIndex
    && (next.currentIndex == st.currentIndex ==> next.currentIndex == |sections|)
    && next.currentIndex <= st.currentIndex + windowSize
    && (next.currentIndex < |sections| ==> next.currentIndex == st.currentIndex + windowSize)
    && next.processedWindows == st.processedWindows + 1
    && next.globalTerms == st.globalTerms
  }

  /** The graph's round advances from every reachable state. */
  lemma RoundAdvances(sections: seq<SectionRecord>, windowSize: int, detect: string -> seq<Issue>, reducer: Reducer)
    ensures forall s {:trigger RoundOf(detect, reducer)(s)} | Reachable(s, sections, windowSize) ::
              Advances(s, RoundOf(detect, reducer)(s), sections, windowSize)
  {
    forall s {:trigger RoundOf(detect, reducer)(s)} | Reachable(s, sections, windowSize)
      ensures Advances(s, RoundOf(detect, reducer)(s), sections, windowSize)
    {
      StepFacts(s, sections, windowSize, detect, reducer);
    }
  }

  /** A run is one round followed, while the condition says so, by the
      run from the next state. */
  lemma RoundsStep(st: GraphState, round: GraphState -> GraphState, sections: seq<SectionRecord>, windowSize: int)
    requires Reachable(st, sections, windowSize) && Advances(st, round(st), sections, windowSize)
    ensures Rounds(st, round) == if Continues(round(st)) then Rounds(round(st), round) else Ok(round(st))
  {
  }

  /** With advancing rounds the run ends normally: the index reaches the
      end, the window count is the number of rounds, and the terms are
      never changed. */
  lemma {:induction false} RoundsShape(st: GraphState, round: GraphState -> GraphState,
                                        sections: seq<SectionRecord>, windowSize: int)
    requires Reachable(st, sections, windowSize)
    requires forall s {:trigger round(s)} | Reachable(s, sections, windowSize) :: Advances(s, round(s), sections, windowSize)
    ensures Rounds(st, round).Ok?
    ensures Reachable(Rounds(st, round).value, sections, windowSize)
    ensures Rounds(st, round).value.currentIndex == |sections|
    ensures Rounds(st, round).value.processedWindows ==
              st.processedWindows + WindowCount(st.currentIndex, |sections|, windowSize)
    ensures Rounds(st, round).value.globalTerms == st.globalTerms
    decreases |sections| - st.currentIndex
  {
    var next := round(st);
    RoundsStep(st, round, sections, windowSize);
    if Continues(next) {
      RoundsShape(next, round, sections, windowSize);
      assert Rounds(st, round) == Rounds(next, round);
      assert WindowCount(st.currentIndex, |sections|, windowSize) ==
               1 + WindowCount(next.currentIndex, |sections|, windowSize);
    }
  }

  /** With rounds that rescan all sections for the two texts, the run ends
      with the texts of the last summary section and of the last
      conclusion section. */
  lemma {:induction false} RoundsPassages(st: GraphState, round: GraphState -> GraphState,
                                           sections: seq<SectionRecord>, windowSize: int)
    requires Reachable(st, sections, windowSize)
    requires forall s {:trigger round(s)} | Reachable(s, sections, windowSize) :: Advances(s, round(s), sections, windowSize)
    requires forall s {:trigger round(s)} | Reachable(s, sections, windowSize) ::
               (round(s).summarySection, round(s).conclusionSection) ==
               KeyPassages(sections, (s.summarySection, s.conclusionSection))
    ensures Rounds(st, round).Ok?
    ensures (Rounds(st, round).value.summarySection, Rounds(st, round).value.conclusionSection) ==
              KeyPassages(sections, (st.summarySection, st.conclusionSection))
    decreases |sections| - st.currentIndex
  {
    var next := round(st);
    RoundsStep(st, round, sections, windowSize);
    if Continues(next) {
      KeyPassagesAgain(sections, (st.summarySection, st.conclusionSection));
      RoundsPassages(next, round, sections, windowSize);
    }
  }

  /** With a window of at least one section the graph's run ends normally,
      with every section read, one count per round and the terms
      unchanged. */
  lemma RunShape(st: GraphState, sections: seq<SectionRecord>, windowSize: int,
                 detect: string -> seq<Issue>, reducer: Reducer)
    requires Reachable(st, sections, windowSize)
    ensures Run(st, detect, reducer).Ok?
    ensures Run(st, detect, reducer).value.currentIndex == |sections|
    ensures Run(st, detect, reducer).value.totalSections == |sections|
    ensures Run(st, detect, reducer).value.processedWindows ==
              st.processedWindows + WindowCount(st.currentIndex, |sections|, windowSize)
    ensures Run(st, detect, reducer).value.globalTerms == st.globalTerms
  {
    RoundAdvances(sections, windowSize, detect, reducer);
    RoundsShape(st, RoundOf(detect, reducer), sections, windowSize);
  }

  /** The graph's run ends with the texts of the last summary section and
      of the last conclusion section. */
  lemma RunPassages(st: GraphState, sections: seq<SectionRecord>, windowSize: int,
                    detect: string -> seq<Issue>, reducer: Reducer)
    requires Reachable(st, sections, windowSize)
    ensures Run(st, detect, reducer).Ok?
    ensures (Run(st, detect, reducer).value.summarySection, Run(st, detect, reducer).value.conclusionSection) ==
              KeyPassages(sections, (st.summarySection, st.conclusionSection))
  {
    var round := RoundOf(detect, reducer);
    RoundAdvances(sections, windowSize, detect, reducer);
    forall s {:trigger round(s)} | Reachable(s, sections, windowSize)
      ensures (round(s).summarySection, round(s).conclusionSection) ==
              KeyPassages(sections, (s.summarySection, s.conclusionSection))
    {
      StepPassages(s, detect, reducer);
    }
    RoundsPassages(st, round, sections, windowSize);
  }

  /** `x / w` is the `q` with `q * w <= x < (q + 1) * w`. */
  lemma DivUnique(x: int, w: int, q: int)
    requires w >= 1 && q * w <= x < q * w + w
    ensures x / w == q
  {
    assert x == (x / w) * w + x % w;
    var d := x / w - q;
    assert d * w == (x - q * w) - x % w;
    MulBound(d, w);
  }

  /** The number of rounds is the number of windows the sections fill,
      the last one possibly short, and one round for no sections. */
  lemma {:induction false} WindowCountClosed(cur: int, total: int, w: int)
    requires w >= 1 && cur <= total
    ensures WindowCount(cur, total, w) == if cur == total then 1 else (total - cur + w - 1) / w
    decreases total - cur
  {
    if cur + w >= total {
      if cur < total {
        DivUnique(total - cur + w - 1, w, 1);
      }
    } else {
      WindowCountClosed(cur + w, total, w);
      var x := total - cur - 1;
      var q := (x - w + w) / w;
      DivUnique(x, w, x / w);
      assert x == (x / w) * w + x % w;
      assert (x / w + 1) * w == (x / w) * w + w;
      DivUnique(x + w, w, x / w + 1);
    }
  }

  /** `process_document` with a window of at least one section: the run
      ends with every section read, the total equal to the number of
      sections, one round per window, no terms, the last window's issues
      only, and the texts of the last summary and the last conclusion
      section. */
  lemma ProcessDocumentMeaning(sections: seq<SectionRecord>, windowSize: int, detect: string -> seq<Issue>)
    requires windowSize >= 1
    ensures Run(InitialState(sections, windowSize), detect, LastValue).Ok?
    ensures var final := Run(InitialState(sections, windowSize), detect, LastValue).value;
            && final.totalSections == |sections| && final.currentIndex == |sections|
            && final.processedWindows == (if sections == [] then 1 else (|sections| + windowSize - 1) / windowSize)
            && final.globalTerms == []
            && final.detectedIssues ==
                 IssuesOf(sections[LastStart(0, |sections|, windowSize)..], LastStart(0, |sections|, windowSize), detect)
            && (final.summarySection, final.conclusionSection) == KeyPassages(sections, ("", ""))
  {
    var st := InitialState(sections, windowSize);
    RunShape(st, sections, windowSize, detect, LastValue);
    RunPassages(st, sections, windowSize, detect, LastValue);
    RunLastValue(st, sections, windowSize, detect);
    WindowCountClosed(0, |sections|, windowSize);
  }

  /** With rounds that replace the issues by their window's, the run ends
      with the issues of the last window only. */
  lemma {:induction false} RoundsLastValue(st: GraphState, round: GraphState -> GraphState,
                                            sections: seq<SectionRecord>, windowSize: int,
                                            detect: string -> seq<Issue>)
    requires Reachable(st, sections, windowSize)
    requires forall s {:trigger round(s)} | Reachable(s, sections, windowSize) ::
               Advances(s, round(s), sections, windowSize) &&
               round(s).detectedIssues == IssuesOf(sections[s.currentIndex..round(s).currentIndex], s.currentIndex, detect)
    ensures Rounds(st, round).Ok?
    ensures Rounds(st, round).value.detectedIssues ==
              var last := LastStart(st.currentIndex, |sections|, windowSize);
              IssuesOf(sections[last..], last, detect)
    decreases |sections| - st.currentIndex
  {
    var next := round(st);
    RoundsStep(st, round, sections, windowSize);
    if Continues(next) {
      RoundsLastValue(next, round, sections, windowSize, detect);
      assert LastStart(st.currentIndex, |sections|, windowSize) == LastStart(next.currentIndex, |sections|, windowSize);
    } else {
      assert sections[st.currentIndex..next.currentIndex] == sections[st.currentIndex..];
    }
  }

  /** As written (every round replaces the issues): the run ends with the
      issues of the last window only. */
  lemma RunLastValue(st: GraphState, sections: seq<SectionRecord>, windowSize: int, detect: string -> seq<Issue>)
    requires Reachable(st, sections, windowSize)
    ensures Run(st, detect, LastValue).Ok?
    ensures Run(st, detect, LastValue).value.detectedIssues ==
              var last := LastStart(st.currentIndex, |sections|, windowSize);
              IssuesOf(sections[last..], last, detect)
  {
    var round := RoundOf(detect, LastValue);
    forall s {:trigger round(s)} | Reachable(s, sections, windowSize)
      ensures Advances(s, round(s), sections, windowSize) &&
              round(s).detectedIssues == IssuesOf(sections[s.currentIndex..round(s).currentIndex], s.currentIndex, detect)
    {
      StepFacts(s, sections, windowSize, detect, LastValue);
      StepIssues(s, sections, windowSize, detect, LastValue);
    }
    RoundsLastValue(st, round, sections, windowSize, detect);
  }

  /** The issues of every section, in order, each stamped with the
      section's id or else with the start of the window holding it. */
  function AllIssues(sections: seq<SectionRecord>, w: int, detect: string -> seq<Issue>): seq<Issue>
    requires w >= 1
  {
    if sections == [] then []
    else
      var k := |sections| - 1;
      AllIssues(sections[..k], w, detect) + SectionIssues(detect, (k / w) * w)(sections[k])
  }

  lemma MulBound(d: int, w: int)
    requires w >= 1
    ensures d >= 1 ==> d * w >= w
    ensures d <= -1 ==> d * w <= -w
  {
    if d >= 1 {
      assert d * w == (d - 1) * w + w;
    } else if d <= -1 {
      assert d * w == (d + 1) * w - w;
    }
  }

  /** The next window boundary is again a multiple of `w`. */
  lemma NextBoundary(start: int, w: int)
    requires w >= 1 && start % w == 0
    ensures (start + w) % w == 0
  {
    var q := start / w;
    var m := start + w;
    assert start == q * w;
    assert m == (q + 1) * w;
    assert m == (m / w) * w + m % w;
    var d := m / w - (q + 1);
    assert d * w == -(m % w);
    MulBound(d, w);
  }

  /** An index in the window starting at a multiple of `w` rounds down to
      that start. */
  lemma WindowOf(k: int, start: int, w: int)
    requires w >= 1 && start >= 0 && start % w == 0 && start <= k < start + w
    ensures (k / w) * w == start
  {
    var q := start / w;
    assert start == q * w;
    var d := k / w - q;
    assert k == (k / w) * w + k % w;
    assert d * w == (k - start) - k % w;
    MulBound(d, w);
  }

  /** The issues of the sections before `end` are those before `start`
      followed by the window from `start` to `end`. */
  lemma {:induction false} AllIssuesWindow(sections: seq<SectionRecord>, w: int, detect: string -> seq<Issue>,
                                          start: int, end: int)
    requires w >= 1 && 0 <= start <= end <= |sections| && start % w == 0 && end <= start + w
    ensures AllIssues(sections[..end], w, detect) ==
              AllIssues(sections[..start], w, detect) + IssuesOf(sections[start..end], start, detect)
    decreases end
  {
    if end > start {
      var f := SectionIssues(detect, start);
      AllIssuesWindow(sections, w, detect, start, end - 1);
      WindowOf(end - 1, start, w);
      assert sections[..end][..end - 1] == sections[..end - 1];
      assert sections[start..end] == sections[start..end - 1] + [sections[end - 1]];
      ConcatMapSnoc(sections[start..end - 1], sections[end - 1], f);
    } else {
      assert sections[start..end] == [];
    }
  }

  /** With rounds that append their window's issues, the run ends with
      the issues of every section of the document. */
  lemma {:induction false} RoundsConcatenate(st: GraphState, round: GraphState -> GraphState,
                                              sections: seq<SectionRecord>, windowSize: int,
                                              detect: string -> seq<Issue>)
    requires Reachable(st, sections, windowSize) && st.currentIndex % windowSize == 0
    requires st.detectedIssues == AllIssues(sections[..st.currentIndex], windowSize, detect)
    requires forall s {:trigger round(s)} | Reachable(s, sections, windowSize) ::
               Advances(s, round(s), sections, windowSize) &&
               round(s).detectedIssues ==
               s.detectedIssues + IssuesOf(sections[s.currentIndex..round(s).currentIndex], s.currentIndex, detect)
    ensures Rounds(st, round).Ok?
    ensures Rounds(st, round).value.detectedIssues == AllIssues(sections, windowSize, detect)
    decreases |sections| - st.currentIndex
  {
    var next := round(st);
    RoundsStep(st, round, sections, windowSize);
    AllIssuesWindow(sections, windowSize, detect, st.currentIndex, next.currentIndex);
    if Continues(next) {
      NextBoundary(st.currentIndex, windowSize);
      RoundsConcatenate(next, round, sections, windowSize, detect);
    } else {
      assert sections[..next.currentIndex] == sections;
    }
  }

  /** Corrected: with issues appended round after round the graph's run
      ends with the issues of every section of the document. */
  lemma RunConcatenate(st: GraphState, sections: seq<SectionRecord>, windowSize: int, detect: string -> seq<Issue>)
    requires Reachable(st, sections, windowSize) && st.currentIndex % windowSize == 0
    requires st.detectedIssues == AllIssues(sections[..st.currentIndex], windowSize, detect)
    ensures Run(st, detect, Concatenate).Ok?
    ensures Run(st, detect, Concatenate).value.detectedIssues == AllIssues(sections, windowSize, detect)
  {
    var round := RoundOf(detect, Concatenate);
    forall s {:trigger round(s)} | Reachable(s, sections, windowSize)
      ensures Advances(s, round(s), sections, windowSize) &&
              round(s).detectedIssues ==
              s.detectedIssues + IssuesOf(sections[s.currentIndex..round(s).currentIndex], s.currentIndex, detect)
    {
      StepFacts(s, sections, windowSize, detect, Concatenate);
      StepIssues(s, sections, windowSize, detect, Concatenate);
    }
    RoundsConcatenate(st, round, sections, windowSize, detect);
  }

  /** From the start: the document's issues when rounds append them. */
  lemma ProcessConcatenate(sections: seq<SectionRecord>, windowSize: int, detect: string -> seq<Issue>)
    requires windowSize >= 1
    ensures Run(InitialState(sections, windowSize), detect, Concatenate).Ok?
    ensures Run(InitialState(sections, windowSize), detect, Concatenate).value.detectedIssues ==
              AllIssues(sections, windowSize, detect)
  {
    assert sections[..0] == [];
    RunConcatenate(InitialState(sections, windowSize), sections, windowSize, detect);
  }

  /** A window of no sections, or a negative one, with sections to read
      never moves forward: the run fails. With no sections the first
      round ends the run unless the window is negative. */
  lemma ProcessStalls(sections: seq<SectionRecord>, windowSize: int, detect: string -> seq<Issue>, reducer: Reducer)
    ensures windowSize <= 0 && sections != [] ==> Run(InitialState(sections, windowSize), detect, reducer).Err?
    ensures windowSize < 0 ==> Run(InitialState(sections, windowSize), detect, reducer).Err?
    ensures windowSize >= 0 && sections == [] ==>
              Run(InitialState(sections, windowSize), detect, reducer).Ok? &&
              Run(InitialState(sections, windowSize), detect, reducer).value.processedWindows == 1
  {
  }

  /** The two sections of the example below, and a detector that flags
      every text. */
  function TwoSections(): seq<SectionRecord> {
    [SectionRecord(Some(1), "", "x"), SectionRecord(Some(2), "", "y")]
  }

  function FlagAll(): string -> seq<Issue> {
    (t: string) => [Bare("E", t, Low)]
  }

  /** As written, a run over two one-section windows ends with the second
      section's issue alone. */
  lemma LastValueKeepsLastWindow()
    ensures Run(InitialState(TwoSections(), 1), FlagAll(), LastValue).Ok?
    ensures Run(InitialState(TwoSections(), 1), FlagAll(), LastValue).value.detectedIssues ==
              [Bare("E", "y", Low).(sectionId := 2)]
  {
    var sections := TwoSections();
    var detect := FlagAll();
    RunLastValue(InitialState(sections, 1), sections, 1, detect);
    assert LastStart(0, 2, 1) == 1;
    assert sections[1..] == [sections[1]];
    var one := SectionIssues(detect, 1)(sections[1]);
    assert detect(sections[1].text) == [Bare("E", "y", Low)];
    assert |one| == 1 && one[0] == Bare("E", "y", Low).(sectionId := 2);
    ConcatMapSnoc([], sections[1], SectionIssues(detect, 1));
  }

  /** The issue the detector reports for the first section is among the
      document's issues. */
  lemma FirstSectionIssue()
    ensures Bare("E", "x", Low).(sectionId := 1) in AllIssues(TwoSections(), 1, FlagAll())
  {
    var sections := TwoSections();
    var detect := FlagAll();
    assert sections[..1] == [sections[0]];
    assert sections[..1][..0] == [];
    var one := SectionIssues(detect, 0)(sections[0]);
    assert detect(sections[0].text) == [Bare("E", "x", Low)];
    assert |one| == 1 && one[0] == Bare("E", "x", Low).(sectionId := 1);
    assert AllIssues(sections[..1], 1, detect) == one;
  }

  /** As written, the issue of the first of two one-section windows is
      lost by the end of the run, although the detector reported it. */
  lemma LastValueLosesIssues()
    ensures Run(InitialState(TwoSections(), 1), FlagAll(), LastValue).Ok?
    ensures Bare("E", "x", Low).(sectionId := 1) !in
              Run(InitialState(TwoSections(), 1), FlagAll(), LastValue).value.detectedIssues
    ensures Bare("E", "x", Low).(sectionId := 1) in AllIssues(TwoSections(), 1, FlagAll())
  {
    LastValueKeepsLastWindow();
    FirstSectionIssue();
  }
}
