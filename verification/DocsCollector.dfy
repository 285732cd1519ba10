/** The documentation search as the program runs it: mutable buffers and accumulator, nested loops
    and an early exit (src/ai_push_hooks/modules/docs.py), proved against DocsSearch. */
module DocsCollector {

  import opened Options
  import Glob
  import opened DocsSearch
  import opened Strings
  import opened DocsFallback
  import opened DocsMeaning

  class ContextAccumulator {
    var chunks: seq<string>
    var size: nat

    ghost function State(): AccumulatorState
      reads this
    {
      AccumulatorState(chunks, size)
    }

    constructor ()
      ensures State() == START.acc
    {
      chunks, size := [], 0;
    }

    method Append(chunk: string, budget: nat) returns (ok: bool)
      modifies this
      ensures (State(), ok) == Appended(old(State()), chunk, budget)
    {
      var remaining := budget - size;
      var separatorSize := if chunks != [] then 1 else 0;
      remaining := remaining - separatorSize;
      if remaining <= 0 {
        return false;
      }
      var truncated := |chunk| > remaining;
      var taken := chunk;
      if truncated {
        if chunks != [] {
          return false;
        }
        taken := chunk[..remaining];
      }
      assert chunks == [] ==> chunks + [taken] == [taken];
      chunks := chunks + [taken];
      size := size + separatorSize + |taken|;
      return !truncated;
    }

    function Render(): string
      reads this
    {
      Join(chunks, "\n")
    }
  }

  class QueryMatchBuffer {
    const maxMatches: nat
    var matches: seq<(Key, string)>
    var seen: set<Key>
    var characters: nat
    var saturated: bool

    ghost function State(): BufferState
      reads this
    {
      BufferState(matches, seen, characters, saturated)
    }

    constructor ()
      ensures State() == EMPTY_BUFFER && maxMatches == DOC_MAX_QUERY_MATCHES
    {
      maxMatches := DOC_MAX_QUERY_MATCHES;
      matches, seen, characters, saturated := [], {}, 0, false;
    }

    method Add(key: Key, relative: string, lineNumber: nat, line: string)
      requires maxMatches == DOC_MAX_QUERY_MATCHES
      modifies this
      ensures State() == Added(old(State()), key, Snippet(relative, lineNumber, line))
    {
      if key in seen || saturated || |matches| >= maxMatches {
        return;
      }
      var chunk := Snippet(relative, lineNumber, line);
      seen := seen + {key};
      matches := matches + [(key, chunk)];
      characters := characters + |chunk|;
      saturated := |matches| >= maxMatches || characters >= DOC_CONTEXT_BUDGET;
    }
  }

  ghost predicate Distinct(buffers: seq<QueryMatchBuffer>) {
    && (forall i, j | 0 <= i < j < |buffers| :: buffers[i] != buffers[j])
    && (forall i | 0 <= i < |buffers| :: buffers[i].maxMatches == DOC_MAX_QUERY_MATCHES)
  }

  /** The buffers are in the given states. */
  ghost predicate InStates(buffers: seq<QueryMatchBuffer>, states: seq<BufferState>)
    requires |buffers| == |states|
    reads buffers
  {
    forall q | 0 <= q < |buffers| :: buffers[q].State() == states[q]
  }

  ghost predicate AllSaturated(states: seq<BufferState>) {
    forall q | 0 <= q < |states| :: states[q].saturated
  }

  /** `lines` are the lines of this document, as the chunk function sees them. */
  ghost predicate ChunksOf(f: Key -> string, document: nat, relative: string, lines: seq<string>) {
    forall i | 0 <= i < |lines| :: f((document, i)) == Snippet(relative, i + 1, lines[i])
  }

  /** The window of one hit goes into buffer n; no other buffer changes. */
  method AddWindow(buffers: seq<QueryMatchBuffer>, n: nat, document: nat, relative: string, lines: seq<string>,
                   lineIndex: nat, ghost f: Key -> string, ghost states: seq<BufferState>)
    requires n < |buffers| == |states| && Distinct(buffers) && InStates(buffers, states)
    requires lineIndex < |lines| && ChunksOf(f, document, relative, lines)
    modifies buffers[n]
    ensures InStates(buffers, states[n := AddedRange(f, states[n], document, WindowFirst(lineIndex),
                                                     WindowLast(lineIndex, |lines|))])
  {
    var buffer := buffers[n];
    var first := if lineIndex < DOC_CONTEXT_LINES then 0 else lineIndex - DOC_CONTEXT_LINES;
    var last := if lineIndex + DOC_CONTEXT_LINES + 1 < |lines| then lineIndex + DOC_CONTEXT_LINES + 1 else |lines|;
    for index := first to last
      invariant buffer.State() == AddedRange(f, states[n], document, first, index)
    {
      buffer.Add((document, index), relative, index + 1, lines[index]);
    }
    forall q | 0 <= q < |buffers| && q != n ensures buffers[q].State() == states[q] {
      assert buffers[q] != buffers[n];
    }
  }

  ghost function AfterLine(f: Key -> string, states: seq<BufferState>, queries: seq<string>, lines: seq<string>,
                           document: nat, lineIndex: nat): (after: seq<BufferState>)
    requires |states| == |queries| && lineIndex < |lines|
    ensures |after| == |states|
    ensures forall q | 0 <= q < |states| :: after[q] == LineState(f, states[q], lines, document, lineIndex, queries[q])
  {
    seq(|states|, q requires 0 <= q < |states| => LineState(f, states[q], lines, document, lineIndex, queries[q]))
  }

  /** Every buffer is where it will end up, or not saturated yet. */
  ghost predicate Approaches(states: seq<BufferState>, goal: seq<BufferState>)
    requires |states| == |goal|
  {
    forall q | 0 <= q < |states| :: states[q].saturated ==> states[q] == goal[q]
  }

  lemma SaturatedLines(f: Key -> string, before: seq<BufferState>, queries: seq<string>, lines: seq<string>,
                       document: nat, lineIndex: nat)
    requires |before| == |queries| && lineIndex < |lines|
    ensures Approaches(before, AfterLine(f, before, queries, lines, document, lineIndex))
  {
    forall q | 0 <= q < |before| && before[q].saturated
      ensures LineState(f, before[q], lines, document, lineIndex, queries[q]) == before[q]
    {
      SaturatedRange(f, before[q], document, WindowFirst(lineIndex), WindowLast(lineIndex, |lines|));
    }
  }

  lemma SaturatedGoal(buffers: seq<QueryMatchBuffer>, states: seq<BufferState>, goal: seq<BufferState>)
    requires |buffers| == |states| == |goal| && InStates(buffers, states) && Approaches(states, goal)
    requires forall q | 0 <= q < |buffers| :: buffers[q].saturated
    ensures states == goal && AllSaturated(goal)
  {
    forall q | 0 <= q < |states| ensures states[q] == goal[q] && goal[q].saturated {
      assert buffers[q].State() == states[q];
    }
  }

  /** One line of one document: every query it mentions gets its window.  Stopping at a saturated
      point leaves the later queries untouched, which is where they would have ended up anyway. */
  method ScanLine(buffers: seq<QueryMatchBuffer>, queries: seq<string>, document: nat, relative: string,
                  lines: seq<string>, lineIndex: nat, ghost f: Key -> string, ghost before: seq<BufferState>)
    returns (stop: bool)
    requires lineIndex < |lines| && Distinct(buffers) && |buffers| == |queries| == |before|
    requires ChunksOf(f, document, relative, lines) && InStates(buffers, before)
    modifies buffers
    ensures InStates(buffers, AfterLine(f, before, queries, lines, document, lineIndex))
    ensures stop ==> AllSaturated(AfterLine(f, before, queries, lines, document, lineIndex))
  {
    ghost var goal := AfterLine(f, before, queries, lines, document, lineIndex);
    SaturatedLines(f, before, queries, lines, document, lineIndex);
    ghost var states := before;
    for n := 0 to |queries|
      invariant |states| == |buffers| && InStates(buffers, states)
      invariant forall q | 0 <= q < n :: states[q] == goal[q]
      invariant forall q | n <= q < |buffers| :: states[q] == before[q]
      invariant Approaches(states, goal)
    {
      if !Mentions(lines[lineIndex], queries[n]) {
        continue;
      }
      AddWindow(buffers, n, document, relative, lines, lineIndex, f, states);
      states := states[n := goal[n]];
      if forall q | 0 <= q < |buffers| :: buffers[q].saturated {
        SaturatedGoal(buffers, states, goal);
        return true;
      }
    }
    assert states == goal;
    return false;
  }

  ghost function AfterLines(f: Key -> string, states: seq<BufferState>, queries: seq<string>, lines: seq<string>,
                            document: nat, upTo: nat): (after: seq<BufferState>)
    requires |states| == |queries| && upTo <= |lines|
    ensures |after| == |states|
    ensures forall q | 0 <= q < |states| :: after[q] == DocState(f, states[q], lines, document, upTo, queries[q])
  {
    seq(|states|, q requires 0 <= q < |states| => DocState(f, states[q], lines, document, upTo, queries[q]))
  }

  lemma AfterOneMoreLine(f: Key -> string, before: seq<BufferState>, queries: seq<string>, lines: seq<string>,
                         document: nat, upTo: nat)
    requires |before| == |queries| && upTo < |lines|
    ensures AfterLine(f, AfterLines(f, before, queries, lines, document, upTo), queries, lines, document, upTo)
         == AfterLines(f, before, queries, lines, document, upTo + 1)
  {
  }

  lemma SaturatedLinesAhead(f: Key -> string, before: seq<BufferState>, queries: seq<string>, lines: seq<string>,
                            document: nat, upTo: nat)
    requires |before| == |queries| && upTo <= |lines|
    requires AllSaturated(AfterLines(f, before, queries, lines, document, upTo))
    ensures AfterLines(f, before, queries, lines, document, |lines|)
         == AfterLines(f, before, queries, lines, document, upTo)
  {
    var some, all := AfterLines(f, before, queries, lines, document, upTo),
                     AfterLines(f, before, queries, lines, document, |lines|);
    forall q | 0 <= q < |before| ensures all[q] == some[q] {
      assert some[q].saturated;
      SaturatedDoc(f, before[q], lines, document, upTo, |lines|, queries[q]);
    }
  }

  method ScanDocument(buffers: seq<QueryMatchBuffer>, queries: seq<string>, document: nat, relative: string,
                      lines: seq<string>, ghost f: Key -> string, ghost before: seq<BufferState>)
    returns (stop: bool)
    requires Distinct(buffers) && |buffers| == |queries| == |before|
    requires ChunksOf(f, document, relative, lines) && InStates(buffers, before)
    modifies buffers
    ensures InStates(buffers, AfterLines(f, before, queries, lines, document, |lines|))
    ensures stop ==> AllSaturated(AfterLines(f, before, queries, lines, document, |lines|))
  {
    for lineIndex := 0 to |lines|
      invariant InStates(buffers, AfterLines(f, before, queries, lines, document, lineIndex))
    {
      ghost var states := AfterLines(f, before, queries, lines, document, lineIndex);
      stop := ScanLine(buffers, queries, document, relative, lines, lineIndex, f, states);
      AfterOneMoreLine(f, before, queries, lines, document, lineIndex);
      if stop {
        SaturatedLinesAhead(f, before, queries, lines, document, lineIndex + 1);
        return true;
      }
    }
    return false;
  }

  lemma ScanNextDocument(docs: Docs, rgAvailable: bool, files: seq<string>, queries: seq<string>, upTo: nat)
    requires upTo < |files|
    ensures var states := ScanStates(docs, rgAvailable, files, queries, upTo);
            var lines := Lines(docs, files[upTo]);
            ScanStates(docs, rgAvailable, files, queries, upTo + 1)
            == if Scanned(docs, rgAvailable, files[upTo])
               then AfterLines(Chunks(docs, files), states, queries, lines, upTo, |lines|) else states
  {
  }

  lemma ScanSaturated(docs: Docs, rgAvailable: bool, files: seq<string>, queries: seq<string>, upTo: nat)
    requires upTo <= |files| && AllSaturated(ScanStates(docs, rgAvailable, files, queries, upTo))
    ensures ScanStates(docs, rgAvailable, files, queries, |files|)
         == ScanStates(docs, rgAvailable, files, queries, upTo)
  {
    var some, all := ScanStates(docs, rgAvailable, files, queries, upTo),
                     ScanStates(docs, rgAvailable, files, queries, |files|);
    forall q | 0 <= q < |queries| ensures all[q] == some[q] {
      assert some[q].saturated;
      SaturatedScan(docs, rgAvailable, files, upTo, |files|, queries[q]);
    }
  }

  /** The text of the files the fallback would show has been kept. */
  ghost predicate Kept(docs: Docs, files: seq<string>, upTo: nat, contents: map<string, string>) {
    && (forall path | path in contents :: contents[path] == docs.content(path))
    && (forall i | 0 <= i < upTo && i < |files| && i < DOC_FALLBACK_FILE_LIMIT :: files[i] in contents)
  }

  method NewBuffers(count: nat) returns (buffers: seq<QueryMatchBuffer>)
    ensures Distinct(buffers) && fresh(buffers) && |buffers| == count
    ensures forall q | 0 <= q < count :: buffers[q].State() == EMPTY_BUFFER
  {
    buffers := [];
    for n := 0 to count
      invariant |buffers| == n && Distinct(buffers) && fresh(buffers)
      invariant forall q | 0 <= q < n :: buffers[q].State() == EMPTY_BUFFER
    {
      var buffer := new QueryMatchBuffer();
      buffers := buffers + [buffer];
    }
  }

  /** trace[i] is where the buffers are before document i: one document leads from each entry to the
      next, and a saturated entry is the last one already. */
  ghost predicate ScanTrace(docs: Docs, files: seq<string>, queries: seq<string>, rgAvailable: bool,
                            trace: seq<seq<BufferState>>)
  {
    && |trace| == |files| + 1
    && (forall i | 0 <= i <= |files| :: |trace[i]| == |queries|)
    && (forall i | 0 <= i < |files| :: trace[i + 1] == AfterDocument(docs, files, queries, rgAvailable, trace[i], i))
    && (forall i | 0 <= i <= |files| :: AllSaturated(trace[i]) ==> trace[i] == trace[|files|])
  }

  ghost function AfterDocument(docs: Docs, files: seq<string>, queries: seq<string>, rgAvailable: bool,
                               states: seq<BufferState>, i: nat): (after: seq<BufferState>)
    requires i < |files| && |states| == |queries|
  {
    var lines := Lines(docs, files[i]);
    if Scanned(docs, rgAvailable, files[i])
    then AfterLines(Chunks(docs, files), states, queries, lines, i, |lines|) else states
  }

  lemma ScanStatesTrace(docs: Docs, files: seq<string>, queries: seq<string>, rgAvailable: bool)
    returns (trace: seq<seq<BufferState>>)
    ensures ScanTrace(docs, files, queries, rgAvailable, trace)
    ensures forall q | 0 <= q < |queries| :: trace[0][q] == EMPTY_BUFFER
    ensures trace[|files|] == ScanStates(docs, rgAvailable, files, queries, |files|)
  {
    trace := seq(|files| + 1, i requires 0 <= i <= |files| => ScanStates(docs, rgAvailable, files, queries, i));
    forall i | 0 <= i < |files|
      ensures trace[i + 1] == AfterDocument(docs, files, queries, rgAvailable, trace[i], i)
    {
      ScanNextDocument(docs, rgAvailable, files, queries, i);
    }
    forall i | 0 <= i <= |files| && AllSaturated(trace[i]) ensures trace[i] == trace[|files|] {
      ScanSaturated(docs, rgAvailable, files, queries, i);
    }
  }

  /** Reads each document once.  The buffers come out as if every document had been scanned, and the
      kept texts are complete unless every buffer is saturated, when they are not used. */
  method CollectQueryMatches(docs: Docs, files: seq<string>, queries: seq<string>, rgAvailable: bool)
    returns (buffers: seq<QueryMatchBuffer>, fallbackContents: map<string, string>)
    ensures Distinct(buffers) && fresh(buffers) && |buffers| == |queries|
    ensures InStates(buffers, ScanStates(docs, rgAvailable, files, queries, |files|))
    ensures rgAvailable || Kept(docs, files, |files|, fallbackContents)
            || AllSaturated(ScanStates(docs, rgAvailable, files, queries, |files|))
  {
    ghost var trace := ScanStatesTrace(docs, files, queries, rgAvailable);
    buffers := NewBuffers(|queries|);
    fallbackContents := ScanFiles(docs, files, queries, rgAvailable, buffers, trace);
  }

  method ScanFiles(docs: Docs, files: seq<string>, queries: seq<string>, rgAvailable: bool,
                   buffers: seq<QueryMatchBuffer>, ghost trace: seq<seq<BufferState>>)
    returns (fallbackContents: map<string, string>)
    requires ScanTrace(docs, files, queries, rgAvailable, trace)
    requires Distinct(buffers) && |buffers| == |queries| && InStates(buffers, trace[0])
    modifies buffers
    ensures InStates(buffers, trace[|files|])
    ensures rgAvailable || Kept(docs, files, |files|, fallbackContents) || AllSaturated(trace[|files|])
  {
    fallbackContents := map[];
    for pathIndex := 0 to |files|
      invariant InStates(buffers, trace[pathIndex])
      invariant rgAvailable || Kept(docs, files, pathIndex, fallbackContents)
    {
      assert trace[pathIndex + 1] == AfterDocument(docs, files, queries, rgAvailable, trace[pathIndex], pathIndex);
      var path := files[pathIndex];
      if rgAvailable && docs.skipped(path) {
        continue;
      }
      var content := docs.content(path);
      if !rgAvailable && pathIndex < DOC_FALLBACK_FILE_LIMIT {
        fallbackContents := fallbackContents[path := content];
      }
      var lines := docs.splitLines(content);
      var stop := ScanDocument(buffers, queries, pathIndex, path, lines, Chunks(docs, files), trace[pathIndex]);
      if stop {
        return;
      }
    }
  }

  // ---------------------------------------------------------------------------------
  // The search
  // ---------------------------------------------------------------------------------

  ghost predicate SeenIsTaken(seen: set<Key>, st: Take) {
    forall k :: k in seen <==> k in st.taken
  }

  /** Offers the matches of one query; `stop` says that the accumulator refused one. */
  method TakeMatches(accumulator: ContextAccumulator, seenBefore: set<Key>, matches: seq<(Key, string)>, ghost st: Take)
    returns (seen: set<Key>, stop: bool)
    requires st.open && accumulator.State() == st.acc && SeenIsTaken(seenBefore, st)
    modifies accumulator
    ensures accumulator.State() == TakeAll(st, matches).acc
    ensures stop <==> !TakeAll(st, matches).open
    ensures !stop ==> SeenIsTaken(seen, TakeAll(st, matches))
  {
    seen := seenBefore;
    for n := 0 to |matches|
      invariant TakeAll(st, matches[..n]).open
      invariant accumulator.State() == TakeAll(st, matches[..n]).acc
      invariant SeenIsTaken(seen, TakeAll(st, matches[..n]))
    {
      TakeNext(st, matches, n);
      var (key, chunk) := matches[n];
      if key in seen {
        continue;
      }
      seen := seen + {key};
      var ok := accumulator.Append(chunk, DOC_CONTEXT_BUDGET);
      if !ok {
        TakeAllConcat(st, matches[..n + 1], matches[n + 1..]);
        assert matches[..n + 1] + matches[n + 1..] == matches;
        FullTakesNothing(TakeAll(st, matches[..n + 1]), matches[n + 1..]);
        ClosedStays(TakeAll(st, matches[..n + 1]), matches[n + 1..]);
        return seen, true;
      }
    }
    assert matches[..|matches|] == matches;
    return seen, false;
  }

  lemma TakeNext(st: Take, items: seq<(Key, string)>, n: nat)
    requires n < |items|
    ensures TakeAll(st, items[..n + 1]) == TakeOne(TakeAll(st, items[..n]), items[n])
  {
    assert items[..n + 1][..n] == items[..n];
  }

  lemma {:induction false} ClosedStays(st: Take, items: seq<(Key, string)>)
    requires !st.open
    ensures TakeAll(st, items) == st
  {
    if items == [] {
    } else {
      ClosedStays(st, items[..|items| - 1]);
    }
  }

  lemma {:induction false} ClosedQueriesStay(lists: seq<seq<(Key, string)>>, some: nat, all: nat)
    requires some <= all <= |lists| && !TakeQueries(START, lists[..some]).open
    ensures TakeQueries(START, lists[..all]) == TakeQueries(START, lists[..some])
  {
    if some >= all {
    } else {
      ClosedQueriesStay(lists, some, all - 1);
      TakeLastQuery(START, lists[..all], lists[..all - 1]);
      ClosedStays(TakeQueries(START, lists[..all - 1]), lists[all - 1]);
    }
  }

  /** Offers every query's matches in turn, up to the first refusal. */
  method TakeBuffers(buffers: seq<QueryMatchBuffer>, ghost states: seq<BufferState>)
    returns (accumulator: ContextAccumulator)
    requires |buffers| == |states| && InStates(buffers, states)
    ensures fresh(accumulator) && accumulator.State() == TakeQueries(START, Capped(states)).acc
  {
    ghost var lists := Capped(states);
    accumulator := new ContextAccumulator();
    var seen: set<Key> := {};
    for n := 0 to |buffers|
      invariant fresh(accumulator) && InStates(buffers, states)
      invariant TakeQueries(START, lists[..n]).open
      invariant accumulator.State() == TakeQueries(START, lists[..n]).acc
      invariant SeenIsTaken(seen, TakeQueries(START, lists[..n]))
    {
      TakeLastQuery(START, lists[..n + 1], lists[..n]);
      assert buffers[n].State() == states[n];
      var stop;
      seen, stop := TakeMatches(accumulator, seen, buffers[n].matches, TakeQueries(START, lists[..n]));
      if stop {
        ClosedQueriesStay(lists, n + 1, |lists|);
        assert lists[..|lists|] == lists;
        return;
      }
    }
    assert lists[..|buffers|] == lists;
  }

  /** The whole search.  `fn` is the component matcher that selected the inventory `files`. */
  method SearchDocsContext(docs: Docs, files: seq<string>, queries: seq<string>, rgAvailable: bool,
                           ghost fn: Glob.Fnmatch)
    returns (text: string)
    requires FnmatchOnDocPatterns(fn) && forall i | 0 <= i < |files| :: Included(fn, files[i])
    ensures SearchText(docs, rgAvailable, files, queries, text)
    ensures ContextMeans(docs, rgAvailable, files, queries, text)
    ensures |text| <= DOC_CONTEXT_BUDGET + 2
    ensures queries != [] && UncappedSearch(docs, rgAvailable, files, queries).chunks != [] ==>
              |text| <= DOC_CONTEXT_BUDGET
  {
    if files == [] {
      text := "";
    } else if queries == [] {
      text := FallbackContext(files, docs.content, None);
    } else {
      text := SearchHits(docs, files, queries, rgAvailable, fn);
      CappedSearchIsUncapped(fn, docs, rgAvailable, files, queries);
    }
    SearchMeans(docs, rgAvailable, files, queries, text);
  }

  /** The search itself, and the fallback when nothing was found without ripgrep. */
  method SearchHits(docs: Docs, files: seq<string>, queries: seq<string>, rgAvailable: bool, ghost fn: Glob.Fnmatch)
    returns (text: string)
    requires FnmatchOnDocPatterns(fn) && forall i | 0 <= i < |files| :: Included(fn, files[i])
    requires files != [] && queries != []
    ensures SearchText(docs, rgAvailable, files, queries, text)
    ensures |text| <= DOC_CONTEXT_BUDGET + 2
  {
    var buffers, fallbackContents := CollectQueryMatches(docs, files, queries, rgAvailable);
    ghost var states := ScanStates(docs, rgAvailable, files, queries, |files|);
    var accumulator := TakeBuffers(buffers, states);
    CappedSearchIsUncapped(fn, docs, rgAvailable, files, queries);
    if accumulator.chunks != [] {
      return accumulator.Render();
    }
    if rgAvailable {
      return "";
    }
    if AllSaturated(states) {
      ScanStatesMean(fn, docs, rgAvailable, files, queries);
      SaturatedIsNotEmpty(Chunks(docs, files), states, AllFirsts(docs, rgAvailable, files, queries));
    }
    text := FallbackContext(files, docs.content, Some(fallbackContents));
  }
}
