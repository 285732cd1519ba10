/** Bounded documentation search (src/ai_push_hooks/modules/docs.py).

    Each query ranks snippets of the documentation in a capped buffer; the scan stops early once
    every buffer is saturated; an accumulator then takes unseen snippets query by query until its
    character budget is used up.  The specification knows neither caps nor early exit. */
module DocsSearch {

  import Glob
  import opened Strings

  const DOC_CONTEXT_LINES := 2
  const DOC_CONTEXT_BUDGET := 32000
  const DOC_FALLBACK_FILE_LIMIT := 8
  const DOC_MAX_QUERY_MATCHES := 4096
  /** The shortest chunk: the path `docs/.md`, one digit and the two separators `:` and `: `. */
  const SHORTEST_CHUNK := 12
  const DOC_INCLUDE_PATTERNS: seq<seq<Glob.Component>> := [["README.md"], ["docs", "**", "*.md"]]

  /** A snippet: which document and which line of it. */
  type Key = (nat, nat)

  /** What reading a file gives: its bounded text, the lines of a text, and whether the file is too
      large (or unreadable) for the search that skips such files. */
  datatype Docs = Docs(content: string -> string, splitLines: string -> seq<string>, skipped: string -> bool)

  // ---------------------------------------------------------------------------------
  // Text
  // ---------------------------------------------------------------------------------

  function Decimal(n: nat): (digits: string)
    ensures |digits| >= 1
  {
    var digit := [('0' as int + n % 10) as char];
    if n < 10 then digit else Decimal(n / 10) + digit
  }

  predicate Mentions(line: string, query: string) {
    exists i: nat | i <= |line| :: query <= line[i..]
  }

  // ---------------------------------------------------------------------------------
  // Snippets of a query, without caps
  // ---------------------------------------------------------------------------------

  ghost function Lines(docs: Docs, path: string): seq<string> {
    docs.splitLines(docs.content(path))
  }

  function Snippet(relative: string, lineNumber: nat, line: string): (chunk: string)
    ensures |chunk| >= |relative| + 4
  {
    relative + ":" + Decimal(lineNumber) + ": " + line
  }

  ghost function Chunk(docs: Docs, files: seq<string>, key: Key): string {
    if key.0 < |files| && key.1 < |Lines(docs, files[key.0])| then
      Snippet(files[key.0], key.1 + 1, Lines(docs, files[key.0])[key.1])
    else ""
  }

  ghost function Chunks(docs: Docs, files: seq<string>): Key -> string {
    key => Chunk(docs, files, key)
  }

  ghost function WindowFirst(lineIndex: nat): nat {
    if lineIndex < DOC_CONTEXT_LINES then 0 else lineIndex - DOC_CONTEXT_LINES
  }

  ghost function WindowLast(lineIndex: nat, count: nat): nat {
    if lineIndex + DOC_CONTEXT_LINES + 1 < count then lineIndex + DOC_CONTEXT_LINES + 1 else count
  }

  /** The keys first .. last of one document, in order. */
  ghost function Range(document: nat, first: nat, last: nat): (keys: seq<Key>)
    requires first <= last
    ensures |keys| == last - first
    ensures forall i | 0 <= i < |keys| :: keys[i] == (document, first + i)
  {
    seq(last - first, i requires 0 <= i < last - first => (document, first + i))
  }

  /** The keys hit by one line: the lines around it, if it mentions the query. */
  ghost function LineKeys(lines: seq<string>, document: nat, lineIndex: nat, query: string): seq<Key>
    requires lineIndex < |lines|
  {
    if Mentions(lines[lineIndex], query)
    then Range(document, WindowFirst(lineIndex), WindowLast(lineIndex, |lines|))
    else []
  }

  ghost function DocKeys(lines: seq<string>, document: nat, upTo: nat, query: string): seq<Key>
    requires upTo <= |lines|
  {
    if upTo == 0 then []
    else DocKeys(lines, document, upTo - 1, query) + LineKeys(lines, document, upTo - 1, query)
  }

  ghost predicate Scanned(docs: Docs, rgAvailable: bool, path: string) {
    !(rgAvailable && docs.skipped(path))
  }

  /** Every key a query hits in one document. */
  ghost function FileKeys(docs: Docs, rgAvailable: bool, files: seq<string>, document: nat, query: string): seq<Key>
    requires document < |files|
  {
    var lines := Lines(docs, files[document]);
    if Scanned(docs, rgAvailable, files[document]) then DocKeys(lines, document, |lines|, query) else []
  }

  /** Every key a query hits in the first `upTo` documents, in scan order, repeats included. */
  ghost function AllKeys(docs: Docs, rgAvailable: bool, files: seq<string>, upTo: nat, query: string): seq<Key>
    requires upTo <= |files|
  {
    if upTo == 0 then []
    else
      AllKeys(docs, rgAvailable, files, upTo - 1, query) + FileKeys(docs, rgAvailable, files, upTo - 1, query)
  }

  /** The first occurrence of each key. */
  ghost function Firsts(keys: seq<Key>): seq<Key> {
    if keys == [] then []
    else
      var before := Firsts(keys[..|keys| - 1]);
      if keys[|keys| - 1] in before then before else before + [keys[|keys| - 1]]
  }

  ghost predicate NoRepeats(keys: seq<Key>) {
    forall i, j | 0 <= i < j < |keys| :: keys[i] != keys[j]
  }

  /** De-duplication keeps every key, once. */
  lemma {:induction false} FirstsMeaning(keys: seq<Key>)
    ensures NoRepeats(Firsts(keys))
    ensures forall k :: k in Firsts(keys) <==> k in keys
  {
    if keys == [] {
    } else {
      FirstsMeaning(keys[..|keys| - 1]);
      assert keys == keys[..|keys| - 1] + [keys[|keys| - 1]];
    }
  }

  lemma FirstsSnoc(keys: seq<Key>, key: Key)
    ensures Firsts(keys + [key]) == if key in Firsts(keys) then Firsts(keys) else Firsts(keys) + [key]
  {
    assert (keys + [key])[..|keys|] == keys;
  }

  // ---------------------------------------------------------------------------------
  // The capped buffer
  // ---------------------------------------------------------------------------------

  datatype BufferState = BufferState(matches: seq<(Key, string)>, seen: set<Key>, characters: nat, saturated: bool)

  const EMPTY_BUFFER := BufferState([], {}, 0, false)

  ghost function Added(buffer: BufferState, key: Key, chunk: string): BufferState {
    if key in buffer.seen || buffer.saturated || |buffer.matches| >= DOC_MAX_QUERY_MATCHES then buffer
    else
      var matches := buffer.matches + [(key, chunk)];
      var characters := buffer.characters + |chunk|;
      BufferState(matches, buffer.seen + {key}, characters,
                  |matches| >= DOC_MAX_QUERY_MATCHES || characters >= DOC_CONTEXT_BUDGET)
  }

  ghost function Items(f: Key -> string, keys: seq<Key>): (items: seq<(Key, string)>)
    ensures |items| == |keys|
    ensures forall i | 0 <= i < |keys| :: items[i] == (keys[i], f(keys[i]))
  {
    seq(|keys|, i requires 0 <= i < |keys| => (keys[i], f(keys[i])))
  }

  ghost function SumLen(f: Key -> string, keys: seq<Key>): nat {
    if keys == [] then 0 else SumLen(f, keys[..|keys| - 1]) + |f(keys[|keys| - 1])|
  }

  /** How long the chunks of a key list are at least, and that the 4096-match cap never bites before
      the character budget does. */
  lemma {:induction false} SumLenAtLeast(f: Key -> string, keys: seq<Key>)
    requires forall k | k in keys :: |f(k)| >= SHORTEST_CHUNK
    ensures SumLen(f, keys) >= SHORTEST_CHUNK * |keys|
  {
    if keys == [] {
    } else {
      SumLenAtLeast(f, keys[..|keys| - 1]);
    }
  }

  /** What a capped buffer holds: a prefix of the uncapped first occurrences, all of them unless it
      is saturated, and at least a full budget of characters if it is. */
  ghost predicate BufferMeaning(f: Key -> string, buffer: BufferState, firsts: seq<Key>) {
    var n := |buffer.matches|;
    && n <= |firsts|
    && buffer.matches == Items(f, firsts[..n])
    && (forall k :: k in buffer.seen <==> k in firsts[..n])
    && buffer.characters == SumLen(f, firsts[..n])
    && (!buffer.saturated ==> n == |firsts| && n < DOC_MAX_QUERY_MATCHES && buffer.characters < DOC_CONTEXT_BUDGET)
    && (buffer.saturated ==> SumLen(f, firsts[..n]) >= DOC_CONTEXT_BUDGET)
  }

  /** One add keeps the meaning of a buffer. */
  lemma AddedMeans(f: Key -> string, buffer: BufferState, before: seq<Key>, key: Key)
    requires BufferMeaning(f, buffer, before)
    requires |f(key)| >= SHORTEST_CHUNK && forall k | k in before :: |f(k)| >= SHORTEST_CHUNK
    ensures BufferMeaning(f, Added(buffer, key, f(key)), if key in before then before else before + [key])
  {
    var n := |buffer.matches|;
    if buffer.saturated {
      assert (before + [key])[..n] == before[..n];
    } else {
      assert before[..n] == before;
      if key !in before {
        var after := before + [key];
        assert after[..n + 1] == after;
        assert after[..n] == before;
        SumLenAtLeast(f, after);
      }
    }
  }

  // ---------------------------------------------------------------------------------
  // The accumulator
  // ---------------------------------------------------------------------------------

  datatype AccumulatorState = AccumulatorState(chunks: seq<string>, size: nat)

  /** The accumulator after offering a chunk, and whether the whole chunk went in. */
  ghost function Appended(acc: AccumulatorState, chunk: string, budget: nat): (AccumulatorState, bool) {
    var separatorSize := if acc.chunks == [] then 0 else 1;
    var remaining := budget - acc.size - separatorSize;
    if remaining <= 0 then (acc, false)
    else if |chunk| <= remaining then
      (AccumulatorState(acc.chunks + [chunk], acc.size + separatorSize + |chunk|), true)
    else if acc.chunks != [] then (acc, false)
    else (AccumulatorState([chunk[..remaining]], acc.size + separatorSize + remaining), false)
  }

  /** `size` is the length of the rendered text, and it is within the budget. */
  ghost predicate WithinBudget(acc: AccumulatorState, budget: nat) {
    && acc.size == |Join(acc.chunks, "\n")|
    && acc.size <= budget
  }

  lemma AppendedWithinBudget(acc: AccumulatorState, chunk: string, budget: nat)
    requires WithinBudget(acc, budget)
    ensures WithinBudget(Appended(acc, chunk, budget).0, budget)
  {
    JoinSnoc(acc.chunks, chunk, "\n");
  }

  /** The take loop: the accumulator, the keys taken so far in order, and whether it still takes. */
  datatype Take = Take(acc: AccumulatorState, taken: seq<Key>, open: bool)

  const START := Take(AccumulatorState([], 0), [], true)

  ghost function TakeOne(st: Take, item: (Key, string)): Take {
    if !st.open || item.0 in st.taken then st
    else
      var (acc, ok) := Appended(st.acc, item.1, DOC_CONTEXT_BUDGET);
      Take(acc, st.taken + [item.0], ok)
  }

  ghost function TakeAll(st: Take, items: seq<(Key, string)>): Take {
    if items == [] then st
    else TakeOne(TakeAll(st, items[..|items| - 1]), items[|items| - 1])
  }

  ghost function TakeQueries(st: Take, lists: seq<seq<(Key, string)>>): Take {
    if lists == [] then st
    else TakeAll(TakeQueries(st, lists[..|lists| - 1]), lists[|lists| - 1])
  }

  lemma {:induction false} TakeAllConcat(st: Take, a: seq<(Key, string)>, b: seq<(Key, string)>)
    ensures TakeAll(st, a + b) == TakeAll(TakeAll(st, a), b)
  {
    if b == [] {
      assert a + b == a;
    } else {
      var init := b[..|b| - 1];
      assert (a + b)[..|a + b| - 1] == a + init;
      TakeAllConcat(st, a, init);
    }
  }

  /** Nothing more can go in, whether or not a refusal has been seen yet.  A single chunk of exactly
      the budget is accepted, so a full accumulator may still be open. */
  ghost predicate Full(st: Take) {
    !st.open || (st.acc.chunks != [] && st.acc.size + 1 >= DOC_CONTEXT_BUDGET)
  }

  lemma {:induction false} FullTakesNothing(st: Take, items: seq<(Key, string)>)
    requires Full(st)
    ensures Full(TakeAll(st, items)) && TakeAll(st, items).acc == st.acc
  {
    if items == [] {
    } else {
      FullTakesNothing(st, items[..|items| - 1]);
    }
  }

  /** While it takes, the accumulator holds exactly the chunks of the keys taken. */
  ghost predicate TakeInvariant(f: Key -> string, st: Take) {
    && WithinBudget(st.acc, DOC_CONTEXT_BUDGET)
    && (forall i, j | 0 <= i < j < |st.taken| :: st.taken[i] != st.taken[j])
    && (!st.open ==> st.taken != [])
    && (st.taken != [] ==> st.acc.chunks != [])
    && (st.open ==>
          && |st.acc.chunks| == |st.taken|
          && st.acc.size == SumLen(f, st.taken) + (if st.taken == [] then 0 else |st.taken| - 1))
  }

  lemma TakeOneInvariant(f: Key -> string, st: Take, key: Key)
    requires TakeInvariant(f, st)
    ensures var after := TakeOne(st, (key, f(key)));
            && TakeInvariant(f, after)
            && st.taken <= after.taken
            && (after.open ==> st.open && key in after.taken)
  {
    if st.open && key !in st.taken {
      AppendedWithinBudget(st.acc, f(key), DOC_CONTEXT_BUDGET);
      SumLenSnoc(f, st.taken, key);
      AppendedSize(st.acc, f(key), DOC_CONTEXT_BUDGET);
    }
  }

  lemma SumLenSnoc(f: Key -> string, keys: seq<Key>, key: Key)
    ensures SumLen(f, keys + [key]) == SumLen(f, keys) + |f(key)|
    ensures keys <= keys + [key]
  {
    assert (keys + [key])[..|keys|] == keys;
  }

  lemma AppendedSize(acc: AccumulatorState, chunk: string, budget: nat)
    ensures var (after, ok) := Appended(acc, chunk, budget);
            ok ==> after.size == acc.size + |chunk| + (if |acc.chunks| == 0 then 0 else 1)
                   && |after.chunks| == |acc.chunks| + 1
  {
  }

  lemma {:induction false} TakeAllInvariant(f: Key -> string, st: Take, keys: seq<Key>)
    requires TakeInvariant(f, st)
    ensures var after := TakeAll(st, Items(f, keys));
            && TakeInvariant(f, after)
            && st.taken <= after.taken
            && (after.open ==> forall k | k in keys :: k in after.taken)
  {
    if keys == [] {
    } else {
      var init, last := keys[..|keys| - 1], keys[|keys| - 1];
      TakeAllInvariant(f, st, init);
      assert Items(f, keys)[..|keys| - 1] == Items(f, init);
      TakeOneInvariant(f, TakeAll(st, Items(f, init)), last);
      assert keys == init + [last];
    }
  }

  lemma {:induction false} SumLenRemove(f: Key -> string, keys: seq<Key>, at: nat)
    requires at < |keys|
    ensures SumLen(f, keys) == SumLen(f, keys[..at] + keys[at + 1..]) + |f(keys[at])|
  {
    var rest := keys[..at] + keys[at + 1..];
    if at == |keys| - 1 {
      assert rest == keys[..at];
    } else {
      var init := keys[..|keys| - 1];
      SumLenRemove(f, init, at);
      assert rest[..|rest| - 1] == init[..at] + init[at + 1..];
    }
  }

  /** Distinct keys all found in a list weigh no more than the list. */
  lemma {:induction false} SumLenSubset(f: Key -> string, some: seq<Key>, all: seq<Key>)
    requires forall i, j | 0 <= i < j < |some| :: some[i] != some[j]
    requires forall k | k in some :: k in all
    ensures SumLen(f, some) <= SumLen(f, all)
    decreases |some|
  {
    if some == [] {
    } else {
      var init, last := some[..|some| - 1], some[|some| - 1];
      assert last == some[|some| - 1] && last in some;
      var at :| 0 <= at < |all| && all[at] == last;
      var rest := all[..at] + all[at + 1..];
      SumLenRemove(f, all, at);
      forall k | k in init ensures k in rest {
        var i :| 0 <= i < |init| && init[i] == k;
        assert some[i] == k && k in some && k != last;
        var j :| 0 <= j < |all| && all[j] == k;
        assert j < at ==> rest[j] == k;
        assert j > at ==> rest[j - 1] == k;
      }
      SumLenSubset(f, init, rest);
    }
  }

  /** A saturated buffer always fills the accumulator, even when earlier queries took some of its
      lines already. */
  lemma SaturatedBufferFills(f: Key -> string, st: Take, keys: seq<Key>)
    requires TakeInvariant(f, st)
    requires forall i, j | 0 <= i < j < |keys| :: keys[i] != keys[j]
    requires SumLen(f, keys) >= DOC_CONTEXT_BUDGET
    ensures Full(TakeAll(st, Items(f, keys)))
  {
    TakeAllInvariant(f, st, keys);
    var after := TakeAll(st, Items(f, keys));
    if after.open {
      SumLenSubset(f, keys, after.taken);
    }
  }

  // ---------------------------------------------------------------------------------
  // Caps never change the answer
  // ---------------------------------------------------------------------------------

  ghost function Uncapped(f: Key -> string, firsts: seq<seq<Key>>): (lists: seq<seq<(Key, string)>>)
    ensures |lists| == |firsts|
    ensures forall q | 0 <= q < |firsts| :: lists[q] == Items(f, firsts[q])
  {
    seq(|firsts|, q requires 0 <= q < |firsts| => Items(f, firsts[q]))
  }

  ghost function Capped(buffers: seq<BufferState>): (lists: seq<seq<(Key, string)>>)
    ensures |lists| == |buffers|
    ensures forall q | 0 <= q < |buffers| :: lists[q] == buffers[q].matches
  {
    seq(|buffers|, q requires 0 <= q < |buffers| => buffers[q].matches)
  }

  lemma ItemsConcat(f: Key -> string, a: seq<Key>, b: seq<Key>)
    ensures Items(f, a + b) == Items(f, a) + Items(f, b)
  {
  }

  /** A list cut after a full budget of characters leads to the same full accumulator. */
  lemma CutAfterBudget(f: Key -> string, st: Take, firsts: seq<Key>, n: nat)
    requires TakeInvariant(f, st) && n <= |firsts|
    requires forall i, j | 0 <= i < j < |firsts| :: firsts[i] != firsts[j]
    requires SumLen(f, firsts[..n]) >= DOC_CONTEXT_BUDGET
    ensures var cut, whole := TakeAll(st, Items(f, firsts[..n])), TakeAll(st, Items(f, firsts));
            Full(cut) && Full(whole) && cut.acc == whole.acc
  {
    assert firsts == firsts[..n] + firsts[n..];
    ItemsConcat(f, firsts[..n], firsts[n..]);
    TakeAllConcat(st, Items(f, firsts[..n]), Items(f, firsts[n..]));
    SaturatedBufferFills(f, st, firsts[..n]);
    FullTakesNothing(TakeAll(st, Items(f, firsts[..n])), Items(f, firsts[n..]));
  }

  /** One query: from one state, its capped and its uncapped list lead to the same accumulator, and
      to the very same state unless that accumulator is full. */
  lemma CapOneQuery(f: Key -> string, st: Take, buffer: BufferState, firsts: seq<Key>)
    requires TakeInvariant(f, st)
    requires NoRepeats(firsts) && BufferMeaning(f, buffer, firsts)
    ensures var capped, uncapped := TakeAll(st, buffer.matches), TakeAll(st, Items(f, firsts));
            capped == uncapped || (Full(capped) && Full(uncapped) && capped.acc == uncapped.acc)
  {
    if buffer.saturated {
      CutAfterBudget(f, st, firsts, |buffer.matches|);
    } else {
      assert firsts[..|buffer.matches|] == firsts;
    }
  }

  /** For all documents and queries: the accumulator filled from the capped buffers is the one filled
      from the unbounded lists. */
  lemma {:induction false} CapsNeverChangeTheAnswer(f: Key -> string, buffers: seq<BufferState>, firsts: seq<seq<Key>>)
    requires |buffers| == |firsts|
    requires forall q | 0 <= q < |firsts| :: NoRepeats(firsts[q]) && BufferMeaning(f, buffers[q], firsts[q])
    ensures var capped, uncapped := TakeQueries(START, Capped(buffers)), TakeQueries(START, Uncapped(f, firsts));
            && capped.acc == uncapped.acc
            && WithinBudget(capped.acc, DOC_CONTEXT_BUDGET)
            && (capped == uncapped || (Full(capped) && Full(uncapped)))
            && TakeInvariant(f, capped)
  {
    if firsts == [] {
    } else {
      var n := |firsts| - 1;
      CapsNeverChangeTheAnswer(f, buffers[..n], firsts[..n]);
      TakeLastQuery(START, Capped(buffers), Capped(buffers[..n]));
      TakeLastQuery(START, Uncapped(f, firsts), Uncapped(f, firsts[..n]));
      CapLastQuery(f, TakeQueries(START, Capped(buffers[..n])), TakeQueries(START, Uncapped(f, firsts[..n])),
                   buffers[n], firsts[n]);
    }
  }

  lemma TakeLastQuery(st: Take, lists: seq<seq<(Key, string)>>, init: seq<seq<(Key, string)>>)
    requires |lists| == |init| + 1 && forall q | 0 <= q < |init| :: init[q] == lists[q]
    ensures TakeQueries(st, lists) == TakeAll(TakeQueries(st, init), lists[|init|])
  {
    assert lists[..|init|] == init;
  }

  lemma CapLastQuery(f: Key -> string, capped: Take, uncapped: Take, buffer: BufferState, firsts: seq<Key>)
    requires TakeInvariant(f, capped) && capped.acc == uncapped.acc
    requires capped == uncapped || (Full(capped) && Full(uncapped))
    requires NoRepeats(firsts) && BufferMeaning(f, buffer, firsts)
    ensures var capped', uncapped' := TakeAll(capped, buffer.matches), TakeAll(uncapped, Items(f, firsts));
            && capped'.acc == uncapped'.acc
            && WithinBudget(capped'.acc, DOC_CONTEXT_BUDGET)
            && (capped' == uncapped' || (Full(capped') && Full(uncapped')))
            && TakeInvariant(f, capped')
  {
    TakeAllInvariant(f, capped, firsts[..|buffer.matches|]);
    if capped == uncapped {
      CapOneQuery(f, capped, buffer, firsts);
    } else {
      FullTakesNothing(capped, buffer.matches);
      FullTakesNothing(uncapped, Items(f, firsts));
    }
  }

  // ---------------------------------------------------------------------------------
  // The scan as the buffers see it
  // ---------------------------------------------------------------------------------

  /** A buffer after the window first .. last of one document. */
  ghost function AddedRange(f: Key -> string, buffer: BufferState, document: nat, first: nat, last: nat): BufferState
    requires first <= last
    decreases last
  {
    if first == last then buffer
    else Added(AddedRange(f, buffer, document, first, last - 1), (document, last - 1), f((document, last - 1)))
  }

  ghost function LineState(f: Key -> string, buffer: BufferState, lines: seq<string>, document: nat, lineIndex: nat,
                     query: string): BufferState
    requires lineIndex < |lines|
  {
    if Mentions(lines[lineIndex], query)
    then AddedRange(f, buffer, document, WindowFirst(lineIndex), WindowLast(lineIndex, |lines|))
    else buffer
  }

  ghost function DocState(f: Key -> string, buffer: BufferState, lines: seq<string>, document: nat, upTo: nat,
                    query: string): BufferState
    requires upTo <= |lines|
  {
    if upTo == 0 then buffer
    else LineState(f, DocState(f, buffer, lines, document, upTo - 1, query), lines, document, upTo - 1, query)
  }

  ghost function ScanState(docs: Docs, rgAvailable: bool, files: seq<string>, upTo: nat, query: string): BufferState
    requires upTo <= |files|
  {
    if upTo == 0 then EMPTY_BUFFER
    else
      var before := ScanState(docs, rgAvailable, files, upTo - 1, query);
      if Scanned(docs, rgAvailable, files[upTo - 1])
      then var lines := Lines(docs, files[upTo - 1]);
           DocState(Chunks(docs, files), before, lines, upTo - 1, |lines|, query)
      else before
  }

  /** A saturated buffer ignores everything that is still to be scanned. */
  lemma {:induction false} SaturatedRange(f: Key -> string, buffer: BufferState, document: nat, first: nat, last: nat)
    requires first <= last && buffer.saturated
    ensures AddedRange(f, buffer, document, first, last) == buffer
    decreases last
  {
    if first >= last {
    } else {
      SaturatedRange(f, buffer, document, first, last - 1);
    }
  }

  lemma {:induction false} SaturatedDoc(f: Key -> string, buffer: BufferState, lines: seq<string>, document: nat,
                                        some: nat, all: nat, query: string)
    requires some <= all <= |lines| && DocState(f, buffer, lines, document, some, query).saturated
    ensures DocState(f, buffer, lines, document, all, query) == DocState(f, buffer, lines, document, some, query)
  {
    if some >= all {
    } else {
      SaturatedDoc(f, buffer, lines, document, some, all - 1, query);
      SaturatedRange(f, DocState(f, buffer, lines, document, all - 1, query), document,
                     WindowFirst(all - 1), WindowLast(all - 1, |lines|));
    }
  }

  lemma {:induction false} SaturatedScan(docs: Docs, rgAvailable: bool, files: seq<string>, some: nat, all: nat,
                                         query: string)
    requires some <= all <= |files| && ScanState(docs, rgAvailable, files, some, query).saturated
    ensures ScanState(docs, rgAvailable, files, all, query) == ScanState(docs, rgAvailable, files, some, query)
  {
    if some >= all {
    } else {
      SaturatedScan(docs, rgAvailable, files, some, all - 1, query);
      var lines := Lines(docs, files[all - 1]);
      SaturatedDoc(Chunks(docs, files), ScanState(docs, rgAvailable, files, all - 1, query), lines, all - 1,
                   0, |lines|, query);
    }
  }

  // ---------------------------------------------------------------------------------
  // Why a chunk has at least twelve characters
  // ---------------------------------------------------------------------------------

  /** What the component matcher does on the three components the include patterns use: a literal
      matches itself only, and `*.md` only names ending in `.md`. */
  ghost predicate FnmatchOnDocPatterns(fn: Glob.Fnmatch) {
    && (forall name :: fn(name, "README.md") ==> name == "README.md")
    && (forall name :: fn(name, "docs") ==> name == "docs")
    && (forall name :: fn(name, "*.md") ==> |name| >= 3)
  }

  /** A file the inventory lists: some include pattern means its path. */
  ghost predicate Included(fn: Glob.Fnmatch, path: string) {
    exists i | 0 <= i < |DOC_INCLUDE_PATTERNS| :: Glob.Means(fn, Split(path, '/'), DOC_INCLUDE_PATTERNS[i])
  }

  lemma {:induction false} JoinLength(parts: seq<string>, separator: char)
    requires |parts| >= 2
    ensures |Join(parts, [separator])| >= |parts[0]| + 1 + |parts[|parts| - 1]|
  {
    if |parts| <= 2 {
    } else {
      JoinLength(parts[1..], separator);
    }
  }

  lemma ReadmePathLength(fn: Glob.Fnmatch, parts: seq<string>)
    requires FnmatchOnDocPatterns(fn) && |parts| >= 1
    requires Glob.Means(fn, parts, ["README.md"])
    ensures |Join(parts, "/")| >= 8
  {
    Glob.MeansOne(fn, parts, ["README.md"]);
    Glob.MeansEmptyPattern(fn, parts[1..]);
    assert parts == ["README.md"];
  }

  lemma NestedPathLength(fn: Glob.Fnmatch, parts: seq<string>)
    requires FnmatchOnDocPatterns(fn) && |parts| >= 1
    requires Glob.Means(fn, parts, ["docs", "**", "*.md"])
    ensures |Join(parts, "/")| >= 8
  {
    var pattern := ["docs", "**", "*.md"];
    var cuts :| Glob.Assigns(fn, parts, pattern, cuts);
    assert Glob.AssignsOne(fn, parts, pattern[0], cuts[0], cuts[1]);
    assert Glob.AssignsOne(fn, parts, pattern[1], cuts[1], cuts[2]);
    assert Glob.AssignsOne(fn, parts, pattern[2], cuts[2], cuts[3]);
    JoinLength(parts, '/');
  }

  /** The shortest included path is `docs/.md`. */
  lemma IncludedPathLength(fn: Glob.Fnmatch, path: string)
    requires FnmatchOnDocPatterns(fn) && Included(fn, path)
    ensures |path| >= 8
  {
    var parts := Split(path, '/');
    var i :| 0 <= i < |DOC_INCLUDE_PATTERNS| && Glob.Means(fn, parts, DOC_INCLUDE_PATTERNS[i]);
    if i == 0 {
      ReadmePathLength(fn, parts);
    } else {
      NestedPathLength(fn, parts);
    }
  }

  /** Every chunk of a listed document has at least twelve characters. */
  lemma ChunkLength(fn: Glob.Fnmatch, docs: Docs, files: seq<string>, key: Key)
    requires FnmatchOnDocPatterns(fn) && forall i | 0 <= i < |files| :: Included(fn, files[i])
    requires key.0 < |files| && key.1 < |Lines(docs, files[key.0])|
    ensures |Chunk(docs, files, key)| >= SHORTEST_CHUNK
  {
    IncludedPathLength(fn, files[key.0]);
  }

  // ---------------------------------------------------------------------------------
  // What a scan leaves in a buffer
  // ---------------------------------------------------------------------------------

  /** What is true of a buffer and the keys offered to it so far. */
  type Meaning = (BufferState, seq<Key>) -> bool

  /** Offering one more key with a long enough chunk keeps it true. */
  ghost predicate KeptByAdd(m: Meaning, f: Key -> string) {
    forall buffer, keys, key {:trigger m(Added(buffer, key, f(key)), keys + [key])} ::
      m(buffer, keys) && |f(key)| >= SHORTEST_CHUNK ==> m(Added(buffer, key, f(key)), keys + [key])
  }

  /** The first `count` lines of a document have long enough chunks. */
  ghost predicate LongChunks(f: Key -> string, document: nat, count: nat) {
    forall i: nat | i < count :: |f((document, i))| >= SHORTEST_CHUNK
  }

  lemma {:induction false} RangeKeeps(m: Meaning, f: Key -> string, buffer: BufferState, before: seq<Key>,
                                      document: nat, first: nat, last: nat)
    requires KeptByAdd(m, f) && first <= last && LongChunks(f, document, last) && m(buffer, before)
    ensures m(AddedRange(f, buffer, document, first, last), before + Range(document, first, last))
    decreases last
  {
    if first == last {
      assert before + Range(document, first, last) == before;
    } else {
      RangeKeeps(m, f, buffer, before, document, first, last - 1);
      var state, keys, key := AddedRange(f, buffer, document, first, last - 1),
                              before + Range(document, first, last - 1), (document, last - 1);
      assert m(Added(state, key, f(key)), keys + [key]);
      assert before + Range(document, first, last) == keys + [key];
    }
  }

  lemma {:induction false} DocKeeps(m: Meaning, f: Key -> string, buffer: BufferState, before: seq<Key>,
                                    lines: seq<string>, document: nat, upTo: nat, query: string)
    requires KeptByAdd(m, f) && upTo <= |lines| && LongChunks(f, document, |lines|) && m(buffer, before)
    ensures m(DocState(f, buffer, lines, document, upTo, query), before + DocKeys(lines, document, upTo, query))
  {
    if upTo == 0 {
      assert before + DocKeys(lines, document, upTo, query) == before;
    } else {
      DocKeeps(m, f, buffer, before, lines, document, upTo - 1, query);
      var keys := DocKeys(lines, document, upTo - 1, query);
      LineKeeps(m, f, DocState(f, buffer, lines, document, upTo - 1, query), before + keys, lines, document,
                upTo - 1, query);
      ConcatAssociative(before, keys, LineKeys(lines, document, upTo - 1, query));
    }
  }

  lemma ConcatAssociative<T>(a: seq<T>, b: seq<T>, c: seq<T>)
    ensures a + (b + c) == a + b + c
  {
  }

  lemma LineKeeps(m: Meaning, f: Key -> string, buffer: BufferState, before: seq<Key>, lines: seq<string>,
                  document: nat, lineIndex: nat, query: string)
    requires KeptByAdd(m, f) && lineIndex < |lines| && LongChunks(f, document, |lines|) && m(buffer, before)
    ensures m(LineState(f, buffer, lines, document, lineIndex, query),
              before + LineKeys(lines, document, lineIndex, query))
  {
    if Mentions(lines[lineIndex], query) {
      RangeKeeps(m, f, buffer, before, document, WindowFirst(lineIndex), WindowLast(lineIndex, |lines|));
    } else {
      assert before + [] == before;
    }
  }

  /** Whatever each add keeps is true of the buffer of a whole scan and all keys it hit. */
  lemma {:induction false} ScanKeeps(m: Meaning, docs: Docs, rgAvailable: bool, files: seq<string>, upTo: nat,
                                     query: string)
    requires upTo <= |files| && KeptByAdd(m, Chunks(docs, files)) && m(EMPTY_BUFFER, [])
    requires forall i | 0 <= i < |files| :: LongChunks(Chunks(docs, files), i, |Lines(docs, files[i])|)
    ensures m(ScanState(docs, rgAvailable, files, upTo, query), AllKeys(docs, rgAvailable, files, upTo, query))
  {
    if upTo == 0 {
    } else {
      ScanKeeps(m, docs, rgAvailable, files, upTo - 1, query);
      var before := AllKeys(docs, rgAvailable, files, upTo - 1, query);
      var lines := Lines(docs, files[upTo - 1]);
      if Scanned(docs, rgAvailable, files[upTo - 1]) {
        DocKeeps(m, Chunks(docs, files), ScanState(docs, rgAvailable, files, upTo - 1, query), before, lines,
                 upTo - 1, |lines|, query);
      } else {
        assert before + [] == before;
      }
    }
  }

  /** The invariant of a buffer: it holds a prefix of the query's uncapped snippets, all of them or at
      least a full budget of characters. */
  ghost predicate ScanMeaning(f: Key -> string, buffer: BufferState, keys: seq<Key>) {
    && (forall k | k in keys :: |f(k)| >= SHORTEST_CHUNK)
    && BufferMeaning(f, buffer, Firsts(keys))
  }

  lemma AddKeepsMeaning(f: Key -> string, buffer: BufferState, keys: seq<Key>, key: Key)
    requires ScanMeaning(f, buffer, keys) && |f(key)| >= SHORTEST_CHUNK
    ensures ScanMeaning(f, Added(buffer, key, f(key)), keys + [key])
  {
    FirstsSnoc(keys, key);
    FirstsMeaning(keys);
    AddedMeans(f, buffer, Firsts(keys), key);
  }

  lemma ScanMeans(docs: Docs, rgAvailable: bool, files: seq<string>, query: string)
    requires forall i | 0 <= i < |files| :: LongChunks(Chunks(docs, files), i, |Lines(docs, files[i])|)
    ensures ScanMeaning(Chunks(docs, files), ScanState(docs, rgAvailable, files, |files|, query),
                        AllKeys(docs, rgAvailable, files, |files|, query))
  {
    var f := Chunks(docs, files);
    var m: Meaning := (buffer, keys) => ScanMeaning(f, buffer, keys);
    forall buffer, keys, key {:trigger m(Added(buffer, key, f(key)), keys + [key])}
      | m(buffer, keys) && |f(key)| >= SHORTEST_CHUNK
      ensures m(Added(buffer, key, f(key)), keys + [key])
    {
      AddKeepsMeaning(f, buffer, keys, key);
    }
    ScanKeeps(m, docs, rgAvailable, files, |files|, query);
  }

  // ---------------------------------------------------------------------------------
  // The whole search
  // ---------------------------------------------------------------------------------

  /** The first occurrences of every query's hits over all documents. */
  ghost function AllFirsts(docs: Docs, rgAvailable: bool, files: seq<string>, queries: seq<string>)
    : (firsts: seq<seq<Key>>)
    ensures |firsts| == |queries|
    ensures forall q | 0 <= q < |queries| ::
              firsts[q] == Firsts(AllKeys(docs, rgAvailable, files, |files|, queries[q]))
  {
    seq(|queries|, q requires 0 <= q < |queries| => Firsts(AllKeys(docs, rgAvailable, files, |files|, queries[q])))
  }

  ghost function ScanStates(docs: Docs, rgAvailable: bool, files: seq<string>, queries: seq<string>, upTo: nat)
    : (states: seq<BufferState>)
    requires upTo <= |files|
    ensures |states| == |queries|
    ensures forall q | 0 <= q < |queries| :: states[q] == ScanState(docs, rgAvailable, files, upTo, queries[q])
  {
    seq(|queries|, q requires 0 <= q < |queries| => ScanState(docs, rgAvailable, files, upTo, queries[q]))
  }

  /** The accumulator of the uncapped search: every query's first occurrences, in query order. */
  ghost function UncappedSearch(docs: Docs, rgAvailable: bool, files: seq<string>, queries: seq<string>)
    : AccumulatorState
  {
    TakeQueries(START, Uncapped(Chunks(docs, files), AllFirsts(docs, rgAvailable, files, queries))).acc
  }

  /** For every inventory of included documents and every query list: filling the accumulator from
      the buffers of the whole scan gives the uncapped search, within the character budget. */
  lemma CappedSearchIsUncapped(fn: Glob.Fnmatch, docs: Docs, rgAvailable: bool, files: seq<string>,
                               queries: seq<string>)
    requires FnmatchOnDocPatterns(fn) && forall i | 0 <= i < |files| :: Included(fn, files[i])
    ensures TakeQueries(START, Capped(ScanStates(docs, rgAvailable, files, queries, |files|))).acc
         == UncappedSearch(docs, rgAvailable, files, queries)
    ensures WithinBudget(UncappedSearch(docs, rgAvailable, files, queries), DOC_CONTEXT_BUDGET)
  {
    ScanStatesMean(fn, docs, rgAvailable, files, queries);
    CapsNeverChangeTheAnswer(Chunks(docs, files), ScanStates(docs, rgAvailable, files, queries, |files|),
                             AllFirsts(docs, rgAvailable, files, queries));
  }

  lemma ScanStatesMean(fn: Glob.Fnmatch, docs: Docs, rgAvailable: bool, files: seq<string>, queries: seq<string>)
    requires FnmatchOnDocPatterns(fn) && forall i | 0 <= i < |files| :: Included(fn, files[i])
    ensures var buffers, firsts := ScanStates(docs, rgAvailable, files, queries, |files|),
                                   AllFirsts(docs, rgAvailable, files, queries);
            forall q | 0 <= q < |queries| ::
              NoRepeats(firsts[q]) && BufferMeaning(Chunks(docs, files), buffers[q], firsts[q])
  {
    var f := Chunks(docs, files);
    var buffers := ScanStates(docs, rgAvailable, files, queries, |files|);
    var firsts := AllFirsts(docs, rgAvailable, files, queries);
    forall i | 0 <= i < |files| ensures LongChunks(f, i, |Lines(docs, files[i])|) {
      forall j: nat | j < |Lines(docs, files[i])| ensures |f((i, j))| >= SHORTEST_CHUNK {
        ChunkLength(fn, docs, files, (i, j));
      }
    }
    forall q | 0 <= q < |queries| ensures NoRepeats(firsts[q]) && BufferMeaning(f, buffers[q], firsts[q]) {
      ScanMeans(docs, rgAvailable, files, queries[q]);
      FirstsMeaning(AllKeys(docs, rgAvailable, files, |files|, queries[q]));
    }
  }

  /** A saturated buffer of the first query leaves something in the accumulator, so the fallback is
      not reached. */
  lemma SaturatedIsNotEmpty(f: Key -> string, buffers: seq<BufferState>, firsts: seq<seq<Key>>)
    requires |buffers| == |firsts| > 0 && buffers[0].saturated
    requires forall q | 0 <= q < |firsts| :: NoRepeats(firsts[q]) && BufferMeaning(f, buffers[q], firsts[q])
    ensures TakeQueries(START, Capped(buffers)).acc.chunks != []
  {
    var lists := Capped(buffers);
    var one := lists[..1];
    assert one[..0] == [] && one[0] == lists[0];
    TakeAllInvariant(f, START, firsts[0][..|buffers[0].matches|]);
    assert TakeQueries(START, lists[..1]) == TakeAll(START, lists[0]);
    assert buffers[0].matches != [] by {
      assert firsts[0][..0] == [];
    }
    assert TakeQueries(START, lists[..1]).acc.chunks != [] by {
      assert buffers[0].matches[0].0 in firsts[0][..|buffers[0].matches|];
    }
    TakeQueriesKeepsChunks(lists, 1, |lists|);
    assert lists[..|lists|] == lists;
  }

  lemma {:induction false} TakeQueriesKeepsChunks(lists: seq<seq<(Key, string)>>, some: nat, all: nat)
    requires some <= all <= |lists| && TakeQueries(START, lists[..some]).acc.chunks != []
    ensures TakeQueries(START, lists[..all]).acc.chunks != []
  {
    if some >= all {
    } else {
      TakeQueriesKeepsChunks(lists, some, all - 1);
      TakeLastQuery(START, lists[..all], lists[..all - 1]);
      TakeAllKeepsChunks(TakeQueries(START, lists[..all - 1]), lists[all - 1]);
    }
  }

  lemma {:induction false} TakeAllKeepsChunks(st: Take, items: seq<(Key, string)>)
    requires st.acc.chunks != []
    ensures TakeAll(st, items).acc.chunks != []
  {
    if items == [] {
    } else {
      TakeAllKeepsChunks(st, items[..|items| - 1]);
    }
  }
}
