/** What the documentation search shows, told from the documents and the queries alone: which lines are
    hits, in which order they come, how each is printed, and where the text stops. */
module DocsMeaning {

  import opened DocsSearch
  import opened DocsFallback
  import opened Strings

  // ---------------------------------------------------------------------------------
  // One line
  // ---------------------------------------------------------------------------------

  /** The number a string of digits stands for. */
  ghost function Value(digits: string): int {
    if digits == "" then 0
    else 10 * Value(digits[..|digits| - 1]) + (digits[|digits| - 1] as int - '0' as int)
  }

  /** The usual way to write n: digits only, no leading zero. */
  ghost predicate Numeral(digits: string, n: int) {
    && digits != ""
    && (forall i | 0 <= i < |digits| :: '0' <= digits[i] <= '9')
    && (digits[0] == '0' ==> |digits| == 1)
    && Value(digits) == n
  }

  lemma {:induction false} DecimalMeans(n: nat)
    ensures Numeral(Decimal(n), n)
  {
    if n < 10 {
      assert Decimal(n)[..0] == "" && Value("") == 0;
    } else {
      DecimalMeans(n / 10);
      var init := Decimal(n / 10);
      assert Decimal(n)[..|Decimal(n)| - 1] == init;
      if init[0] == '0' {
        assert init[..0] == "" && Value("") == 0;
      }
    }
  }

  /** `chunk` is how this line of this document is printed: its path, its number from 1, and the line. */
  ghost predicate Shows(docs: Docs, files: seq<string>, key: Key, chunk: string) {
    && key.0 < |files|
    && var lines := docs.splitLines(docs.content(files[key.0]));
    && key.1 < |lines|
    && exists digits ::
         Numeral(digits, key.1 + 1) && chunk == files[key.0] + ":" + digits + ": " + lines[key.1]
  }

  /** For every line of every document: the rendered chunk is that, in one way only. */
  lemma ChunkShows(docs: Docs, files: seq<string>, key: Key)
    requires key.0 < |files| && key.1 < |docs.splitLines(docs.content(files[key.0]))|
    ensures Shows(docs, files, key, Chunk(docs, files, key))
    ensures |Chunk(docs, files, key)| >= 4
  {
    DecimalMeans(key.1 + 1);
  }

  /** The query is part of the line. */
  ghost predicate PartOf(query: string, line: string) {
    exists before, after :: line == before + query + after
  }

  lemma MentionsMeans(line: string, query: string)
    ensures Mentions(line, query) <==> PartOf(query, line)
  {
    if Mentions(line, query) {
      var i: nat :| i <= |line| && query <= line[i..];
      PartAt(line, query, i);
    }
    if PartOf(query, line) {
      var before, after :| line == before + query + after;
      AfterPart(before, query, after);
    }
  }

  lemma PartAt(line: string, query: string, i: nat)
    requires i <= |line| && query <= line[i..]
    ensures PartOf(query, line)
  {
    assert line == line[..i] + query + line[i..][|query|..];
  }

  lemma AfterPart(before: string, query: string, after: string)
    ensures |before| <= |before + query + after| && query <= (before + query + after)[|before|..]
  {
    assert (before + query + after)[|before|..] == query + after;
  }

  // ---------------------------------------------------------------------------------
  // The hits of one query
  // ---------------------------------------------------------------------------------

  /** The key is shown for the query: its document is scanned, and the query is part of a line at most two
      lines away. */
  ghost predicate Hit(docs: Docs, rgAvailable: bool, files: seq<string>, query: string, key: Key) {
    && key.0 < |files|
    && !(rgAvailable && docs.skipped(files[key.0]))
    && HitIn(docs.splitLines(docs.content(files[key.0])), query, key.1)
  }

  ghost predicate HitIn(lines: seq<string>, query: string, index: nat) {
    index < |lines| && Near(lines, |lines|, query, index)
  }

  /** The query is part of one of the first `upTo` lines that is at most two lines away. */
  ghost predicate Near(lines: seq<string>, upTo: nat, query: string, index: nat)
    requires upTo <= |lines|
  {
    exists j: nat | j < upTo && j - 2 <= index <= j + 2 :: PartOf(query, lines[j])
  }

  lemma NearNext(lines: seq<string>, upTo: nat, query: string, index: nat)
    requires upTo < |lines|
    ensures Near(lines, upTo + 1, query, index) <==>
            Near(lines, upTo, query, index) || (upTo - 2 <= index <= upTo + 2 && PartOf(query, lines[upTo]))
  {
  }

  /** Document order. */
  ghost predicate Precedes(a: Key, b: Key) {
    a.0 < b.0 || (a.0 == b.0 && a.1 < b.1)
  }

  lemma LineKeysMean(lines: seq<string>, document: nat, lineIndex: nat, query: string, key: Key)
    requires lineIndex < |lines|
    ensures key in LineKeys(lines, document, lineIndex, query) <==>
            && key.0 == document && key.1 < |lines|
            && lineIndex - 2 <= key.1 <= lineIndex + 2 && PartOf(query, lines[lineIndex])
  {
    MentionsMeans(lines[lineIndex], query);
    RangeMeans(document, WindowFirst(lineIndex), WindowLast(lineIndex, |lines|), key);
  }

  lemma RangeMeans(document: nat, first: nat, last: nat, key: Key)
    requires first <= last
    ensures key in Range(document, first, last) <==> key.0 == document && first <= key.1 < last
  {
    if key.0 == document && first <= key.1 < last {
      assert Range(document, first, last)[key.1 - first] == key;
    }
  }

  lemma {:induction false} DocKeysMean(lines: seq<string>, document: nat, upTo: nat, query: string, key: Key)
    requires upTo <= |lines|
    ensures key in DocKeys(lines, document, upTo, query) <==>
            key.0 == document && key.1 < |lines| && Near(lines, upTo, query, key.1)
  {
    if upTo == 0 {
    } else {
      DocKeysMean(lines, document, upTo - 1, query, key);
      LineKeysMean(lines, document, upTo - 1, query, key);
      NearNext(lines, upTo - 1, query, key.1);
    }
  }

  lemma FileKeysMean(docs: Docs, rgAvailable: bool, files: seq<string>, document: nat, query: string, key: Key)
    requires document < |files|
    ensures key in FileKeys(docs, rgAvailable, files, document, query) <==>
            key.0 == document && Hit(docs, rgAvailable, files, query, key)
  {
    var lines := Lines(docs, files[document]);
    DocKeysMean(lines, document, |lines|, query, key);
  }

  /** The keys of a scan are exactly the hits. */
  lemma {:induction false} AllKeysMean(docs: Docs, rgAvailable: bool, files: seq<string>, upTo: nat, query: string,
                                       key: Key)
    requires upTo <= |files|
    ensures key in AllKeys(docs, rgAvailable, files, upTo, query) <==>
            key.0 < upTo && Hit(docs, rgAvailable, files, query, key)
  {
    if upTo == 0 {
    } else {
      AllKeysMean(docs, rgAvailable, files, upTo - 1, query, key);
      FileKeysMean(docs, rgAvailable, files, upTo - 1, query, key);
    }
  }

  // Whatever adding a key keeps, if the key is there already or comes after all that are there, holds of a
  // whole scan.

  type Order = (Key, Key) -> bool
  type Property = seq<Key> -> bool

  ghost predicate GoesAfter(order: Order, keys: seq<Key>, key: Key) {
    key in keys || forall k | k in keys :: order(k, key)
  }

  ghost predicate KeptInOrder(m: Property, order: Order) {
    forall keys, key {:trigger m(keys + [key])} :: m(keys) && GoesAfter(order, keys, key) ==> m(keys + [key])
  }

  ghost predicate Arranged(order: Order, keys: seq<Key>) {
    forall i, j | 0 <= i < j < |keys| :: order(keys[i], keys[j])
  }

  ghost predicate FirstsArranged(order: Order, keys: seq<Key>) {
    Arranged(order, Firsts(keys))
  }

  lemma FirstsArrangedSnoc(order: Order, keys: seq<Key>, key: Key)
    requires FirstsArranged(order, keys) && GoesAfter(order, keys, key)
    ensures FirstsArranged(order, keys + [key])
  {
    FirstsMeaning(keys);
    FirstsSnoc(keys, key);
  }

  /** That the first occurrences are arranged is such a property. */
  lemma ArrangedIsKept(order: Order) returns (m: Property)
    ensures KeptInOrder(m, order) && m([])
    ensures forall keys :: m(keys) <==> FirstsArranged(order, keys)
  {
    m := keys => FirstsArranged(order, keys);
    forall keys, key {:trigger m(keys + [key])} | m(keys) && GoesAfter(order, keys, key) ensures m(keys + [key]) {
      FirstsArrangedSnoc(order, keys, key);
    }
  }

  lemma {:induction false} RangeInOrder(m: Property, keys: seq<Key>, document: nat, first: nat, last: nat)
    requires KeptInOrder(m, Precedes) && first <= last && m(keys)
    requires forall i: nat | first <= i < last :: GoesAfter(Precedes, keys, (document, i))
    ensures m(keys + Range(document, first, last))
    decreases last
  {
    if first == last {
      assert keys + Range(document, first, last) == keys;
    } else {
      RangeInOrder(m, keys, document, first, last - 1);
      var before := keys + Range(document, first, last - 1);
      assert GoesAfter(Precedes, keys, (document, last - 1));
      assert GoesAfter(Precedes, before, (document, last - 1));
      assert m(before + [(document, last - 1)]);
      assert keys + Range(document, first, last) == before + [(document, last - 1)];
    }
  }

  /** A window reaches back at most to lines that the windows before it showed already. */
  lemma LineInOrder(m: Property, before: seq<Key>, lines: seq<string>, document: nat, lineIndex: nat, query: string)
    requires KeptInOrder(m, Precedes) && lineIndex < |lines| && forall k | k in before :: k.0 < document
    requires m(before + DocKeys(lines, document, lineIndex, query))
    ensures m(before + DocKeys(lines, document, lineIndex, query) + LineKeys(lines, document, lineIndex, query))
  {
    var keys := before + DocKeys(lines, document, lineIndex, query);
    if Mentions(lines[lineIndex], query) {
      var first, last := WindowFirst(lineIndex), WindowLast(lineIndex, |lines|);
      forall i: nat | first <= i < last ensures GoesAfter(Precedes, keys, (document, i)) {
        WindowGoesAfter(before, lines, document, lineIndex, query, i);
      }
      RangeInOrder(m, keys, document, first, last);
    } else {
      assert keys + [] == keys;
    }
  }

  lemma WindowGoesAfter(before: seq<Key>, lines: seq<string>, document: nat, lineIndex: nat, query: string, i: nat)
    requires lineIndex < |lines| && forall k | k in before :: k.0 < document
    requires WindowFirst(lineIndex) <= i < WindowLast(lineIndex, |lines|)
    ensures GoesAfter(Precedes, before + DocKeys(lines, document, lineIndex, query), (document, i))
  {
    var keys := before + DocKeys(lines, document, lineIndex, query);
    DocKeysMean(lines, document, lineIndex, query, (document, i));
    forall k | k in keys && (document, i) !in keys ensures Precedes(k, (document, i)) {
      DocKeysMean(lines, document, lineIndex, query, k);
    }
  }

  lemma DocKeysNext(before: seq<Key>, lines: seq<string>, document: nat, upTo: nat, query: string)
    requires 0 < upTo <= |lines|
    ensures before + DocKeys(lines, document, upTo, query) ==
            before + DocKeys(lines, document, upTo - 1, query) + LineKeys(lines, document, upTo - 1, query)
  {
    ConcatAssociative(before, DocKeys(lines, document, upTo - 1, query), LineKeys(lines, document, upTo - 1, query));
  }

  lemma {:induction false} DocInOrder(m: Property, before: seq<Key>, lines: seq<string>, document: nat, upTo: nat,
                                      query: string)
    requires KeptInOrder(m, Precedes) && upTo <= |lines| && m(before) && forall k | k in before :: k.0 < document
    ensures m(before + DocKeys(lines, document, upTo, query))
  {
    if upTo == 0 {
      assert before + [] == before;
    } else {
      DocInOrder(m, before, lines, document, upTo - 1, query);
      LineInOrder(m, before, lines, document, upTo - 1, query);
      DocKeysNext(before, lines, document, upTo, query);
    }
  }

  lemma AllKeysBelow(docs: Docs, rgAvailable: bool, files: seq<string>, upTo: nat, query: string)
    requires upTo <= |files|
    ensures forall k | k in AllKeys(docs, rgAvailable, files, upTo, query) :: k.0 < upTo
  {
    forall k | k in AllKeys(docs, rgAvailable, files, upTo, query) ensures k.0 < upTo {
      AllKeysMean(docs, rgAvailable, files, upTo, query, k);
    }
  }

  lemma FileInOrder(m: Property, before: seq<Key>, docs: Docs, rgAvailable: bool, files: seq<string>, document: nat,
                    query: string)
    requires KeptInOrder(m, Precedes) && document < |files|
    requires m(before) && before == AllKeys(docs, rgAvailable, files, document, query)
    ensures m(AllKeys(docs, rgAvailable, files, document + 1, query))
  {
    var lines := Lines(docs, files[document]);
    AllKeysBelow(docs, rgAvailable, files, document, query);
    if Scanned(docs, rgAvailable, files[document]) {
      DocInOrder(m, before, lines, document, |lines|, query);
    } else {
      assert before + [] == before;
    }
  }

  lemma {:induction false} ScanInOrder(m: Property, docs: Docs, rgAvailable: bool, files: seq<string>, upTo: nat,
                                       query: string)
    requires KeptInOrder(m, Precedes) && m([]) && upTo <= |files|
    ensures m(AllKeys(docs, rgAvailable, files, upTo, query))
  {
    if upTo == 0 {
    } else {
      ScanInOrder(m, docs, rgAvailable, files, upTo - 1, query);
      FileInOrder(m, AllKeys(docs, rgAvailable, files, upTo - 1, query), docs, rgAvailable, files, upTo - 1, query);
    }
  }

  /** Exactly the hits, each once, in document order. */
  ghost predicate HitList(docs: Docs, rgAvailable: bool, files: seq<string>, query: string, keys: seq<Key>) {
    && Arranged(Precedes, keys)
    && forall key :: key in keys <==> Hit(docs, rgAvailable, files, query, key)
  }

  /** For all documents and every query: the uncapped list of a query is exactly its hits, each once, in
      document order. */
  lemma HitsInOrder(docs: Docs, rgAvailable: bool, files: seq<string>, query: string)
    ensures HitList(docs, rgAvailable, files, query, Firsts(AllKeys(docs, rgAvailable, files, |files|, query)))
  {
    var all := AllKeys(docs, rgAvailable, files, |files|, query);
    var m := ArrangedIsKept(Precedes);
    ScanInOrder(m, docs, rgAvailable, files, |files|, query);
    assert FirstsArranged(Precedes, all);
    FirstsMeaning(all);
    forall key ensures key in all <==> Hit(docs, rgAvailable, files, query, key) {
      AllKeysMean(docs, rgAvailable, files, |files|, query, key);
    }
  }

  // ---------------------------------------------------------------------------------
  // The hits of all queries
  // ---------------------------------------------------------------------------------

  ghost function Flat(lists: seq<seq<Key>>): seq<Key> {
    if lists == [] then [] else Flat(lists[..|lists| - 1]) + lists[|lists| - 1]
  }

  /** a comes before b: the first list with one of the two has a, and if it has both, a is before b. */
  ghost predicate Leads(lists: seq<seq<Key>>, q: nat, a: Key, b: Key)
    requires q < |lists|
  {
    && a in lists[q]
    && (b in lists[q] ==> Precedes(a, b))
    && forall p | 0 <= p < q :: a !in lists[p] && b !in lists[p]
  }

  ghost predicate Comes(lists: seq<seq<Key>>, a: Key, b: Key) {
    exists q: nat | q < |lists| :: Leads(lists, q, a, b)
  }

  ghost function ListOrder(lists: seq<seq<Key>>): Order {
    (a, b) => Comes(lists, a, b)
  }

  lemma {:induction false} FlatMeans(lists: seq<seq<Key>>, key: Key)
    ensures key in Flat(lists) <==> exists q: nat | q < |lists| :: key in lists[q]
  {
    if lists == [] {
    } else {
      FlatMeans(lists[..|lists| - 1], key);
      if key in Flat(lists[..|lists| - 1]) {
        var q: nat :| q < |lists| - 1 && key in lists[..|lists| - 1][q];
        assert key in lists[q];
      }
      if q: nat :| q < |lists| - 1 && key in lists[q] {
        assert key in lists[..|lists| - 1][q];
      }
    }
  }

  lemma {:induction false} FirstList(lists: seq<seq<Key>>, n: nat, key: Key) returns (q: nat)
    requires n <= |lists| && key in Flat(lists[..n])
    ensures q < n && key in lists[q] && forall p | 0 <= p < q :: key !in lists[p]
  {
    if n == 0 {
      assert false;
    } else {
      FlatSnoc(lists, n - 1);
      if key in Flat(lists[..n - 1]) {
        q := FirstList(lists, n - 1, key);
      } else {
        q := n - 1;
        NotInFlat(lists, n - 1, key);
      }
    }
  }

  lemma FlatSnoc(lists: seq<seq<Key>>, n: nat)
    requires n < |lists|
    ensures Flat(lists[..n + 1]) == Flat(lists[..n]) + lists[n]
  {
    assert lists[..n + 1][..n] == lists[..n];
  }

  lemma NotInFlat(lists: seq<seq<Key>>, n: nat, key: Key)
    requires n <= |lists| && key !in Flat(lists[..n])
    ensures forall p | 0 <= p < n :: key !in lists[p]
  {
    FlatMeans(lists[..n], key);
    forall p | 0 <= p < n ensures key !in lists[p] {
      assert lists[..n][p] == lists[p];
    }
  }

  /** A key that is new in list n comes after everything taken so far. */
  lemma NewKeyComesLast(lists: seq<seq<Key>>, n: nat, m: nat)
    requires n < |lists| && m < |lists[n]| && Arranged(Precedes, lists[n])
    ensures GoesAfter(ListOrder(lists), Flat(lists[..n]) + lists[n][..m], lists[n][m])
  {
    var key, before := lists[n][m], Flat(lists[..n]) + lists[n][..m];
    forall earlier | earlier in before && key !in before ensures Comes(lists, earlier, key) {
      NotInFlat(lists, n, key);
      if earlier in Flat(lists[..n]) {
        var q := FirstList(lists, n, earlier);
        assert Leads(lists, q, earlier, key);
      } else {
        NotInFlat(lists, n, earlier);
        assert Leads(lists, n, earlier, key);
      }
    }
  }

  lemma {:induction false} ListInOrder(p: Property, lists: seq<seq<Key>>, n: nat, m: nat)
    requires KeptInOrder(p, ListOrder(lists)) && n < |lists| && m <= |lists[n]| && Arranged(Precedes, lists[n])
    requires p(Flat(lists[..n]))
    ensures p(Flat(lists[..n]) + lists[n][..m])
  {
    if m == 0 {
      assert Flat(lists[..n]) + lists[n][..0] == Flat(lists[..n]);
    } else {
      ListInOrder(p, lists, n, m - 1);
      NewKeyComesLast(lists, n, m - 1);
      var before := Flat(lists[..n]) + lists[n][..m - 1];
      assert p(before + [lists[n][m - 1]]);
      assert Flat(lists[..n]) + lists[n][..m] == before + [lists[n][m - 1]];
    }
  }

  lemma {:induction false} FlatInOrder(p: Property, lists: seq<seq<Key>>, n: nat)
    requires KeptInOrder(p, ListOrder(lists)) && p([])
    requires n <= |lists| && forall q | 0 <= q < |lists| :: Arranged(Precedes, lists[q])
    ensures p(Flat(lists[..n]))
  {
    if n == 0 {
    } else {
      FlatInOrder(p, lists, n - 1);
      FlatSnoc(lists, n - 1);
      ListInOrder(p, lists, n - 1, |lists[n - 1]|);
      assert lists[n - 1][..|lists[n - 1]|] == lists[n - 1];
    }
  }

  /** The hits of all queries, each once: those of the first query in document order, then what the second
      one adds, and so on. */
  ghost predicate Ranked(docs: Docs, rgAvailable: bool, files: seq<string>, queries: seq<string>, keys: seq<Key>) {
    && (forall key :: key in keys <==> exists q: nat | q < |queries| :: Hit(docs, rgAvailable, files, queries[q], key))
    && forall i, j | 0 <= i < j < |keys| :: Outranks(docs, rgAvailable, files, queries, keys[i], keys[j])
  }

  /** The first query that hits one of the two hits a, and if it hits b too, a comes first in the documents. */
  ghost predicate Outranks(docs: Docs, rgAvailable: bool, files: seq<string>, queries: seq<string>, a: Key, b: Key) {
    exists q: nat | q < |queries| ::
      && Hit(docs, rgAvailable, files, queries[q], a)
      && (Hit(docs, rgAvailable, files, queries[q], b) ==> Precedes(a, b))
      && NotHitBefore(docs, rgAvailable, files, queries, q, a)
      && NotHitBefore(docs, rgAvailable, files, queries, q, b)
  }

  ghost predicate NotHitBefore(docs: Docs, rgAvailable: bool, files: seq<string>, queries: seq<string>, q: nat,
                               key: Key)
    requires q <= |queries|
  {
    forall p | 0 <= p < q :: !Hit(docs, rgAvailable, files, queries[p], key)
  }

  /** The lists are the hits of each query, in document order. */
  ghost predicate HitLists(docs: Docs, rgAvailable: bool, files: seq<string>, queries: seq<string>,
                           lists: seq<seq<Key>>) {
    && |lists| == |queries|
    && forall q | 0 <= q < |lists| :: HitList(docs, rgAvailable, files, queries[q], lists[q])
  }

  lemma ComesOutranks(docs: Docs, rgAvailable: bool, files: seq<string>, queries: seq<string>, lists: seq<seq<Key>>,
                      a: Key, b: Key)
    requires HitLists(docs, rgAvailable, files, queries, lists) && Comes(lists, a, b)
    ensures Outranks(docs, rgAvailable, files, queries, a, b)
  {
    var q: nat :| q < |lists| && Leads(lists, q, a, b);
    assert HitList(docs, rgAvailable, files, queries[q], lists[q]);
    forall p | 0 <= p < q
      ensures !Hit(docs, rgAvailable, files, queries[p], a) && !Hit(docs, rgAvailable, files, queries[p], b)
    {
      assert HitList(docs, rgAvailable, files, queries[p], lists[p]);
    }
  }

  lemma FlatIsHit(docs: Docs, rgAvailable: bool, files: seq<string>, queries: seq<string>, lists: seq<seq<Key>>,
                  key: Key)
    requires HitLists(docs, rgAvailable, files, queries, lists)
    ensures key in Flat(lists) <==> exists q: nat | q < |queries| :: Hit(docs, rgAvailable, files, queries[q], key)
  {
    FlatMeans(lists, key);
    if q: nat :| q < |queries| && Hit(docs, rgAvailable, files, queries[q], key) {
      assert HitList(docs, rgAvailable, files, queries[q], lists[q]);
    }
  }

  lemma FirstsOfFlat(lists: seq<seq<Key>>)
    requires forall q | 0 <= q < |lists| :: Arranged(Precedes, lists[q])
    ensures Arranged(ListOrder(lists), Firsts(Flat(lists)))
  {
    var p := ArrangedIsKept(ListOrder(lists));
    FlatInOrder(p, lists, |lists|);
    assert lists[..|lists|] == lists;
    assert FirstsArranged(ListOrder(lists), Flat(lists));
  }

  /** The keys the uncapped search offers are the ranked hits. */
  lemma OfferedIsRanked(docs: Docs, rgAvailable: bool, files: seq<string>, queries: seq<string>)
    ensures Ranked(docs, rgAvailable, files, queries, Firsts(Flat(AllFirsts(docs, rgAvailable, files, queries))))
  {
    var lists := AllFirsts(docs, rgAvailable, files, queries);
    AllFirstsMean(docs, rgAvailable, files, queries);
    FirstsOfFlat(lists);
    FirstsMeaning(Flat(lists));
    RankedIs(docs, rgAvailable, files, queries, lists, Firsts(Flat(lists)));
  }

  lemma RankedIs(docs: Docs, rgAvailable: bool, files: seq<string>, queries: seq<string>, lists: seq<seq<Key>>,
                 keys: seq<Key>)
    requires HitLists(docs, rgAvailable, files, queries, lists)
    requires Arranged(ListOrder(lists), keys) && forall key :: key in keys <==> key in Flat(lists)
    ensures Ranked(docs, rgAvailable, files, queries, keys)
  {
    forall key
      ensures key in keys <==> exists q: nat | q < |queries| :: Hit(docs, rgAvailable, files, queries[q], key)
    {
      FlatIsHit(docs, rgAvailable, files, queries, lists, key);
    }
    forall i, j | 0 <= i < j < |keys| ensures Outranks(docs, rgAvailable, files, queries, keys[i], keys[j]) {
      assert ListOrder(lists)(keys[i], keys[j]);
      ComesOutranks(docs, rgAvailable, files, queries, lists, keys[i], keys[j]);
    }
  }

  lemma AllFirstsMean(docs: Docs, rgAvailable: bool, files: seq<string>, queries: seq<string>)
    ensures HitLists(docs, rgAvailable, files, queries, AllFirsts(docs, rgAvailable, files, queries))
  {
    var lists := AllFirsts(docs, rgAvailable, files, queries);
    forall q | 0 <= q < |lists| ensures HitList(docs, rgAvailable, files, queries[q], lists[q]) {
      HitsInOrder(docs, rgAvailable, files, queries[q]);
    }
  }

  // ---------------------------------------------------------------------------------
  // Where the text stops
  // ---------------------------------------------------------------------------------

  /** The first n chunks are the last that fit in the budget, one per line; a very first chunk that is too
      long is cut instead of dropped. */
  ghost predicate Fills(chunks: seq<string>, n: nat, shown: seq<string>) {
    && n <= |chunks|
    && |Join(chunks[..n], "\n")| <= DOC_CONTEXT_BUDGET
    && (n < |chunks| ==> |Join(chunks[..n + 1], "\n")| > DOC_CONTEXT_BUDGET)
    && shown == if n == 0 && chunks != [] then [chunks[0][..DOC_CONTEXT_BUDGET]] else chunks[..n]
  }

  ghost function Rendered(f: Key -> string, keys: seq<Key>): (chunks: seq<string>)
    ensures |chunks| == |keys|
    ensures forall i | 0 <= i < |keys| :: chunks[i] == f(keys[i])
  {
    seq(|keys|, i requires 0 <= i < |keys| => f(keys[i]))
  }

  /** The taking after it was offered keys whose first occurrences are `keys`. */
  ghost predicate Took(f: Key -> string, keys: seq<Key>, st: Take, n: nat) {
    && Fills(Rendered(f, keys), n, st.acc.chunks)
    && (st.open <==> n == |keys|)
    && st.taken == (if st.open then keys else keys[..n + 1])
    && st.acc.size == |Join(st.acc.chunks, "\n")|
  }

  lemma RenderedSnoc(f: Key -> string, keys: seq<Key>, key: Key)
    ensures Rendered(f, keys + [key]) == Rendered(f, keys) + [f(key)]
  {
  }

  /** One more chunk, offered while everything fits. */
  lemma FillsNext(chunks: seq<string>, chunk: string, acc: AccumulatorState) returns (m: nat)
    requires Fills(chunks, |chunks|, acc.chunks) && acc.size == |Join(chunks, "\n")| && |chunk| >= 1
    ensures var (after, ok) := Appended(acc, chunk, DOC_CONTEXT_BUDGET);
            && Fills(chunks + [chunk], m, after.chunks) && after.size == |Join(after.chunks, "\n")|
            && m == if ok then |chunks| + 1 else |chunks|
  {
    var longer := chunks + [chunk];
    assert chunks[..|chunks|] == chunks == acc.chunks;
    assert longer[..|chunks|] == chunks && longer[..|chunks| + 1] == longer;
    JoinSnoc(chunks, chunk, "\n");
    AppendedWithinBudget(acc, chunk, DOC_CONTEXT_BUDGET);
    m := if Appended(acc, chunk, DOC_CONTEXT_BUDGET).1 then |chunks| + 1 else |chunks|;
  }

  lemma TookNew(f: Key -> string, keys: seq<Key>, key: Key, st: Take, n: nat) returns (m: nat)
    requires Took(f, keys, st, n) && key !in keys && |f(key)| >= 1
    ensures Took(f, keys + [key], TakeOne(st, (key, f(key))), m)
  {
    var chunks := Rendered(f, keys);
    RenderedSnoc(f, keys, key);
    if st.open {
      assert chunks[..n] == chunks && st.acc.chunks == chunks;
      m := FillsNext(chunks, f(key), st.acc);
      assert (keys + [key])[..n + 1] == keys + [key];
    } else {
      var longer := chunks + [f(key)];
      assert longer[..n] == chunks[..n] && longer[..n + 1] == chunks[..n + 1];
      assert (keys + [key])[..n + 1] == keys[..n + 1];
      m := n;
    }
  }

  lemma {:induction false} TakeAllMeans(f: Key -> string, keys: seq<Key>) returns (n: nat)
    requires forall k | k in keys :: |f(k)| >= 1
    ensures Took(f, Firsts(keys), TakeAll(START, Items(f, keys)), n)
  {
    if keys == [] {
      n := 0;
    } else {
      var init, last := keys[..|keys| - 1], keys[|keys| - 1];
      assert keys == init + [last] && Items(f, keys)[..|keys| - 1] == Items(f, init);
      n := TakeAllMeans(f, init);
      FirstsSnoc(init, last);
      var st := TakeAll(START, Items(f, init));
      if last !in Firsts(init) {
        n := TookNew(f, Firsts(init), last, st, n);
      }
    }
  }

  lemma {:induction false} TakeQueriesIsFlat(f: Key -> string, lists: seq<seq<Key>>)
    ensures TakeQueries(START, Uncapped(f, lists)) == TakeAll(START, Items(f, Flat(lists)))
  {
    if lists == [] {
    } else {
      var init, last := lists[..|lists| - 1], lists[|lists| - 1];
      TakeQueriesIsFlat(f, init);
      TakeLastQuery(START, Uncapped(f, lists), Uncapped(f, init));
      ItemsConcat(f, Flat(init), last);
      TakeAllConcat(START, Items(f, Flat(init)), Items(f, last));
    }
  }

  /** `shown` are the chunks of the ranked hits, as many as the budget takes. */
  ghost predicate ShowsHits(docs: Docs, rgAvailable: bool, files: seq<string>, queries: seq<string>,
                            shown: seq<string>) {
    exists keys, chunks, n ::
      && Ranked(docs, rgAvailable, files, queries, keys)
      && |chunks| == |keys| && (forall i | 0 <= i < |keys| :: Shows(docs, files, keys[i], chunks[i]))
      && Fills(chunks, n, shown)
  }

  ghost predicate NoHit(docs: Docs, rgAvailable: bool, files: seq<string>, queries: seq<string>) {
    forall q: nat, key | q < |queries| :: !Hit(docs, rgAvailable, files, queries[q], key)
  }

  /** For all documents and queries: what the uncapped search accumulates. */
  lemma UncappedSearchMeans(docs: Docs, rgAvailable: bool, files: seq<string>, queries: seq<string>)
    ensures var shown := UncappedSearch(docs, rgAvailable, files, queries).chunks;
            && ShowsHits(docs, rgAvailable, files, queries, shown)
            && (shown == [] <==> NoHit(docs, rgAvailable, files, queries))
  {
    var f, lists := Chunks(docs, files), AllFirsts(docs, rgAvailable, files, queries);
    var keys := Firsts(Flat(lists));
    OfferedIsRanked(docs, rgAvailable, files, queries);
    RankedShow(docs, rgAvailable, files, queries, keys);
    FirstsMeaning(Flat(lists));
    var n := TakeAllMeans(f, Flat(lists));
    TakeQueriesIsFlat(f, lists);
    RankedEmpty(docs, rgAvailable, files, queries, keys);
    assert Fills(Rendered(f, keys), n, UncappedSearch(docs, rgAvailable, files, queries).chunks);
  }

  lemma RankedEmpty(docs: Docs, rgAvailable: bool, files: seq<string>, queries: seq<string>, keys: seq<Key>)
    requires Ranked(docs, rgAvailable, files, queries, keys)
    ensures keys == [] <==> NoHit(docs, rgAvailable, files, queries)
  {
    if keys != [] {
      assert keys[0] in keys;
    }
    forall q: nat, key | q < |queries| && keys == [] ensures !Hit(docs, rgAvailable, files, queries[q], key) {
      assert key !in keys;
    }
  }

  lemma RankedShow(docs: Docs, rgAvailable: bool, files: seq<string>, queries: seq<string>, keys: seq<Key>)
    requires Ranked(docs, rgAvailable, files, queries, keys)
    ensures var chunks := Rendered(Chunks(docs, files), keys);
            forall i | 0 <= i < |keys| :: Shows(docs, files, keys[i], chunks[i])
    ensures forall k | k in keys :: |Chunks(docs, files)(k)| >= 1
  {
    var f := Chunks(docs, files);
    forall i | 0 <= i < |keys| ensures Shows(docs, files, keys[i], Rendered(f, keys)[i]) {
      HitShows(docs, rgAvailable, files, queries, keys, i);
    }
    forall k | k in keys ensures |f(k)| >= 1 {
      var i :| 0 <= i < |keys| && keys[i] == k;
      HitShows(docs, rgAvailable, files, queries, keys, i);
    }
  }

  lemma HitShows(docs: Docs, rgAvailable: bool, files: seq<string>, queries: seq<string>, keys: seq<Key>, i: nat)
    requires Ranked(docs, rgAvailable, files, queries, keys) && i < |keys|
    ensures Shows(docs, files, keys[i], Chunk(docs, files, keys[i])) && |Chunk(docs, files, keys[i])| >= 1
  {
    assert keys[i] in keys;
    var q: nat :| q < |queries| && Hit(docs, rgAvailable, files, queries[q], keys[i]);
    ChunkShows(docs, files, keys[i]);
  }

  // ---------------------------------------------------------------------------------
  // The whole text
  // ---------------------------------------------------------------------------------

  /** What the search shows, without caps, early exit or kept texts. */
  ghost predicate SearchText(docs: Docs, rgAvailable: bool, files: seq<string>, queries: seq<string>, text: string) {
    if files == [] then text == ""
    else if queries == [] then FallbackText(Blocks(files, docs.content), text)
    else
      var acc := UncappedSearch(docs, rgAvailable, files, queries);
      if acc.chunks != [] then text == Join(acc.chunks, "\n")
      else if rgAvailable then text == ""
      else FallbackText(Blocks(files, docs.content), text)
  }

  /** The first eight files, each under its path. */
  ghost predicate WholeFiles(docs: Docs, files: seq<string>, text: string) {
    exists blocks ::
      && |blocks| == (if |files| < DOC_FALLBACK_FILE_LIMIT then |files| else DOC_FALLBACK_FILE_LIMIT)
      && (forall i | 0 <= i < |blocks| :: blocks[i] == "--- " + files[i] + " ---\n" + docs.content(files[i]))
      && FallbackText(blocks, text)
  }

  /** The documentation context: the ranked hits that the budget takes, or whole files where nothing was
      asked, or nothing found without ripgrep. */
  ghost predicate ContextMeans(docs: Docs, rgAvailable: bool, files: seq<string>, queries: seq<string>, text: string) {
    if files == [] then text == ""
    else if queries == [] || (!rgAvailable && NoHit(docs, rgAvailable, files, queries)) then
      WholeFiles(docs, files, text)
    else exists shown :: ShowsHits(docs, rgAvailable, files, queries, shown) && text == Join(shown, "\n")
  }

  lemma FallbackMeans(docs: Docs, files: seq<string>, text: string)
    requires FallbackText(Blocks(files, docs.content), text)
    ensures WholeFiles(docs, files, text)
  {
    var blocks := Blocks(files, docs.content);
    forall i | 0 <= i < |blocks|
      ensures blocks[i] == "--- " + files[i] + " ---\n" + docs.content(files[i])
    {
    }
  }

  /** For all documents and queries: what the uncapped search, or the fallback, shows. */
  lemma SearchMeans(docs: Docs, rgAvailable: bool, files: seq<string>, queries: seq<string>, text: string)
    requires SearchText(docs, rgAvailable, files, queries, text)
    ensures ContextMeans(docs, rgAvailable, files, queries, text)
  {
    if files != [] && queries != [] {
      UncappedSearchMeans(docs, rgAvailable, files, queries);
      var shown := UncappedSearch(docs, rgAvailable, files, queries).chunks;
      assert Join([], "\n") == "";
      if shown == [] && !rgAvailable {
        FallbackMeans(docs, files, text);
      }
    } else if files != [] {
      FallbackMeans(docs, files, text);
    }
  }
}
