/** Boundary redaction of bounded diagnostics
    (src/ai_push_hooks/executors/runners/contracts.py).

    A diagnostic is cut to a bounded preview.  A known value may be cut in half by that
    boundary, so a Knuth-Morris-Pratt automaton looks for the longest tail of the preview
    that is the beginning of a known value, and the tail is masked.
 */
module Redaction {

  import opened Options

  const DIAGNOSTIC_TRUNCATION_MARKER: string := "[truncated]"
  const REDACTED: string := "[REDACTED]"

  // ---------------------------------------------------------------------------------
  // Declarative meaning
  // ---------------------------------------------------------------------------------

  /** The last k characters of `text` are the first k characters of `pattern`. */
  ghost predicate Overlaps(text: string, pattern: string, k: nat) {
    && k <= |text|
    && k <= |pattern|
    && text[|text| - k..] == pattern[..k]
  }

  /** k is the longest overlap of `text` with `pattern`. */
  ghost predicate LongestOverlap(text: string, pattern: string, k: nat) {
    && Overlaps(text, pattern, k)
    && forall j: nat | Overlaps(text, pattern, j) :: j <= k
  }

  /** `text` cut at `start` leaves a nonempty tail that is a proper prefix of a known value. */
  ghost predicate CutsKnownValue(text: string, values: seq<string>, start: nat) {
    && start < |text|
    && exists i | 0 <= i < |values| :: CutsValue(text, values[i], start)
  }

  ghost predicate CutsValue(text: string, value: string, start: nat) {
    && start < |text|
    && |text| - start < |value|
    && text[start..] == value[..|text| - start]
  }

  /** `found` is the least cut position, and None exactly when there is none. */
  ghost predicate LeastCut(text: string, values: seq<string>, found: Option<nat>) {
    match found
    case None => forall s: nat :: !CutsKnownValue(text, values, s)
    case Some(start) =>
      && CutsKnownValue(text, values, start)
      && forall s: nat | s < start :: !CutsKnownValue(text, values, s)
  }

  // ---------------------------------------------------------------------------------
  // The automaton
  // ---------------------------------------------------------------------------------

  /** The filled part of the failure table: table[i] is the longest proper border of
      pattern[..i + 1], that is the longest overlap of pattern[1..i + 1] with the pattern. */
  ghost predicate FailureTable(pattern: string, table: seq<nat>) {
    && |table| <= |pattern|
    && forall i | 0 <= i < |table| :: LongestOverlap(pattern[1..i + 1], pattern, table[i])
  }

  /** Every overlap of text + [c] of length k + 1 extends an overlap of `text` of length at most
      `bound`, which is itself an overlap of `text`. */
  ghost predicate Candidate(text: string, pattern: string, c: char, bound: nat) {
    && Overlaps(text, pattern, bound)
    && forall k: nat | 0 < k && Overlaps(text + [c], pattern, k) :: k <= bound + 1
  }

  lemma SnocEqual(a: string, b: string, c: char, d: char)
    ensures a + [c] == b + [d] <==> a == b && c == d
  {
    if a + [c] == b + [d] {
      assert a == (a + [c])[..|a|];
      assert b == (b + [d])[..|b|];
      assert (a + [c])[|a|] == c && (b + [d])[|b|] == d;
    }
  }

  /** An overlap of text + [c] that is not empty extends an overlap of `text` by c. */
  lemma OverlapExtends(text: string, pattern: string, c: char, k: nat)
    ensures Overlaps(text + [c], pattern, k + 1)
       <==> Overlaps(text, pattern, k) && k < |pattern| && pattern[k] == c
  {
    if k <= |text| && k < |pattern| {
      var longer := text + [c];
      assert longer[|longer| - (k + 1)..] == text[|text| - k..] + [c];
      assert pattern[..k + 1] == pattern[..k] + [pattern[k]];
      SnocEqual(text[|text| - k..], pattern[..k], c, pattern[k]);
    }
  }

  /** The overlap the automaton starts a character with is a candidate. */
  lemma StartCandidate(text: string, pattern: string, c: char, matched: nat)
    requires LongestOverlap(text, pattern, matched)
    ensures Candidate(text, pattern, c, matched)
  {
    forall k: nat | 0 < k && Overlaps(text + [c], pattern, k) ensures k <= matched + 1 {
      OverlapExtends(text, pattern, c, k - 1);
    }
  }

  /** Two overlaps of one text: the shorter is an overlap of the longer without its first character. */
  lemma ShorterIsBorder(text: string, pattern: string, long: nat, short: nat)
    requires Overlaps(text, pattern, long) && Overlaps(text, pattern, short)
    requires short < long
    ensures Overlaps(pattern[1..long], pattern, short)
  {
    var inner := pattern[1..long];
    assert inner[|inner| - short..] == pattern[..long][long - short..];
    assert text[|text| - long..][long - short..] == text[|text| - short..];
  }

  /** Conversely an overlap of an overlap is an overlap. */
  lemma BorderIsOverlap(text: string, pattern: string, long: nat, short: nat)
    requires 0 < long && Overlaps(text, pattern, long)
    requires Overlaps(pattern[1..long], pattern, short)
    ensures Overlaps(text, pattern, short)
  {
    var inner := pattern[1..long];
    assert inner[|inner| - short..] == pattern[..long][long - short..];
    assert text[|text| - long..][long - short..] == text[|text| - short..];
  }

  /** A fallback along the failure table keeps the candidate property. */
  lemma FallbackStep(text: string, pattern: string, c: char, matched: nat, table: seq<nat>)
    requires FailureTable(pattern, table)
    requires 0 < matched <= |table| && Candidate(text, pattern, c, matched)
    requires matched == |pattern| || pattern[matched] != c
    ensures Candidate(text, pattern, c, table[matched - 1])
    ensures table[matched - 1] < matched
  {
    var border := table[matched - 1];
    assert LongestOverlap(pattern[1..matched], pattern, border);
    BorderIsOverlap(text, pattern, matched, border);
    forall k: nat | 0 < k && Overlaps(text + [c], pattern, k) ensures k <= border + 1 {
      OverlapExtends(text, pattern, c, k - 1);
      ShorterIsBorder(text, pattern, matched, k - 1);
    }
  }

  /** Once the fallbacks stop, comparing one character gives the longest overlap of text + [c]. */
  lemma SettledCandidate(text: string, pattern: string, c: char, matched: nat)
    requires Candidate(text, pattern, c, matched)
    requires matched < |pattern|
    requires matched == 0 || pattern[matched] == c
    ensures LongestOverlap(text + [c], pattern, if pattern[matched] == c then matched + 1 else matched)
  {
    OverlapExtends(text, pattern, c, matched);
    forall j: nat | Overlaps(text + [c], pattern, j)
      ensures j <= if pattern[matched] == c then matched + 1 else matched
    {
      if j > 0 {
        OverlapExtends(text, pattern, c, j - 1);
      }
    }
  }

  lemma ExtendTable(pattern: string, table: seq<nat>, matched: nat)
    requires 0 < |table| < |pattern| && FailureTable(pattern, table)
    requires LongestOverlap(pattern[1..|table|] + [pattern[|table|]], pattern, matched)
    ensures FailureTable(pattern, table + [matched])
    ensures LongestOverlap(pattern[1..|table| + 1], pattern, matched)
  {
    assert pattern[1..|table| + 1] == pattern[1..|table|] + [pattern[|table|]];
  }

  lemma FirstEntry(pattern: string)
    requires |pattern| > 0
    ensures FailureTable(pattern, [0]) && LongestOverlap(pattern[1..1], pattern, 0)
  {
    assert pattern[1..1] == "";
  }

  /** The fallback loop of both passes: follow the table until `c` extends the overlap or none is
      left.  Building the table never reaches matched == |pattern|, so there the first test is idle. */
  method FallBack(pattern: string, failure: array<nat>, filled: nat, c: char, start: nat,
                  ghost text: string, ghost table: seq<nat>)
    returns (matched: nat)
    requires start <= filled <= failure.Length && failure[..filled] == table && FailureTable(pattern, table)
    requires Candidate(text, pattern, c, start)
    ensures matched <= start && Candidate(text, pattern, c, matched)
    ensures matched != 0 ==> matched < |pattern| && pattern[matched] == c
  {
    matched := start;
    while matched != 0 && (matched == |pattern| || pattern[matched] != c)
      invariant matched <= start && Candidate(text, pattern, c, matched)
    {
      FallbackStep(text, pattern, c, matched, table);
      assert failure[matched - 1] == failure[..filled][matched - 1];
      matched := failure[matched - 1];
    }
  }

  /** One character of either pass: from the longest overlap of `text` to that of text + [c]. */
  method Extend(pattern: string, failure: array<nat>, filled: nat, c: char, start: nat,
                ghost text: string, ghost table: seq<nat>)
    returns (matched: nat)
    requires |pattern| > 0
    requires start <= filled <= failure.Length && failure[..filled] == table && FailureTable(pattern, table)
    requires LongestOverlap(text, pattern, start)
    ensures LongestOverlap(text + [c], pattern, matched)
  {
    StartCandidate(text, pattern, c, start);
    matched := FallBack(pattern, failure, filled, c, start, text, table);
    SettledCandidate(text, pattern, c, matched);
    if pattern[matched] == c {
      matched := matched + 1;
    }
  }

  /** Fills the failure table of `pattern`. */
  method BuildFailure(pattern: string) returns (failure: array<nat>)
    requires |pattern| > 0
    ensures failure.Length == |pattern| && FailureTable(pattern, failure[..])
  {
    var limit := |pattern|;
    failure := new nat[limit](_ => 0);
    var matched: nat := 0;
    ghost var table: seq<nat> := [0];
    FirstEntry(pattern);
    for index := 1 to limit
      invariant |table| == index && failure[..index] == table
      invariant FailureTable(pattern, table)
      invariant LongestOverlap(pattern[1..index], pattern, matched)
    {
      matched := Extend(pattern, failure, index, pattern[index], matched, pattern[1..index], table);
      failure[index] := matched;
      ExtendTable(pattern, table, matched);
      table := table + [matched];
    }
    assert failure[..limit] == failure[..];
  }

  /** An overlap can be no longer than either side, so cutting both to that length loses none. */
  lemma CutBothSides(value: string, prefix: string, limit: nat, k: nat)
    requires limit == if |value| < |prefix| then |value| else |prefix|
    ensures Overlaps(value, prefix, k) <==> Overlaps(value[|value| - limit..], prefix[..limit], k)
  {
    if k <= limit {
      assert value[|value| - limit..][limit - k..] == value[|value| - k..];
      assert prefix[..limit][..k] == prefix[..k];
    }
  }

  lemma LongestOfCutSides(value: string, prefix: string, limit: nat, matched: nat)
    requires limit == if |value| < |prefix| then |value| else |prefix|
    requires LongestOverlap(value[|value| - limit..], prefix[..limit], matched)
    ensures LongestOverlap(value, prefix, matched)
  {
    CutBothSides(value, prefix, limit, matched);
    forall k: nat | Overlaps(value, prefix, k) ensures k <= matched {
      CutBothSides(value, prefix, limit, k);
    }
  }

  /** The longest suffix of `value` that is a prefix of `prefix`. */
  method LongestPrefixSuffix(value: string, prefix: string) returns (matched: nat)
    ensures LongestOverlap(value, prefix, matched)
  {
    var limit := if |value| < |prefix| then |value| else |prefix|;
    if limit == 0 {
      return 0;
    }
    var pattern := prefix[..limit];
    var failure := BuildFailure(pattern);
    ghost var table := failure[..limit];
    assert table == failure[..];

    matched := 0;
    var tail := value[|value| - limit..];
    for n := 0 to |tail|
      invariant failure[..limit] == table
      invariant LongestOverlap(tail[..n], pattern, matched)
    {
      matched := Extend(pattern, failure, limit, tail[n], matched, tail[..n], table);
      assert tail[..n + 1] == tail[..n] + [tail[n]];
    }
    assert tail[..|tail|] == tail;
    LongestOfCutSides(value, prefix, limit, matched);
  }

  // ---------------------------------------------------------------------------------
  // The earliest cut
  // ---------------------------------------------------------------------------------

  /** For one value, positions where it is cut are exactly its nonempty overlaps with the value less
      its last character, and the longest overlap is the earliest position. */
  lemma CutIsOverlap(text: string, secret: string, start: nat)
    requires |secret| > 1 && start < |text|
    ensures var room := if |text| < |secret| - 1 then |text| else |secret| - 1;
            CutsValue(text, secret, start) <==> Overlaps(text, secret[..room], |text| - start)
  {
    var room := if |text| < |secret| - 1 then |text| else |secret| - 1;
    var k := |text| - start;
    if k <= room {
      assert secret[..room][..k] == secret[..k];
    }
  }

  /** One value cannot be cut before its longest overlap. */
  lemma EarliestCutOfOne(text: string, secret: string, overlap: nat)
    requires |secret| > 1
    requires LongestOverlap(text, secret[..if |text| < |secret| - 1 then |text| else |secret| - 1], overlap)
    ensures overlap != 0 ==> CutsValue(text, secret, |text| - overlap)
    ensures forall s: nat | CutsValue(text, secret, s) :: overlap != 0 && |text| - overlap <= s
  {
    forall s: nat | s < |text|
      ensures CutsValue(text, secret, s) ==> overlap != 0 && |text| - overlap <= s
    {
      CutIsOverlap(text, secret, s);
    }
    if overlap != 0 {
      CutIsOverlap(text, secret, |text| - overlap);
    }
  }

  lemma CutsKnownValueSnoc(text: string, values: seq<string>, n: nat)
    requires n < |values|
    ensures forall s: nat :: CutsKnownValue(text, values[..n + 1], s)
                        <==> CutsKnownValue(text, values[..n], s) || CutsValue(text, values[n], s)
  {
    assert values[..n + 1] == values[..n] + [values[n]];
    forall s: nat
      ensures CutsKnownValue(text, values[..n + 1], s)
         <==> CutsKnownValue(text, values[..n], s) || CutsValue(text, values[n], s)
    {
      if CutsKnownValue(text, values[..n], s) {
        var i :| 0 <= i < n && CutsValue(text, values[..n][i], s);
        assert CutsValue(text, values[..n + 1][i], s);
      }
      if CutsValue(text, values[n], s) {
        assert CutsValue(text, values[..n + 1][n], s);
      }
    }
  }

  /** Taking the smaller of two least cuts covers one more value. */
  lemma LeastCutSnoc(text: string, values: seq<string>, n: nat, before: Option<nat>, overlap: nat, after: Option<nat>)
    requires n < |values| && LeastCut(text, values[..n], before)
    requires overlap <= |text|
    requires overlap != 0 ==> CutsValue(text, values[n], |text| - overlap)
    requires forall s: nat | CutsValue(text, values[n], s) :: overlap != 0 && |text| - overlap <= s
    requires after == if overlap != 0 && (before.None? || |text| - overlap < before.value)
                      then Some(|text| - overlap) else before
    ensures LeastCut(text, values[..n + 1], after)
  {
    CutsKnownValueSnoc(text, values, n);
    var longer := values[..n + 1];
    forall s: nat | CutsKnownValue(text, longer, s)
      ensures after.Some? && after.value <= s
    {
      if CutsKnownValue(text, values[..n], s) {
        assert before.Some? && before.value <= s;
      }
    }
    if after.Some? {
      assert CutsKnownValue(text, values[..n + 1], after.value);
    }
  }

  /** The least position whose nonempty remainder is a proper prefix of a known value. */
  method BoundaryRedactionStart(value: string, secrets: seq<string>) returns (earliest: Option<nat>)
    ensures LeastCut(value, secrets, earliest)
  {
    earliest := None;
    for n := 0 to |secrets|
      invariant LeastCut(value, secrets[..n], earliest)
    {
      var secret := secrets[n];
      ghost var before := earliest;
      if |secret| <= 1 {
        LeastCutSnoc(value, secrets, n, before, 0, before);
        continue;
      }
      var prefix := secret[..if |value| < |secret| - 1 then |value| else |secret| - 1];
      var overlap := LongestPrefixSuffix(value, prefix);
      EarliestCutOfOne(value, secret, overlap);
      if overlap != 0 {
        var start := |value| - overlap;
        if earliest.None? || start < earliest.value {
          earliest := Some(start);
        }
      }
      LeastCutSnoc(value, secrets, n, before, overlap, earliest);
    }
    assert secrets[..|secrets|] == secrets;
  }

  // ---------------------------------------------------------------------------------
  // The bounded excerpt
  // ---------------------------------------------------------------------------------

  /** `safe` with the earliest cut value and everything after it masked. */
  ghost predicate Masked(safe: string, values: seq<string>, masked: string) {
    exists found: Option<nat> :: LeastCut(safe, values, found) && masked == MaskFrom(safe, found)
  }

  ghost function MaskFrom(safe: string, found: Option<nat>): string {
    if found.Some? && found.value <= |safe| then safe[..found.value] + REDACTED else safe
  }

  /** What the excerpt of a stream may show: all of the masked preview when nothing was cut off, and
      otherwise as much of it as leaves room for the truncation marker. */
  ghost predicate Excerpt(raw: string, masked: string, maxChars: int, shown: string)
    requires maxChars > 0
  {
    if |raw| <= maxChars && |masked| <= maxChars then shown == masked
    else if maxChars <= |DIAGNOSTIC_TRUNCATION_MARKER| then shown == DIAGNOSTIC_TRUNCATION_MARKER[..maxChars]
    else
      var room := maxChars - |DIAGNOSTIC_TRUNCATION_MARKER|;
      shown == masked[..if |masked| < room then |masked| else room] + DIAGNOSTIC_TRUNCATION_MARKER
  }

  /** Every excerpt respects the caller's bound. */
  lemma ExcerptBounded(raw: string, masked: string, maxChars: int, shown: string)
    requires maxChars > 0 && Excerpt(raw, masked, maxChars, shown)
    ensures |shown| <= maxChars
  {
  }

  /** `shown` is the first n characters of `safe`, then at most the redaction mark and the truncation
      marker, whole or in part. */
  ghost predicate ShowsOnly(safe: string, n: nat, shown: string) {
    && n <= |safe| && n <= |shown| && shown[..n] == safe[..n]
    && exists k, m | 0 <= k <= |REDACTED| && 0 <= m <= |DIAGNOSTIC_TRUNCATION_MARKER| ::
         shown[n..] == REDACTED[..k] + DIAGNOSTIC_TRUNCATION_MARKER[..m]
  }

  ghost predicate ShowsBefore(safe: string, cut: nat, shown: string) {
    exists n: nat | n <= cut :: ShowsOnly(safe, n, shown)
  }

  lemma ShowsOnlyWith(safe: string, n: nat, k: nat, m: nat, shown: string)
    requires n <= |safe| && k <= |REDACTED| && m <= |DIAGNOSTIC_TRUNCATION_MARKER|
    requires shown == safe[..n] + (REDACTED[..k] + DIAGNOSTIC_TRUNCATION_MARKER[..m])
    ensures ShowsOnly(safe, n, shown)
  {
    assert shown[n..] == REDACTED[..k] + DIAGNOSTIC_TRUNCATION_MARKER[..m];
  }

  /** Nothing from the earliest cut on is shown. */
  lemma ExcerptHides(raw: string, safe: string, cut: nat, maxChars: int, shown: string)
    requires maxChars > 0 && cut <= |safe| && Excerpt(raw, MaskFrom(safe, Some(cut)), maxChars, shown)
    ensures ShowsBefore(safe, cut, shown)
  {
    var masked := safe[..cut] + REDACTED;
    var marker := |DIAGNOSTIC_TRUNCATION_MARKER|;
    if |raw| <= maxChars && |masked| <= maxChars {
      assert shown == safe[..cut] + (REDACTED[..|REDACTED|] + DIAGNOSTIC_TRUNCATION_MARKER[..0]);
      ShowsOnlyWith(safe, cut, |REDACTED|, 0, shown);
    } else if maxChars <= marker {
      assert shown == safe[..0] + (REDACTED[..0] + DIAGNOSTIC_TRUNCATION_MARKER[..maxChars]);
      ShowsOnlyWith(safe, 0, 0, maxChars, shown);
    } else {
      var room := if |masked| < maxChars - marker then |masked| else maxChars - marker;
      var n := if room < cut then room else cut;
      assert shown == safe[..n] + (REDACTED[..room - n] + DIAGNOSTIC_TRUNCATION_MARKER[..marker]);
      ShowsOnlyWith(safe, n, room - n, marker, shown);
    }
  }

  /** The redaction mark stands in full where the cut value began, whenever there is room for it. */
  ghost predicate ShowsMark(raw: string, safe: string, cut: nat, maxChars: int, shown: string)
    requires cut <= |safe|
  {
    && (|raw| <= maxChars && cut + 10 <= maxChars ==> shown == safe[..cut] + "[REDACTED]")
    && (|raw| > maxChars && cut + 10 + |DIAGNOSTIC_TRUNCATION_MARKER| <= maxChars ==>
          shown == safe[..cut] + "[REDACTED]" + DIAGNOSTIC_TRUNCATION_MARKER)
  }

  lemma MarkIsShown(raw: string, safe: string, cut: nat, maxChars: int, shown: string)
    requires maxChars > 0 && cut <= |safe| && Excerpt(raw, MaskFrom(safe, Some(cut)), maxChars, shown)
    ensures ShowsMark(raw, safe, cut, maxChars, shown)
  {
    var masked := safe[..cut] + "[REDACTED]";
    assert masked[..|masked|] == masked && |masked| == cut + 10;
  }

  /** With no value cut off, all of the text is shown if it fits, and otherwise all that leaves room for the
      truncation marker. */
  ghost predicate ShowsUnmasked(raw: string, safe: string, maxChars: int, shown: string) {
    var room := maxChars - |DIAGNOSTIC_TRUNCATION_MARKER|;
    && (|raw| <= maxChars && |safe| <= maxChars ==> shown == safe)
    && (|raw| > maxChars || |safe| > maxChars ==>
          && (room <= 0 ==> shown <= DIAGNOSTIC_TRUNCATION_MARKER && |shown| == maxChars)
          && (0 < room <= |safe| ==> shown == safe[..room] + DIAGNOSTIC_TRUNCATION_MARKER)
          && (|safe| < room ==> shown == safe + DIAGNOSTIC_TRUNCATION_MARKER))
  }

  lemma UnmaskedIsShown(raw: string, safe: string, maxChars: int, shown: string)
    requires maxChars > 0 && Excerpt(raw, MaskFrom(safe, None), maxChars, shown)
    ensures ShowsUnmasked(raw, safe, maxChars, shown)
  {
    assert safe[..|safe|] == safe;
  }

  /** `strip` and `redact` stand for the terminal-control and pattern redactions, which are
      arbitrary here; the bound and the mask hold for every choice of them. */
  method BoundedDiagnostic(raw: string, maxChars: int, strip: string -> string, redact: string -> string,
                           redactionValues: seq<string>)
    returns (shown: string)
    ensures |shown| <= if maxChars <= 0 then 0 else maxChars
    ensures maxChars > 0 ==>
              var safe := redact(strip(if |raw| <= maxChars then raw else raw[..maxChars]));
              exists masked :: Masked(safe, redactionValues, masked) && Excerpt(raw, masked, maxChars, shown)
    ensures maxChars > 0 ==>
              var safe := redact(strip(if |raw| <= maxChars then raw else raw[..maxChars]));
              exists found :: LeastCut(safe, redactionValues, found)
                              && match found
                                 case None => ShowsUnmasked(raw, safe, maxChars, shown)
                                 case Some(cut) =>
                                   cut <= |safe| && ShowsBefore(safe, cut, shown)
                                   && ShowsMark(raw, safe, cut, maxChars, shown)
  {
    if maxChars <= 0 {
      return "";
    }
    var preview := strip(if |raw| <= maxChars then raw else raw[..maxChars]);
    var safe := redact(preview);
    ghost var unmasked := safe;
    var boundaryStart := BoundaryRedactionStart(safe, redactionValues);
    if boundaryStart.Some? {
      safe := safe[..boundaryStart.value] + REDACTED;
    }
    assert safe == MaskFrom(unmasked, boundaryStart);
    assert Masked(unmasked, redactionValues, safe);
    if |raw| <= maxChars && |safe| <= maxChars {
      shown := safe;
    } else if maxChars <= |DIAGNOSTIC_TRUNCATION_MARKER| {
      shown := DIAGNOSTIC_TRUNCATION_MARKER[..maxChars];
    } else {
      var room := maxChars - |DIAGNOSTIC_TRUNCATION_MARKER|;
      shown := (if |safe| < room then safe else safe[..room]) + DIAGNOSTIC_TRUNCATION_MARKER;
    }
    assert Excerpt(raw, safe, maxChars, shown);
    ExcerptBounded(raw, safe, maxChars, shown);
    if boundaryStart.Some? {
      ExcerptHides(raw, unmasked, boundaryStart.value, maxChars, shown);
      MarkIsShown(raw, unmasked, boundaryStart.value, maxChars, shown);
    } else {
      UnmaskedIsShown(raw, unmasked, maxChars, shown);
    }
  }
}
