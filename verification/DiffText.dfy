/** The bounded diff text (src/ai_push_hooks/git_utils.py, `collect_diff`, `_collect_bounded_git_diff`
    and `_decode_diff_output`).

    The captured bytes are decoded with `errors="replace"`; that decoder is a parameter, any function
    to text. */
module DiffText {

  import opened Options
  import opened Utf8

  type Text = seq<Scalar>
  type Bytes = seq<Byte>

  /** `replace(bytes, final)`: a decoder left non-final may hold back an incomplete last character. */
  type Replace = (Bytes, bool) -> Text

  function Ascii(text: string): Text
    requires forall i | 0 <= i < |text| :: text[i] < '\U{0080}'
  {
    seq(|text|, i requires 0 <= i < |text| => text[i] as int)
  }

  // "\n[diff truncated]\n"
  const MARKER: Text := [10, 91, 100, 105, 102, 102, 32, 116, 114, 117, 110, 99, 97, 116, 101, 100, 93, 10]

  lemma {:induction false} AsciiEncodes(text: Text)
    requires forall i | 0 <= i < |text| :: text[i] < 0x80
    ensures Encode(text) == text
  {
    if text == [] {
    } else {
      AsciiEncodes(text[1..]);
      assert EncodeOne(text[0]) == [text[0]];
    }
  }

  // ---------------------------------------------------------------------------------
  // Cutting the text
  // ---------------------------------------------------------------------------------

  function Limit(maxBytes: int): nat {
    if maxBytes < 0 then 0 else maxBytes
  }

  /** The text cut to the limit, with any ASCII marker. */
  function CutText(marker: Text, normalized: Text, limit: nat, truncated: bool): Text {
    var bytes := Encode(normalized);
    if limit == 0 then []
    else if !truncated && |bytes| <= limit then normalized
    else if |Encode(marker)| >= limit then DecodeIgnoring(Encode(marker)[..limit])
    else
      var room := limit - |Encode(marker)|;
      DecodeIgnoring(if room < |bytes| then bytes[..room] else bytes) + marker
  }

  function DecodeDiffOutput(replace: Replace, output: Bytes, maxBytes: int, truncated: bool): Text {
    CutText(MARKER, replace(output, !truncated), Limit(maxBytes), truncated)
  }

  /** What the reader gets: the whole text; or the longest prefix of it, in whole characters, that
      leaves room for the marker, and the marker; or what fits of the marker alone. */
  ghost predicate IsCut(marker: Text, normalized: Text, limit: nat, truncated: bool, text: Text) {
    if !truncated && |Encode(normalized)| <= limit then text == normalized
    else if limit <= |marker| then text == marker[..limit]
    else
      exists k | 0 <= k <= |normalized| ::
        && LongestFitting(normalized, limit - |marker|, k)
        && text == normalized[..k] + marker
  }

  ghost predicate LongestFitting(text: Text, room: nat, k: nat) {
    forall j | 0 <= j <= |text| :: |Encode(text[..j])| <= room <==> j <= k
  }

  lemma FittingIsTheLongest(text: Text, room: nat)
    ensures LongestFitting(text, room, Fitting(text, room))
  {
    forall j | 0 <= j <= |text| ensures |Encode(text[..j])| <= room <==> j <= Fitting(text, room) {
      FittingIsLongest(text, room, j);
    }
  }

  lemma MarkerAlone(marker: Text, limit: nat)
    requires limit <= |marker| && forall i | 0 <= i < |marker| :: marker[i] < 0x80
    ensures Encode(marker) == marker
    ensures DecodeIgnoring(marker[..limit]) == marker[..limit]
    ensures |Encode(marker[..limit])| == limit
  {
    AsciiEncodes(marker);
    AsciiEncodes(marker[..limit]);
    RoundTrip(marker[..limit]);
  }

  lemma TextAndMarker(marker: Text, normalized: Text, room: nat)
    requires |Encode(marker)| == |marker|
    ensures var bytes := Encode(normalized);
            var payload := DecodeIgnoring(if room < |bytes| then bytes[..room] else bytes);
            && payload == normalized[..Fitting(normalized, room)]
            && LongestFitting(normalized, room, Fitting(normalized, room))
            && |Encode(payload + marker)| <= room + |marker|
  {
    var k := Fitting(normalized, room);
    FittingIsTheLongest(normalized, room);
    CutAnywhere(normalized, room);
    EncodeConcat(normalized[..k], marker);
  }

  lemma CutTextFits(marker: Text, normalized: Text, limit: nat, truncated: bool)
    requires forall i | 0 <= i < |marker| :: marker[i] < 0x80
    ensures var text := CutText(marker, normalized, limit, truncated);
            && (limit > 0 ==> IsCut(marker, normalized, limit, truncated, text))
            && |Encode(text)| <= limit
  {
    AsciiEncodes(marker);
    if limit <= |marker| {
      MarkerAlone(marker, limit);
    } else {
      TextAndMarker(marker, normalized, limit - |marker|);
    }
  }

  lemma MarkerIsAscii()
    ensures forall i | 0 <= i < |MARKER| :: MARKER[i] < 0x80
  {
  }

  /** For every decoder, output and limit: the text is what it should be, and its encoding fits. */
  lemma DecodedDiffFits(replace: Replace, output: Bytes, maxBytes: int, truncated: bool)
    ensures var text := DecodeDiffOutput(replace, output, maxBytes, truncated);
            && (Limit(maxBytes) > 0 ==> IsCut(MARKER, replace(output, !truncated), Limit(maxBytes), truncated, text))
            && |Encode(text)| <= Limit(maxBytes)
  {
    MarkerIsAscii();
    CutTextFits(MARKER, replace(output, !truncated), Limit(maxBytes), truncated);
  }

  /** A diff that is valid UTF-8 and fits is passed on unchanged, byte for byte. */
  lemma ValidDiffUnchanged(replace: Replace, diff: Text, maxBytes: int)
    requires replace(Encode(diff), true) == diff
    requires |Encode(diff)| <= Limit(maxBytes)
    ensures Encode(DecodeDiffOutput(replace, Encode(diff), maxBytes, false)) == Encode(diff)
  {
    EmptyEncoding(diff);
  }

  lemma EmptyEncoding(text: Text)
    ensures Encode(text) == [] <==> text == []
  {
    if text != [] {
      assert Encode(text) == EncodeOne(text[0]) + Encode(text[1..]);
    }
  }

  // ---------------------------------------------------------------------------------
  // Collecting the sections
  // ---------------------------------------------------------------------------------

  /** All that a `git diff` would print and its exit code, or a process that timed out, was killed or
      could not be run. */
  datatype Process = Process(stdout: Bytes, code: int) | Broken

  /** A revision range as bytes, and its `git diff`. */
  datatype Range = Range(name: Bytes, process: Process)

  const NEWLINE: Byte := 10

  predicate Space(b: Byte) {
    b == 32 || 9 <= b <= 13
  }

  function Stripped(bytes: Bytes): (stripped: Bytes)
    ensures stripped <= bytes
  {
    if bytes != [] && Space(bytes[|bytes| - 1]) then Stripped(bytes[..|bytes| - 1]) else bytes
  }

  function Header(i: nat, range: Range): Bytes {
    (if i == 0 then [] else [NEWLINE]) + Ascii("### RANGE ") + range.name + [NEWLINE]
  }

  ghost function Output(process: Process): Bytes {
    if process.Process? then process.stdout else []
  }

  /** A section in full: header, stripped diff, newline. */
  ghost function Section(ranges: seq<Range>, i: nat): Bytes
    requires i < |ranges|
  {
    Header(i, ranges[i]) + Stripped(Output(ranges[i].process)) + [NEWLINE]
  }

  ghost function SectionList(ranges: seq<Range>, n: nat): (sections: seq<Bytes>)
    requires n <= |ranges|
    ensures |sections| == n
  {
    if n == 0 then [] else SectionList(ranges, n - 1) + [Section(ranges, n - 1)]
  }

  lemma {:induction false} SectionListAt(ranges: seq<Range>, n: nat, i: nat)
    requires i < n <= |ranges|
    ensures SectionList(ranges, n)[i] == Section(ranges, i)
    ensures SectionList(ranges, n)[..i] == SectionList(ranges, i)
  {
    if i == n - 1 {
    } else {
      SectionListAt(ranges, n - 1, i);
    }
  }

  ghost function Together(sections: seq<Bytes>): Bytes {
    if sections == [] then [] else Together(sections[..|sections| - 1]) + sections[|sections| - 1]
  }

  /** The first n sections. */
  ghost function Sections(ranges: seq<Range>, n: nat): Bytes
    requires n <= |ranges|
  {
    if n == 0 then [] else Sections(ranges, n - 1) + Section(ranges, n - 1)
  }

  /** Everything there is to show up to and including the diff of range i, not stripped. */
  ghost function UpTo(ranges: seq<Range>, i: nat): Bytes
    requires i < |ranges|
  {
    Sections(ranges, i) + Header(i, ranges[i]) + Output(ranges[i].process)
  }

  /** The end of the budget falls into section i.  It may not even be known how its diff would end. */
  ghost predicate CutAt(ranges: seq<Range>, limit: nat, i: nat)
    requires i < |ranges|
  {
    || |UpTo(ranges, i)| > limit
    || (ranges[i].process.Process? && ranges[i].process.code == 0 &&
        |Sections(ranges, i) + Header(i, ranges[i]) + Stripped(Output(ranges[i].process))| >= limit)
  }

  ghost predicate FailsAt(ranges: seq<Range>, limit: nat, i: nat)
    requires i < |ranges|
  {
    |UpTo(ranges, i)| <= limit && (ranges[i].process.Broken? || ranges[i].process.code != 0)
  }

  /** The first n sections are taken whole. */
  ghost predicate Whole(ranges: seq<Range>, limit: nat, n: nat)
    requires n <= |ranges|
  {
    n == 0 || (Whole(ranges, limit, n - 1) && !CutAt(ranges, limit, n - 1) && !FailsAt(ranges, limit, n - 1))
  }

  lemma {:induction false} WholeAt(ranges: seq<Range>, limit: nat, n: nat, i: nat)
    requires i < n <= |ranges| && Whole(ranges, limit, n)
    ensures !CutAt(ranges, limit, i) && !FailsAt(ranges, limit, i)
  {
    if i == n - 1 {
    } else {
      WholeAt(ranges, limit, n - 1, i);
    }
  }

  // ---------------------------------------------------------------------------------
  // The same, told from the names and outputs alone
  // ---------------------------------------------------------------------------------

  ghost predicate Blank(bytes: Bytes) {
    forall i | 0 <= i < |bytes| :: bytes[i] == 32 || 9 <= bytes[i] <= 13
  }

  /** `kept` is `bytes` without the white space at its end. */
  ghost predicate Trimmed(bytes: Bytes, kept: Bytes) {
    && (exists tail :: bytes == kept + tail && Blank(tail))
    && (kept == [] || !Blank([kept[|kept| - 1]]))
  }

  lemma {:induction false} StrippedMeans(bytes: Bytes)
    ensures Trimmed(bytes, Stripped(bytes))
  {
    if bytes == [] || !Space(bytes[|bytes| - 1]) {
      NothingToTrim(bytes);
    } else {
      var init := bytes[..|bytes| - 1];
      StrippedMeans(init);
      TrimmedLonger(init, Stripped(init), bytes[|bytes| - 1]);
      assert bytes == init + [bytes[|bytes| - 1]];
    }
  }

  lemma NothingToTrim(bytes: Bytes)
    requires bytes == [] || !Space(bytes[|bytes| - 1])
    ensures Trimmed(bytes, bytes)
  {
    assert bytes == bytes + [] && Blank([]);
    if bytes != [] {
      assert [bytes[|bytes| - 1]][0] == bytes[|bytes| - 1];
    }
  }

  lemma TrimmedLonger(bytes: Bytes, kept: Bytes, last: Byte)
    requires Trimmed(bytes, kept) && Space(last)
    ensures Trimmed(bytes + [last], kept)
  {
    var tail :| bytes == kept + tail && Blank(tail);
    assert bytes + [last] == kept + (tail + [last]) && Blank(tail + [last]);
  }

  lemma TrimmedIsUnique(bytes: Bytes, kept: Bytes, other: Bytes)
    requires Trimmed(bytes, kept) && Trimmed(bytes, other)
    ensures kept == other
  {
    NotLonger(bytes, kept, other);
    NotLonger(bytes, other, kept);
    assert kept == bytes[..|kept|] && other == bytes[..|other|];
  }

  lemma NotLonger(bytes: Bytes, kept: Bytes, other: Bytes)
    requires Trimmed(bytes, kept) && Trimmed(bytes, other)
    ensures |kept| <= |other|
  {
    var tail :| bytes == kept + tail && Blank(tail);
    var rest :| bytes == other + rest && Blank(rest);
    if |other| < |kept| {
      assert kept[|kept| - 1] == bytes[|kept| - 1];
      BlankPart(other, rest, |kept| - 1);
    }
  }

  lemma BlankPart(other: Bytes, rest: Bytes, i: nat)
    requires Blank(rest) && |other| <= i < |other + rest|
    ensures Blank([(other + rest)[i]])
  {
    assert (other + rest)[i] == rest[i - |other|];
  }

  /** The line above a diff: `### RANGE `, the name of the range, and an empty line before all but the first. */
  ghost function Title(i: nat, name: Bytes): Bytes {
    (if i == 0 then [] else [10]) + [35, 35, 35, 32, 82, 65, 78, 71, 69, 32] + name + [10]
  }

  ghost function Printed(process: Process): Bytes {
    match process
    case Process(stdout, _) => stdout
    case Broken => []
  }

  ghost predicate IsSection(i: nat, range: Range, section: Bytes) {
    exists body :: Trimmed(Printed(range.process), body) && section == Title(i, range.name) + body + [10]
  }

  ghost predicate AreSections(ranges: seq<Range>, sections: seq<Bytes>) {
    |sections| <= |ranges| && forall i | 0 <= i < |sections| :: IsSection(i, ranges[i], sections[i])
  }

  /** After `before`, the diff does not fit: all of it, or what is kept of one that succeeded, reaches the
      limit. */
  ghost predicate Exceeds(process: Process, before: Bytes, limit: nat) {
    || |before| + |Printed(process)| > limit
    || (process.Process? && process.code == 0 &&
        exists body :: Trimmed(process.stdout, body) && |before| + |body| >= limit)
  }

  /** The diff failed, and not for having been cut. */
  ghost predicate Fails(process: Process, before: Bytes, limit: nat) {
    && |before| + |Printed(process)| <= limit
    && (process == Broken || process.code != 0)
  }

  /** What `collect_diff` gives: n whole sections, one after the other; then everything if there are no more
      ranges, an error if the next diff fails, and else what there is up to the limit, marked. */
  ghost predicate Collected(replace: Replace, ranges: seq<Range>, limit: nat, sections: seq<Bytes>,
                            r: Result<Text, ()>) {
    var n := |sections|;
    && AreSections(ranges, sections)
    && (forall i | 0 <= i < n :: FitsWhole(ranges, limit, sections, i))
    && if n == |ranges| then
         && r.Ok? && |Together(sections)| <= limit
         && (limit > 0 ==> IsCut(MARKER, replace(Together(sections), true), limit, false, r.value))
       else StopsAt(replace, ranges[n].process, Together(sections) + Title(n, ranges[n].name), limit, r)
  }

  ghost predicate FitsWhole(ranges: seq<Range>, limit: nat, sections: seq<Bytes>, i: nat)
    requires i < |sections| <= |ranges|
  {
    var before := Together(sections[..i]) + Title(i, ranges[i].name);
    !Exceeds(ranges[i].process, before, limit) && !Fails(ranges[i].process, before, limit)
  }

  ghost predicate StopsAt(replace: Replace, process: Process, before: Bytes, limit: nat, r: Result<Text, ()>) {
    if Fails(process, before, limit) then r.Err?
    else
      && Exceeds(process, before, limit)
      && r.Ok? && |before + Printed(process)| >= limit
      && (limit > 0 ==> IsCut(MARKER, replace((before + Printed(process))[..limit], false), limit, true, r.value))
  }

  lemma HeaderIsTitle(i: nat, range: Range)
    ensures Header(i, range) == Title(i, range.name)
    ensures Output(range.process) == Printed(range.process)
  {
    assert Ascii("### RANGE ") == [35, 35, 35, 32, 82, 65, 78, 71, 69, 32];
  }

  lemma {:induction false} SectionsTogether(ranges: seq<Range>, n: nat)
    requires n <= |ranges|
    ensures Together(SectionList(ranges, n)) == Sections(ranges, n)
  {
    if n == 0 {
    } else {
      SectionsTogether(ranges, n - 1);
      TogetherNext(SectionList(ranges, n - 1), Section(ranges, n - 1));
    }
  }

  lemma TogetherNext(sections: seq<Bytes>, next: Bytes)
    ensures Together(sections + [next]) == Together(sections) + next
  {
    assert (sections + [next])[..|sections|] == sections;
  }

  lemma SectionMeans(ranges: seq<Range>, i: nat)
    requires i < |ranges|
    ensures IsSection(i, ranges[i], Section(ranges, i))
  {
    HeaderIsTitle(i, ranges[i]);
    StrippedMeans(Printed(ranges[i].process));
  }

  lemma SectionsMean(ranges: seq<Range>, n: nat)
    requires n <= |ranges|
    ensures AreSections(ranges, SectionList(ranges, n))
    ensures Together(SectionList(ranges, n)) == Sections(ranges, n)
  {
    var sections := SectionList(ranges, n);
    forall i | 0 <= i < n ensures IsSection(i, ranges[i], sections[i]) {
      SectionListAt(ranges, n, i);
      SectionMeans(ranges, i);
    }
    SectionsTogether(ranges, n);
  }

  lemma CutMeans(ranges: seq<Range>, limit: nat, i: nat)
    requires i < |ranges|
    ensures var before := Sections(ranges, i) + Title(i, ranges[i].name);
            && UpTo(ranges, i) == before + Printed(ranges[i].process)
            && (CutAt(ranges, limit, i) <==> Exceeds(ranges[i].process, before, limit))
            && (FailsAt(ranges, limit, i) <==> Fails(ranges[i].process, before, limit))
  {
    HeaderIsTitle(i, ranges[i]);
    var stdout := Printed(ranges[i].process);
    StrippedMeans(stdout);
    forall body | Trimmed(stdout, body) ensures body == Stripped(stdout) {
      TrimmedIsUnique(stdout, body, Stripped(stdout));
    }
  }

  lemma WholeMeans(ranges: seq<Range>, limit: nat, n: nat)
    requires n <= |ranges| && Whole(ranges, limit, n)
    ensures forall i | 0 <= i < n :: FitsWhole(ranges, limit, SectionList(ranges, n), i)
  {
    var sections := SectionList(ranges, n);
    forall i | 0 <= i < n ensures FitsWhole(ranges, limit, sections, i) {
      WholeAt(ranges, limit, n, i);
      CutMeans(ranges, limit, i);
      SectionListAt(ranges, n, i);
      SectionsTogether(ranges, i);
    }
  }

  /** One `git diff` within its budget. */
  method CollectBoundedGitDiff(process: Process, budget: nat) returns (r: Result<(Bytes, bool), ()>)
    ensures r.Err? <==> process.Broken? || (process.code != 0 && |process.stdout| <= budget)
    ensures r.Ok? ==> r.value.1 == (|process.stdout| > budget)
    ensures r.Ok? ==> r.value.0 == if r.value.1 then process.stdout[..budget] else process.stdout
  {
    if process.Broken? {
      return Err(());
    }
    var truncated := |process.stdout| > budget;
    if process.code != 0 && !truncated {
      return Err(());
    }
    r := Ok((if truncated then process.stdout[..budget] else process.stdout, truncated));
  }

  lemma FullSection(before: Bytes, prefix: Bytes, body: Bytes, end: Bytes)
    ensures before + prefix + body + end == before + (prefix + body + end)
  {
  }

  datatype Taken = Full | Cut | Failed

  /** One pass of the loop over the ranges. */
  method AddSection(ranges: seq<Range>, limit: nat, n: nat, output: Bytes) returns (more: Bytes, taken: Taken)
    requires n < |ranges| && output == Sections(ranges, n) && |output| <= limit
    ensures taken.Failed? <==> FailsAt(ranges, limit, n)
    ensures taken.Cut? <==> CutAt(ranges, limit, n)
    ensures taken.Full? ==> more == Sections(ranges, n + 1) && |more| <= limit
    ensures taken.Cut? ==> |UpTo(ranges, n)| >= limit && more == UpTo(ranges, n)[..limit]
  {
    var range := ranges[n];
    var prefix := Header(n, range);
    var remaining := limit - |output|;
    more, taken := output, Failed;
    if |prefix| > remaining {
      more, taken := output + prefix[..remaining], Cut;
      assert more == UpTo(ranges, n)[..limit];
      return;
    }
    more := output + prefix;
    var diff := CollectBoundedGitDiff(range.process, limit - |more|);
    if diff.Err? {
      return;
    }
    var (body, cut) := diff.value;
    if cut {
      more, taken := more + body, Cut;
      assert more == UpTo(ranges, n)[..limit];
      return;
    }
    more := more + Stripped(body);
    if |more| >= limit {
      taken := Cut;
      assert more == UpTo(ranges, n)[..limit];
      return;
    }
    more, taken := more + [NEWLINE], Full;
    FullSection(Sections(ranges, n), prefix, Stripped(body), [NEWLINE]);
  }

  /** Where the loop over the ranges ends: after n whole sections, and what it has collected by then. */
  ghost predicate LoopEnds(ranges: seq<Range>, limit: nat, n: nat, taken: Taken, output: Bytes) {
    && n <= |ranges| && Whole(ranges, limit, n)
    && match taken
       case Full => n == |ranges| && output == Sections(ranges, n) && |output| <= limit
       case Failed => n < |ranges| && FailsAt(ranges, limit, n)
       case Cut =>
         && n < |ranges| && CutAt(ranges, limit, n) && !FailsAt(ranges, limit, n)
         && |UpTo(ranges, n)| >= limit && output == UpTo(ranges, n)[..limit]
  }

  function Outcome(replace: Replace, output: Bytes, limit: nat, taken: Taken): Result<Text, ()> {
    if taken.Failed? then Err(()) else Ok(DecodeDiffOutput(replace, output, limit, taken.Cut?))
  }

  lemma CollectedEnd(replace: Replace, ranges: seq<Range>, limit: nat, n: nat, taken: Taken, output: Bytes)
    requires LoopEnds(ranges, limit, n, taken, output)
    ensures Collected(replace, ranges, limit, SectionList(ranges, n), Outcome(replace, output, limit, taken))
    ensures taken.Failed? || |Encode(Outcome(replace, output, limit, taken).value)| <= limit
  {
    DecodedDiffFits(replace, output, limit, taken.Cut?);
    SectionsMean(ranges, n);
    WholeMeans(ranges, limit, n);
    if n < |ranges| {
      CutMeans(ranges, limit, n);
    }
  }

  /** The diff text of all ranges.  It fits in the limit; without the marker it is all sections in
      full; and with it, it is cut from the first `limit` bytes of what there was to show. */
  method CollectDiff(replace: Replace, ranges: seq<Range>, maxBytes: int)
    returns (r: Result<Text, ()>, n: nat, ghost sections: seq<Bytes>)
    ensures |sections| == n && Collected(replace, ranges, if maxBytes < 0 then 0 else maxBytes, sections, r)
    ensures r.Ok? ==> |Encode(r.value)| <= Limit(maxBytes)
  {
    var output: Bytes := [];
    var limit := Limit(maxBytes);
    var taken := Full;
    n := 0;
    while n < |ranges|
      invariant 0 <= n <= |ranges| && taken.Full?
      invariant Whole(ranges, limit, n)
      invariant output == Sections(ranges, n) && |output| <= limit
    {
      output, taken := AddSection(ranges, limit, n, output);
      if !taken.Full? {
        break;
      }
      n := n + 1;
    }
    sections := SectionList(ranges, n);
    r := Outcome(replace, output, limit, taken);
    CollectedEnd(replace, ranges, limit, n, taken, output);
  }
}
