/** The event stream of a Codex run (src/ai_push_hooks/executors/runners/codex.py,
    `_parse_codex_jsonl` and the acceptance tests of `CodexRunner.run`).

    A line is taken decoded.  `blank` is `not text.strip()`. */
module CodexEvents {

  import opened Options

  type Blank = string -> bool

  /** What a completed item holds: nothing usable, something else than a message, or a message whose
      text may be missing. */
  datatype Item = NoItem | OtherItem | Message(text: Option<string>)

  datatype Line =
    | EmptyLine
    | NotJson
    | NotAnObject
    | Untyped
    | ThreadStarted(threadId: Option<string>)
    | TurnStarted
    | ItemCompleted(item: Item)
    | TurnCompleted(status: Option<string>, error: bool)
    | TurnFailed
    | ErrorEvent
    | OtherEvent

  datatype Output = Output(finalText: string, threadId: Option<string>, success: bool, failure: bool)

  function LowerChar(c: char): char {
    if 'A' <= c <= 'Z' then (c as int + 32) as char else c
  }

  function Lower(text: string): string {
    if text == "" then "" else [LowerChar(text[0])] + Lower(text[1..])
  }

  // ---------------------------------------------------------------------------------
  // What a history of lines means
  // ---------------------------------------------------------------------------------

  predicate WellShaped(blank: Blank, line: Line) {
    match line
    case NotJson => false
    case NotAnObject => false
    case Untyped => false
    case ThreadStarted(id) => id.Some? && !blank(id.value)
    case ItemCompleted(item) => !item.NoItem? && (item.Message? ==> item.text.Some?)
    case _ => true
  }

  ghost predicate Fails(line: Line) {
    || line.TurnFailed? || line.ErrorEvent?
    || (line.TurnCompleted? &&
        ((line.status.Some? && Lower(line.status.value) !in ["completed", "success", "succeeded"]) || line.error))
  }

  // The same without the tests the parser makes.

  /** The line has a type, and an event of a known type has what it needs. */
  ghost predicate HasShape(blank: Blank, line: Line) {
    match line
    case ThreadStarted(id) => exists name :: id == Some(name) && !blank(name)
    case ItemCompleted(item) => item == OtherItem || exists text :: item == Message(Some(text))
    case _ => line != NotJson && line != NotAnObject && line != Untyped
  }

  ghost predicate SameLetter(c: char, lower: char) {
    c == lower || ('A' <= c <= 'Z' && c as int - 'A' as int == lower as int - 'a' as int)
  }

  /** The text is this lower-case word, whatever the case of its letters. */
  ghost predicate Reads(text: string, word: string) {
    |text| == |word| && forall i | 0 <= i < |text| :: SameLetter(text[i], word[i])
  }

  ghost predicate SaysDone(status: string) {
    Reads(status, "completed") || Reads(status, "success") || Reads(status, "succeeded")
  }

  /** A failed turn, an error, or a completed turn with an error or with a status that says otherwise. */
  ghost predicate IsFailure(line: Line) {
    match line
    case TurnFailed => true
    case ErrorEvent => true
    case TurnCompleted(status, error) => error || exists said :: status == Some(said) && !SaysDone(said)
    case _ => false
  }

  ghost predicate IsLower(word: string) {
    forall i | 0 <= i < |word| :: 'a' <= word[i] <= 'z'
  }

  lemma {:induction false} LowerMeans(text: string, word: string)
    requires IsLower(word)
    ensures Lower(text) == word <==> Reads(text, word)
    decreases |text|
  {
    if text == "" {
    } else if word == "" {
    } else {
      LowerMeans(text[1..], word[1..]);
      assert Lower(text)[1..] == Lower(text[1..]);
      assert Lower(text) == word <==> Lower(text)[0] == word[0] && Lower(text)[1..] == word[1..];
      assert LowerChar(text[0]) == word[0] <==> SameLetter(text[0], word[0]);
      if Reads(text, word) {
        forall i | 0 <= i < |text[1..]| ensures SameLetter(text[1..][i], word[1..][i]) {
          assert SameLetter(text[i + 1], word[i + 1]);
        }
      }
      if Reads(text[1..], word[1..]) && SameLetter(text[0], word[0]) {
        forall i | 0 <= i < |text| ensures SameLetter(text[i], word[i]) {
          assert i > 0 ==> SameLetter(text[1..][i - 1], word[1..][i - 1]);
        }
      }
    }
  }

  lemma TestsMean(blank: Blank, line: Line)
    ensures WellShaped(blank, line) <==> HasShape(blank, line)
    ensures Fails(line) <==> IsFailure(line)
  {
    if line.TurnCompleted? && line.status.Some? {
      LowerMeans(line.status.value, "completed");
      LowerMeans(line.status.value, "success");
      LowerMeans(line.status.value, "succeeded");
    }
  }

  ghost predicate EndsTurn(line: Line) {
    line.TurnCompleted? || line.TurnFailed? || line.ErrorEvent?
  }

  /** A turn was started and not ended since. */
  ghost predicate TurnOpen(lines: seq<Line>) {
    exists i | 0 <= i < |lines| :: OpenFrom(lines, i)
  }

  ghost predicate OpenFrom(lines: seq<Line>, i: nat)
    requires i < |lines|
  {
    lines[i].TurnStarted? && NoneEnds(lines[i + 1..])
  }

  ghost predicate NoneEnds(lines: seq<Line>) {
    forall i | 0 <= i < |lines| :: !EndsTurn(lines[i])
  }

  ghost predicate HasFailed(lines: seq<Line>) {
    exists i | 0 <= i < |lines| :: IsFailure(lines[i])
  }

  /** Some turn was completed and none was started after the last completion. */
  ghost predicate LastTurnCompleted(lines: seq<Line>) {
    exists i | 0 <= i < |lines| :: CompletedFrom(lines, i)
  }

  ghost predicate CompletedFrom(lines: seq<Line>, i: nat)
    requires i < |lines|
  {
    lines[i].TurnCompleted? && NoneStarts(lines[i + 1..])
  }

  ghost predicate NoneStarts(lines: seq<Line>) {
    forall i | 0 <= i < |lines| :: !lines[i].TurnStarted?
  }

  ghost predicate NoMessage(lines: seq<Line>) {
    forall i | 0 <= i < |lines| :: !IsMessage(lines[i])
  }

  ghost predicate IsMessage(line: Line) {
    line.ItemCompleted? && line.item.Message?
  }

  ghost predicate NoThread(lines: seq<Line>) {
    forall i | 0 <= i < |lines| :: !lines[i].ThreadStarted?
  }

  /** The text of the last message, the empty text when there is none. */
  ghost predicate LastText(lines: seq<Line>, text: string) {
    || (NoMessage(lines) && text == "")
    || exists i | 0 <= i < |lines| ::
         IsMessage(lines[i]) && lines[i].item.text == Some(text) && NoMessage(lines[i + 1..])
  }

  ghost predicate LastThread(lines: seq<Line>, id: Option<string>) {
    || (NoThread(lines) && id == None)
    || exists i | 0 <= i < |lines| ::
         lines[i].ThreadStarted? && lines[i].threadId == id && NoThread(lines[i + 1..])
  }

  /** Every line has its shape, and no turn is started inside another. */
  ghost predicate Accepted(blank: Blank, lines: seq<Line>) {
    forall n | 0 <= n < |lines| :: AcceptedAt(blank, lines[..n], lines[n])
  }

  ghost predicate AcceptedAt(blank: Blank, before: seq<Line>, line: Line) {
    HasShape(blank, line) && !(line.TurnStarted? && TurnOpen(before))
  }

  /** What the parser says of an accepted history. */
  ghost predicate Summarizes(lines: seq<Line>, output: Output) {
    && output.failure == HasFailed(lines)
    && output.success == (!HasFailed(lines) && LastTurnCompleted(lines))
    && LastText(lines, output.finalText)
    && LastThread(lines, output.threadId)
  }

  // ---------------------------------------------------------------------------------
  // One more line
  // ---------------------------------------------------------------------------------

  lemma DropSnoc(lines: seq<Line>, line: Line, i: nat)
    requires i < |lines|
    ensures (lines + [line])[i + 1..] == lines[i + 1..] + [line]
    ensures (lines + [line])[i] == lines[i]
  {
  }

  lemma NoneEndsSnoc(lines: seq<Line>, line: Line)
    ensures NoneEnds(lines + [line]) <==> NoneEnds(lines) && !EndsTurn(line)
  {
    assert (lines + [line])[|lines|] == line;
    assert forall k | 0 <= k < |lines| :: (lines + [line])[k] == lines[k];
  }

  lemma NoneStartsSnoc(lines: seq<Line>, line: Line)
    ensures NoneStarts(lines + [line]) <==> NoneStarts(lines) && !line.TurnStarted?
  {
    assert (lines + [line])[|lines|] == line;
    assert forall k | 0 <= k < |lines| :: (lines + [line])[k] == lines[k];
  }

  lemma OpenFromSnoc(lines: seq<Line>, line: Line, i: nat)
    requires i < |lines|
    ensures OpenFrom(lines + [line], i) <==> OpenFrom(lines, i) && !EndsTurn(line)
    ensures CompletedFrom(lines + [line], i) <==> CompletedFrom(lines, i) && !line.TurnStarted?
  {
    DropSnoc(lines, line, i);
    NoneEndsSnoc(lines[i + 1..], line);
    NoneStartsSnoc(lines[i + 1..], line);
  }

  lemma FromLast(lines: seq<Line>, line: Line)
    ensures OpenFrom(lines + [line], |lines|) <==> line.TurnStarted?
    ensures CompletedFrom(lines + [line], |lines|) <==> line.TurnCompleted?
  {
    assert (lines + [line])[|lines| + 1..] == [];
  }

  lemma TurnOpenSnoc(lines: seq<Line>, line: Line)
    ensures TurnOpen(lines + [line]) <==> line.TurnStarted? || (TurnOpen(lines) && !EndsTurn(line))
  {
    FromLast(lines, line);
    forall i | 0 <= i < |lines| ensures OpenFrom(lines + [line], i) <==> OpenFrom(lines, i) && !EndsTurn(line) {
      OpenFromSnoc(lines, line, i);
    }
  }

  lemma HasFailedSnoc(lines: seq<Line>, line: Line)
    ensures HasFailed(lines + [line]) <==> HasFailed(lines) || IsFailure(line)
  {
    var longer := lines + [line];
    assert longer[|lines|] == line;
    assert forall i | 0 <= i < |lines| :: longer[i] == lines[i];
  }

  lemma LastTurnSnoc(lines: seq<Line>, line: Line)
    ensures LastTurnCompleted(lines + [line]) <==>
              line.TurnCompleted? || (LastTurnCompleted(lines) && !line.TurnStarted?)
  {
    FromLast(lines, line);
    forall i | 0 <= i < |lines|
      ensures CompletedFrom(lines + [line], i) <==> CompletedFrom(lines, i) && !line.TurnStarted?
    {
      OpenFromSnoc(lines, line, i);
    }
  }

  lemma LastTextSnoc(lines: seq<Line>, line: Line, text: string)
    requires LastText(lines, text)
    requires IsMessage(line) ==> line.item.text.Some?
    ensures LastText(lines + [line], if IsMessage(line) then line.item.text.value else text)
  {
    var longer := lines + [line];
    if IsMessage(line) {
      assert longer[|lines|] == line && NoMessage(longer[|lines| + 1..]);
    } else if NoMessage(lines) && text == "" {
      assert NoMessage(longer);
    } else {
      var i :| 0 <= i < |lines| && IsMessage(lines[i]) && lines[i].item.text == Some(text) && NoMessage(lines[i + 1..]);
      DropSnoc(lines, line, i);
      assert IsMessage(longer[i]) && NoMessage(longer[i + 1..]);
    }
  }

  lemma LastThreadSnoc(lines: seq<Line>, line: Line, id: Option<string>)
    requires LastThread(lines, id)
    ensures LastThread(lines + [line], if line.ThreadStarted? then line.threadId else id)
  {
    var longer := lines + [line];
    if line.ThreadStarted? {
      assert longer[|lines|] == line && NoThread(longer[|lines| + 1..]);
    } else if NoThread(lines) && id == None {
      assert NoThread(longer);
    } else {
      var i :| 0 <= i < |lines| && lines[i].ThreadStarted? && lines[i].threadId == id && NoThread(lines[i + 1..]);
      DropSnoc(lines, line, i);
      assert longer[i].ThreadStarted? && NoThread(longer[i + 1..]);
    }
  }

  // ---------------------------------------------------------------------------------
  // The parser
  // ---------------------------------------------------------------------------------

  datatype ProtocolError = BadLine(number: nat) | BadTurnOrder

  /** The error is about the first line that is not accepted, counted from 1 if its shape is wrong. */
  ghost predicate FirstRejected(blank: Blank, lines: seq<Line>, error: ProtocolError) {
    exists n | 0 <= n < |lines| ::
      && (forall k | 0 <= k < n :: AcceptedAt(blank, lines[..k], lines[k]))
      && !AcceptedAt(blank, lines[..n], lines[n])
      && error == if HasShape(blank, lines[n]) then BadTurnOrder else BadLine(n + 1)
  }

  /** Accepts exactly the accepted histories and says of each what it means. */
  method ParseCodexJsonl(blank: Blank, lines: seq<Line>) returns (r: Result<Output, ProtocolError>)
    ensures r.Ok? <==> Accepted(blank, lines)
    ensures r.Ok? ==> Summarizes(lines, r.value)
    ensures r.Ok? ==> !(r.value.success && r.value.failure)
    ensures r.Err? ==> FirstRejected(blank, lines, r.error)
  {
    var finalText, threadId, success, failure, turnOpen := "", None, false, false, false;
    var n := 0;
    while n < |lines|
      invariant 0 <= n <= |lines|
      invariant forall k | 0 <= k < n :: AcceptedAt(blank, lines[..k], lines[k])
      invariant turnOpen == TurnOpen(lines[..n])
      invariant Summarizes(lines[..n], Output(finalText, threadId, success, failure))
    {
      var line := lines[n];
      ghost var before := lines[..n];
      assert lines[..n + 1] == before + [line];
      TurnOpenSnoc(before, line);
      HasFailedSnoc(before, line);
      TestsMean(blank, line);
      LastTurnSnoc(before, line);
      LastThreadSnoc(before, line, threadId);
      if !WellShaped(blank, line) {
        assert !AcceptedAt(blank, before, line);
        return Err(BadLine(n + 1));
      }
      LastTextSnoc(before, line, finalText);
      match line {
        case ThreadStarted(id) =>
          threadId := id;
        case TurnStarted =>
          if turnOpen {
            assert !AcceptedAt(blank, before, line);
            return Err(BadTurnOrder);
          }
          turnOpen := true;
          if !failure {
            success := false;
          }
        case ItemCompleted(item) =>
          if item.Message? {
            finalText := item.text.value;
          }
        case TurnCompleted(status, error) =>
          turnOpen := false;
          if status.Some? && Lower(status.value) !in ["completed", "success", "succeeded"] {
            failure, success := true, false;
          } else if error {
            failure, success := true, false;
          } else if !failure {
            success := true;
          }
        case TurnFailed =>
          failure, success, turnOpen := true, false, false;
        case ErrorEvent =>
          failure, success, turnOpen := true, false, false;
        case _ =>
      }
      n := n + 1;
    }
    assert lines[..n] == lines;
    r := Ok(Output(finalText, threadId, success, failure));
  }

  /** Failure is permanent: once a prefix of the stream has failed no longer stream succeeds. */
  lemma FailureIsPermanent(lines: seq<Line>, more: seq<Line>, before: Output, after: Output)
    requires Summarizes(lines, before) && Summarizes(lines + more, after)
    ensures before.failure ==> after.failure && !after.success
  {
    if before.failure {
      var i :| 0 <= i < |lines| && IsFailure(lines[i]);
      assert IsFailure((lines + more)[i]);
    }
  }

  lemma MessageInRest(lines: seq<Line>, i: nat, j: nat)
    requires i < |lines| && j < |lines| && IsMessage(lines[j])
    ensures i < j ==> !NoMessage(lines[i + 1..])
  {
    if i < j {
      assert lines[i + 1..][j - i - 1] == lines[j];
    }
  }

  lemma ThreadInRest(lines: seq<Line>, i: nat, j: nat)
    requires i < |lines| && j < |lines| && lines[j].ThreadStarted?
    ensures i < j ==> !NoThread(lines[i + 1..])
  {
    if i < j {
      assert lines[i + 1..][j - i - 1] == lines[j];
    }
  }

  lemma LastTextIsUnique(lines: seq<Line>, a: string, b: string)
    requires LastText(lines, a) && LastText(lines, b)
    ensures a == b
  {
    if NoMessage(lines) {
    } else {
      var i :| 0 <= i < |lines| && IsMessage(lines[i]) && lines[i].item.text == Some(a) && NoMessage(lines[i + 1..]);
      var j :| 0 <= j < |lines| && IsMessage(lines[j]) && lines[j].item.text == Some(b) && NoMessage(lines[j + 1..]);
      MessageInRest(lines, i, j);
      MessageInRest(lines, j, i);
    }
  }

  lemma LastThreadIsUnique(lines: seq<Line>, a: Option<string>, b: Option<string>)
    requires LastThread(lines, a) && LastThread(lines, b)
    ensures a == b
  {
    if NoThread(lines) {
    } else {
      var i :| 0 <= i < |lines| && lines[i].ThreadStarted? && lines[i].threadId == a && NoThread(lines[i + 1..]);
      var j :| 0 <= j < |lines| && lines[j].ThreadStarted? && lines[j].threadId == b && NoThread(lines[j + 1..]);
      ThreadInRest(lines, i, j);
      ThreadInRest(lines, j, i);
    }
  }

  /** A history has one meaning. */
  lemma SummaryIsUnique(lines: seq<Line>, a: Output, b: Output)
    requires Summarizes(lines, a) && Summarizes(lines, b)
    ensures a == b
  {
    LastTextIsUnique(lines, a.finalText, b.finalText);
    LastThreadIsUnique(lines, a.threadId, b.threadId);
  }

  // ---------------------------------------------------------------------------------
  // The run
  // ---------------------------------------------------------------------------------

  datatype Process = Process(code: int, truncated: bool, blankOutput: bool, lines: seq<Line>)

  datatype RunError =
    | NonzeroExit
    | Truncated
    | EmptyStream
    | Protocol(error: ProtocolError)
    | NotSuccessful
    | NoFinalText

  ghost predicate Clean(process: Process) {
    process.code == 0 && !process.truncated && !process.blankOutput
  }

  /** A run is accepted exactly when it exited cleanly, its stream is complete and accepted, nothing in
      it failed, its last turn was completed, and, for an analysis, there is a last message. */
  method RunCodex(blank: Blank, asks: bool, process: Process) returns (r: Result<(string, Option<string>), RunError>)
    requires blank("")
    ensures r.Ok? <==>
      && Clean(process) && Accepted(blank, process.lines)
      && !HasFailed(process.lines) && LastTurnCompleted(process.lines)
      && (asks ==> exists text :: LastText(process.lines, text) && !blank(text))
    ensures r.Ok? ==> LastText(process.lines, r.value.0) && LastThread(process.lines, r.value.1)
    ensures r == Err(NonzeroExit) <==> process.code != 0
    ensures r == Err(Truncated) <==> process.code == 0 && process.truncated
    ensures r == Err(EmptyStream) <==> process.code == 0 && !process.truncated && process.blankOutput
    ensures r.Err? && r.error.Protocol? ==> FirstRejected(blank, process.lines, r.error.error)
    ensures r == Err(NotSuccessful) <==>
      && Clean(process) && Accepted(blank, process.lines)
      && (HasFailed(process.lines) || !LastTurnCompleted(process.lines))
    ensures r == Err(NoFinalText) ==> asks && exists text :: LastText(process.lines, text) && blank(text)
  {
    if process.code != 0 {
      return Err(NonzeroExit);
    }
    if process.truncated {
      return Err(Truncated);
    }
    if process.blankOutput {
      return Err(EmptyStream);
    }
    var parsed := ParseCodexJsonl(blank, process.lines);
    if parsed.Err? {
      return Err(Protocol(parsed.error));
    }
    var output := parsed.value;
    if !output.success {
      return Err(NotSuccessful);
    }
    forall text | LastText(process.lines, text) ensures text == output.finalText {
      LastTextIsUnique(process.lines, text, output.finalText);
    }
    if asks && blank(output.finalText) {
      return Err(NoFinalText);
    }
    r := Ok((output.finalText, output.threadId));
  }
}
