/** The reader of `git status --porcelain=v1 -z` (src/ai_push_hooks/git_utils.py,
    `list_repo_changes`). */
module Porcelain {

  import opened Options
  import opened Strings

  const NUL: char := '\0'

  /** One status entry; a rename or copy also names the path it came from. */
  datatype Entry = Entry(status: string, path: string, origin: Option<string>)

  predicate Moved(status: string) {
    'R' in status || 'C' in status
  }

  ghost predicate Proper(entry: Entry) {
    && |entry.status| == 2
    && entry.path != ""
    && (entry.origin.Some? <==> 'R' in entry.status || 'C' in entry.status)
    && (entry.origin.Some? ==> entry.origin.value != "")
  }

  ghost predicate AllProper(entries: seq<Entry>) {
    forall i | 0 <= i < |entries| :: Proper(entries[i])
  }

  // ---------------------------------------------------------------------------------
  // Printing
  // ---------------------------------------------------------------------------------

  ghost function RecordsOf(entry: Entry): seq<string> {
    [entry.status + " " + entry.path] + if entry.origin.Some? then [entry.origin.value] else []
  }

  ghost function PathsOf(entry: Entry): set<string> {
    {entry.path} + if entry.origin.Some? then {entry.origin.value} else {}
  }

  lemma PathsOfMeans(entry: Entry)
    ensures PathsOf(entry) == if entry.origin.Some? then {entry.path, entry.origin.value} else {entry.path}
  {
  }

  ghost function AllRecords(entries: seq<Entry>): seq<string> {
    if entries == [] then [] else RecordsOf(entries[0]) + AllRecords(entries[1..])
  }

  ghost function AllPaths(entries: seq<Entry>): set<string> {
    if entries == [] then {} else PathsOf(entries[0]) + AllPaths(entries[1..])
  }

  /** The path, or where it came from, is that of an entry. */
  ghost predicate Names(entries: seq<Entry>, path: string) {
    exists i | 0 <= i < |entries| :: entries[i].path == path || entries[i].origin == Some(path)
  }

  lemma {:induction false} AllPathsMean(entries: seq<Entry>, path: string)
    ensures path in AllPaths(entries) <==> Names(entries, path)
  {
    if entries == [] {
    } else {
      PathsOfMeans(entries[0]);
      AllPathsMean(entries[1..], path);
      if Names(entries[1..], path) {
        var i :| 0 <= i < |entries[1..]| && (entries[1..][i].path == path || entries[1..][i].origin == Some(path));
        assert entries[i + 1] == entries[1..][i];
      }
      if i :| 0 < i < |entries| && (entries[i].path == path || entries[i].origin == Some(path)) {
        assert entries[1..][i - 1] == entries[i];
      }
    }
  }

  /** Every record ends in a NUL. */
  ghost function Print(entries: seq<Entry>): string {
    Terminated(AllRecords(entries))
  }

  ghost function Terminated(records: seq<string>): string {
    if records == [] then "" else records[0] + [NUL] + Terminated(records[1..])
  }

  lemma {:induction false} TerminatedIsJoined(records: seq<string>)
    ensures Terminated(records) == Join(records + [""], [NUL])
  {
    if records == [] {
    } else {
      TerminatedIsJoined(records[1..]);
      assert (records + [""])[1..] == records[1..] + [""];
    }
  }

  // ---------------------------------------------------------------------------------
  // Parsing
  // ---------------------------------------------------------------------------------

  /** The two ways a record is malformed. */
  datatype Malformed = BadRecord | BadRename

  /** The paths in the records, each entry read as one or two of them; empty records in front of an
      entry do not count. */
  ghost function Parse(records: seq<string>): Result<set<string>, Malformed> {
    if records == [] then Ok({})
    else if records[0] == "" then Parse(records[1..])
    else if |records[0]| < 4 || records[0][2] != ' ' then Err(BadRecord)
    else if !Moved(records[0][..2]) then WithPaths({records[0][3..]}, Parse(records[1..]))
    else if |records| == 1 || records[1] == "" then Err(BadRename)
    else WithPaths({records[0][3..], records[1]}, Parse(records[2..]))
  }

  ghost function WithPaths(paths: set<string>, rest: Result<set<string>, Malformed>): Result<set<string>, Malformed> {
    if rest.Ok? then Ok(paths + rest.value) else rest
  }

  lemma WithNone(rest: Result<set<string>, Malformed>)
    ensures WithPaths({}, rest) == rest
  {
    if rest.Ok? {
      assert {} + rest.value == rest.value;
    }
  }

  lemma WithTwice(a: set<string>, b: set<string>, rest: Result<set<string>, Malformed>)
    ensures WithPaths(a, WithPaths(b, rest)) == WithPaths(a + b, rest)
  {
    if rest.Ok? {
      assert a + (b + rest.value) == (a + b) + rest.value;
    }
  }

  /** The output is accepted exactly when it spells proper entries; the answer is their paths and the paths
      they came from. */
  method ListRepoChanges(output: string) returns (r: Result<set<string>, Malformed>)
    ensures r == Parse(Split(output, NUL))
    ensures r.Ok? <==> exists entries :: AllProper(entries) && Spells(Split(output, NUL), entries)
    ensures r.Ok? ==>
      exists entries ::
        AllProper(entries) && Spells(Split(output, NUL), entries) && forall p :: p in r.value <==> Names(entries, p)
  {
    AnswerMeans(Split(output, NUL));
    var records := Split(output, NUL);
    var changes: set<string> := {};
    var index := 0;
    assert records[0..] == records;
    WithNone(Parse(records));
    while index < |records|
      invariant 0 <= index <= |records|
      invariant Parse(records) == WithPaths(changes, Parse(records[index..]))
    {
      var record := records[index];
      assert records[index..][0] == record && records[index..][1..] == records[index + 1..];
      index := index + 1;
      if record == "" {
        continue;
      }
      if |record| < 4 || record[2] != ' ' {
        return Err(BadRecord);
      }
      var status := record[..2];
      ghost var before, first := changes, index - 1;
      changes := changes + {record[3..]};
      if Moved(status) {
        if index >= |records| || records[index] == "" {
          return Err(BadRename);
        }
        assert records[first..][1] == records[index] && records[first..][2..] == records[index + 1..];
        changes := changes + {records[index]};
        index := index + 1;
        assert before + {record[3..], records[index - 1]} == changes;
      }
      ghost var paths := if Moved(status) then {record[3..], records[index - 1]} else {record[3..]};
      WithTwice(before, paths, Parse(records[index..]));
    }
    r := Ok(changes);
  }

  // ---------------------------------------------------------------------------------
  // Parsing undoes printing
  // ---------------------------------------------------------------------------------

  lemma ParseEntry(entry: Entry, rest: seq<string>)
    requires Proper(entry)
    ensures Parse(RecordsOf(entry) + rest) == WithPaths(PathsOf(entry), Parse(rest))
  {
    var records := RecordsOf(entry) + rest;
    PathsOfMeans(entry);
    assert records[0] == entry.status + " " + entry.path;
    assert records[0][..2] == entry.status && records[0][2] == ' ' && records[0][3..] == entry.path;
    if entry.origin.Some? {
      assert records[1] == entry.origin.value && records[2..] == rest;
    } else {
      assert records[1..] == rest;
    }
  }

  lemma RecordsThen(entries: seq<Entry>, rest: seq<string>)
    requires entries != []
    ensures AllRecords(entries) + rest == RecordsOf(entries[0]) + (AllRecords(entries[1..]) + rest)
  {
  }

  lemma {:induction false} ParseEntries(entries: seq<Entry>, rest: seq<string>)
    requires AllProper(entries)
    ensures Parse(AllRecords(entries) + rest) == WithPaths(AllPaths(entries), Parse(rest))
  {
    if entries == [] {
      assert AllRecords(entries) + rest == rest;
      WithNone(Parse(rest));
    } else {
      RecordsThen(entries, rest);
      ParseEntry(entries[0], AllRecords(entries[1..]) + rest);
      ParseEntries(entries[1..], rest);
      WithTwice(PathsOf(entries[0]), AllPaths(entries[1..]), Parse(rest));
    }
  }

  /** No record has a NUL in it, as no path has. */
  ghost predicate Printable(records: seq<string>) {
    forall i | 0 <= i < |records| :: NUL !in records[i]
  }

  /** Parsing what was printed gives exactly all the paths. */
  lemma ParsePrint(entries: seq<Entry>)
    requires AllProper(entries) && Printable(AllRecords(entries))
    ensures Parse(Split(Print(entries), NUL)) == Ok(AllPaths(entries))
  {
    var records := AllRecords(entries);
    TerminatedIsJoined(records);
    SplitJoin(records + [""], NUL);
    ParseEntries(entries, [""]);
    assert Parse([""]) == Ok({});
    assert AllPaths(entries) + {} == AllPaths(entries);
  }

  /** A rename at the end of the output whose second path is missing is rejected. */
  lemma MissingOriginRejected(entries: seq<Entry>, status: string, path: string)
    requires AllProper(entries) && Printable(AllRecords(entries))
    requires |status| == 2 && Moved(status) && path != "" && NUL !in status && NUL !in path
    ensures Parse(Split(Terminated(AllRecords(entries) + [status + " " + path]), NUL)) == Err(BadRename)
  {
    var record := status + " " + path;
    var records := AllRecords(entries) + [record];
    TerminatedIsJoined(records);
    SplitJoin(records + [""], NUL);
    assert record[..2] == status;
    assert Parse([record, ""]) == Err(BadRename);
    ParseEntries(entries, [record, ""]);
    assert records + [""] == AllRecords(entries) + [record, ""];
  }

  // ---------------------------------------------------------------------------------
  // Nothing else is accepted
  // ---------------------------------------------------------------------------------

  /** The records spell the entries, with empty records between them. */
  ghost predicate Spells(records: seq<string>, entries: seq<Entry>) {
    if records == [] then entries == []
    else if records[0] == "" then Spells(records[1..], entries)
    else
      && entries != []
      && RecordsOf(entries[0]) <= records
      && Spells(records[|RecordsOf(entries[0])|..], entries[1..])
  }

  /** The entries an accepted output was made of. */
  ghost function EntriesOf(records: seq<string>): (entries: seq<Entry>)
    requires Parse(records).Ok?
  {
    if records == [] then []
    else if records[0] == "" then EntriesOf(records[1..])
    else if !Moved(records[0][..2]) then [Entry(records[0][..2], records[0][3..], None)] + EntriesOf(records[1..])
    else [Entry(records[0][..2], records[0][3..], Some(records[1]))] + EntriesOf(records[2..])
  }

  lemma {:induction false} AcceptedIsSpelled(records: seq<string>)
    requires Parse(records).Ok?
    ensures var entries := EntriesOf(records);
            AllProper(entries) && Spells(records, entries) && Parse(records) == Ok(AllPaths(entries))
    decreases |records|
  {
    if records == [] {
    } else {
      if records[0] == "" {
        AcceptedIsSpelled(records[1..]);
      } else {
        var rest := records[if Moved(records[0][..2]) then 2 else 1..];
        AcceptedIsSpelled(rest);
        var entry := EntriesOf(records)[0];
        assert EntriesOf(records) == [entry] + EntriesOf(rest);
        assert records[0] == entry.status + " " + entry.path;
        assert RecordsOf(entry) <= records && records[|RecordsOf(entry)|..] == rest;
        PathsOfMeans(entry);
      }
    }
  }

  lemma {:induction false} SpelledIsAccepted(records: seq<string>, entries: seq<Entry>)
    requires AllProper(entries) && Spells(records, entries)
    ensures Parse(records) == Ok(AllPaths(entries))
    decreases |records|
  {
    if records == [] {
    } else {
      if records[0] == "" {
        SpelledIsAccepted(records[1..], entries);
      } else {
        var rest := records[|RecordsOf(entries[0])|..];
        SpelledIsAccepted(rest, entries[1..]);
        assert records == RecordsOf(entries[0]) + rest;
        ParseEntry(entries[0], rest);
      }
    }
  }

  /** An output is accepted exactly when it spells proper entries, and the answer is their paths. */
  lemma AcceptsExactly(records: seq<string>, paths: set<string>)
    ensures Parse(records) == Ok(paths) <==>
            exists entries :: AllProper(entries) && Spells(records, entries) && AllPaths(entries) == paths
  {
    if Parse(records) == Ok(paths) {
      AcceptedIsSpelled(records);
    }
    forall entries | AllProper(entries) && Spells(records, entries) ensures Parse(records) == Ok(AllPaths(entries)) {
      SpelledIsAccepted(records, entries);
    }
  }

  lemma AnswerMeans(records: seq<string>)
    ensures Parse(records).Ok? <==> exists entries :: AllProper(entries) && Spells(records, entries)
    ensures Parse(records).Ok? ==>
      exists entries ::
        AllProper(entries) && Spells(records, entries) && forall p :: p in Parse(records).value <==> Names(entries, p)
  {
    if Parse(records).Ok? {
      AcceptedIsSpelled(records);
      var entries := EntriesOf(records);
      forall p ensures p in AllPaths(entries) <==> Names(entries, p) {
        AllPathsMean(entries, p);
      }
    }
    if entries :| AllProper(entries) && Spells(records, entries) {
      SpelledIsAccepted(records, entries);
    }
  }
}
