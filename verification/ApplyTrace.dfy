/** What can happen to the checkout while a diff is propagated into it: our writes, and whatever
    anybody else does in between. */
module ApplyTrace {

  import opened ApplyChecks

  /** One path to replace: the state it must still have, and the file or hole to leave there. */
  datatype Operation = Operation(path: Path, baseline: Node, target: Node)

  datatype Step = Interference(after: Files) | Wrote(op: Operation)

  function Put(files: Files, path: Path, node: Node): Files {
    files[path := node]
  }

  /** The checkout after the steps. */
  ghost function Replay(start: Files, trace: seq<Step>): Files {
    if trace == [] then start
    else
      var step := trace[|trace| - 1];
      match step
      case Interference(after) => after
      case Wrote(op) => Put(Replay(start, trace[..|trace| - 1]), op.path, op.target)
  }

  /** Our writes, in order. */
  ghost function Writes(trace: seq<Step>): seq<Operation> {
    if trace == [] then []
    else
      var step := trace[|trace| - 1];
      var before := Writes(trace[..|trace| - 1]);
      if step.Wrote? then before + [step.op] else before
  }

  /** How often somebody else had a turn. */
  ghost function Turns(trace: seq<Step>): nat {
    if trace == [] then 0
    else Turns(trace[..|trace| - 1]) + if trace[|trace| - 1].Interference? then 1 else 0
  }

  /** Nothing but a path in its recorded state is ever overwritten or deleted. */
  ghost predicate Guarded(start: Files, trace: seq<Step>) {
    forall n | 0 <= n < |trace| && trace[n].Wrote? :: Matches(Replay(start, trace[..n]), trace[n].op)
  }

  ghost predicate Matches(files: Files, op: Operation) {
    At(files, op.path) == op.baseline
  }

  /** Nobody else changes anything. */
  ghost predicate Quiet(start: Files, trace: seq<Step>) {
    forall n | 0 <= n < |trace| && trace[n].Interference? :: trace[n].after == Replay(start, trace[..n])
  }

  lemma Snoc(start: Files, trace: seq<Step>, step: Step)
    ensures Replay(start, trace + [step]) ==
            if step.Wrote? then Put(Replay(start, trace), step.op.path, step.op.target) else step.after
    ensures Writes(trace + [step]) == if step.Wrote? then Writes(trace) + [step.op] else Writes(trace)
    ensures Turns(trace + [step]) == Turns(trace) + if step.Interference? then 1 else 0
  {
    assert (trace + [step])[..|trace|] == trace;
  }

  lemma GuardedSnoc(start: Files, trace: seq<Step>, step: Step)
    requires Guarded(start, trace)
    requires step.Wrote? ==> Matches(Replay(start, trace), step.op)
    ensures Guarded(start, trace + [step])
  {
    var longer := trace + [step];
    forall n | 0 <= n < |longer| && longer[n].Wrote?
      ensures Matches(Replay(start, longer[..n]), longer[n].op)
    {
      assert longer[..n] == if n < |trace| then trace[..n] else trace;
    }
  }

  lemma QuietInit(start: Files, trace: seq<Step>)
    requires trace != [] && Quiet(start, trace)
    ensures Quiet(start, trace[..|trace| - 1])
  {
    var shorter := trace[..|trace| - 1];
    forall n | 0 <= n < |shorter| && shorter[n].Interference?
      ensures shorter[n].after == Replay(start, shorter[..n])
    {
      assert shorter[n] == trace[n] && shorter[..n] == trace[..n];
    }
  }

  // ---------------------------------------------------------------------------------
  // The patch
  // ---------------------------------------------------------------------------------

  ghost predicate DistinctPaths(ops: seq<Operation>) {
    forall i, j | 0 <= i < j < |ops| :: ops[i].path != ops[j].path
  }

  /** The checkout with all operations patched in, and nothing else changed. */
  ghost predicate Patched(start: Files, ops: seq<Operation>, files: Files) {
    && (forall i | 0 <= i < |ops| :: At(files, ops[i].path) == ops[i].target)
    && (forall p | (forall i | 0 <= i < |ops| :: ops[i].path != p) :: At(files, p) == At(start, p))
  }

  /** The checkout after the operations, one after the other. */
  ghost function PutAll(files: Files, ops: seq<Operation>): Files {
    if ops == [] then files
    else
      var last := ops[|ops| - 1];
      Put(PutAll(files, ops[..|ops| - 1]), last.path, last.target)
  }

  lemma {:induction false} QuietIsPutAll(start: Files, trace: seq<Step>)
    requires Quiet(start, trace)
    ensures Replay(start, trace) == PutAll(start, Writes(trace))
  {
    if trace == [] {
    } else {
      var shorter, step := trace[..|trace| - 1], trace[|trace| - 1];
      assert trace == shorter + [step];
      Snoc(start, shorter, step);
      QuietInit(start, trace);
      QuietIsPutAll(start, shorter);
      if step.Wrote? {
        assert (Writes(shorter) + [step.op])[..|Writes(shorter)|] == Writes(shorter);
      }
    }
  }

  /** When nobody interferes the checkout is the old one with the writes patched in. */
  lemma {:induction false} QuietIsPatched(start: Files, trace: seq<Step>)
    requires Quiet(start, trace) && DistinctPaths(Writes(trace))
    ensures Patched(start, Writes(trace), Replay(start, trace))
  {
    if trace == [] {
    } else {
      var shorter := trace[..|trace| - 1];
      var step := trace[|trace| - 1];
      assert trace == shorter + [step];
      Snoc(start, shorter, step);
      QuietInit(start, trace);
      var before := Writes(shorter);
      var all := Writes(trace);
      assert DistinctPaths(before) by {
        forall i, j | 0 <= i < j < |before| ensures before[i].path != before[j].path {
          assert all[i] == before[i] && all[j] == before[j];
        }
      }
      QuietIsPatched(start, shorter);
      if step.Wrote? {
        PatchOne(start, before, Replay(start, shorter), step.op);
      }
    }
  }

  lemma PatchOne(start: Files, ops: seq<Operation>, files: Files, op: Operation)
    requires Patched(start, ops, files) && DistinctPaths(ops + [op])
    ensures Patched(start, ops + [op], Put(files, op.path, op.target))
  {
    var all := ops + [op];
    var after := Put(files, op.path, op.target);
    forall i | 0 <= i < |all| ensures At(after, all[i].path) == all[i].target {
      if i < |ops| {
        assert all[i].path != all[|ops|].path;
      }
    }
    forall p | (forall i | 0 <= i < |all| :: all[i].path != p) ensures At(after, p) == At(start, p) {
      assert all[|ops|].path != p;
      forall i | 0 <= i < |ops| ensures ops[i].path != p {
        assert all[i] == ops[i];
      }
    }
  }

  /** The step is not somebody else changing `path`, and not a write that expects to find `edit`. */
  ghost predicate Spares(files: Files, step: Step, path: Path, edit: Node) {
    match step
    case Interference(after) => At(after, path) == At(files, path)
    case Wrote(op) => op.path == path ==> op.baseline != edit
  }

  lemma GuardedAt(start: Files, trace: seq<Step>, n: nat)
    requires n < |trace| && Guarded(start, trace) && trace[n].Wrote?
    ensures Matches(Replay(start, trace[..n]), trace[n].op)
  {
  }

  lemma SparedStep(start: Files, trace: seq<Step>, n: nat, path: Path, edit: Node)
    requires n < |trace| && Guarded(start, trace)
    requires At(Replay(start, trace[..n]), path) == edit
    requires Spares(Replay(start, trace[..n]), trace[n], path, edit)
    ensures At(Replay(start, trace[..n + 1]), path) == edit
  {
    assert trace[..n + 1] == trace[..n] + [trace[n]];
    Snoc(start, trace[..n], trace[n]);
    if trace[n].Wrote? {
      GuardedAt(start, trace, n);
    }
  }

  /** Somebody else's edit of a path is never overwritten: if it is there at step n and they leave it
      alone from then on, it is there at the end, unless it is exactly a recorded baseline. */
  lemma {:induction false} EditSurvives(start: Files, trace: seq<Step>, n: nat, path: Path, edit: Node)
    requires n <= |trace| && Guarded(start, trace)
    requires At(Replay(start, trace[..n]), path) == edit
    requires forall k | n <= k < |trace| :: Spares(Replay(start, trace[..k]), trace[k], path, edit)
    ensures At(Replay(start, trace), path) == edit
    decreases |trace| - n
  {
    if n == |trace| {
      assert trace[..n] == trace;
    } else {
      SparedStep(start, trace, n, path, edit);
      EditSurvives(start, trace, n + 1, path, edit);
    }
  }
}
