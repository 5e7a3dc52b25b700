/** Running ratline commands as one transaction, undone in reverse when one fails (internal/cli/compose.go). */
module Compose {
  import opened Text

  /** One command, and how to take it back; `undo` is None for a step that is kept. */
  datatype Step = Step(what: string, argv: seq<string>, undo: Option<seq<string>>, kept: string)

  datatype Plan = Plan(steps: seq<Step>, notes: seq<string>)

  datatype Flags = Flags(dryRun: bool, yes: bool, quiet: bool, noInput: bool)

  datatype Call = Call(argv: seq<string>, ok: bool)

  /** Whether a command succeeds, given everything that ran before it. */
  type Env = (seq<Call>, seq<string>) -> bool

  // ----- what the calls are ---------------------------------------------------------------------

  /** The global flags are carried into each step explicitly: exactly those that are set. */
  function Inherited(f: Flags): (flags: seq<string>)
    ensures forall s :: s in flags <==>
              (s == "--dry-run" && f.dryRun) || (s == "--yes" && f.yes)
              || (s == "--quiet" && f.quiet) || (s == "--no-input" && f.noInput)
    ensures forall i, j :: 0 <= i < j < |flags| ==> flags[i] != flags[j]
  {
    (if f.dryRun then ["--dry-run"] else []) + (if f.yes then ["--yes"] else [])
    + (if f.quiet then ["--quiet"] else []) + (if f.noInput then ["--no-input"] else [])
  }

  function Forward(s: Step, f: Flags): seq<string> {
    s.argv + Inherited(f)
  }

  function Backward(s: Step): seq<string>
    requires s.undo.Some?
  {
    s.undo.value + ["--yes"]
  }

  /** How many steps, from the first, succeed one after another. */
  function Completed(log: seq<Call>, steps: seq<Step>, f: Flags, env: Env): (k: nat)
    ensures k <= |steps|
    decreases |steps|
  {
    if steps == [] || !env(log, Forward(steps[0], f)) then 0
    else 1 + Completed(log + [Call(Forward(steps[0], f), true)], steps[1..], f, env)
  }

  /** The calls of steps that all succeed. */
  function Successes(steps: seq<Step>, f: Flags): seq<Call> {
    seq(|steps|, i requires 0 <= i < |steps| => Call(Forward(steps[i], f), true))
  }

  /** What running the steps calls: those that succeed, and the one that fails. */
  function Attempts(log: seq<Call>, steps: seq<Step>, f: Flags, env: Env): seq<Call> {
    var k := Completed(log, steps, f, env);
    Successes(steps[..k], f) + if k < |steps| then [Call(Forward(steps[k], f), false)] else []
  }

  /** What taking steps back calls: each that can be taken back, the last first, whether or not the
      ones before it could be. */
  function Unwinding(log: seq<Call>, steps: seq<Step>, env: Env): seq<Call>
    decreases |steps|
  {
    if steps == [] then []
    else
      var s, front := steps[|steps| - 1], steps[..|steps| - 1];
      if s.undo.None? then Unwinding(log, front, env)
      else
        var c := Call(Backward(s), env(log, Backward(s)));
        [c] + Unwinding(log + [c], front, env)
  }

  function IfUndoable(s: Step): seq<Step> {
    if s.undo.Some? then [s] else []
  }

  function Undoable(steps: seq<Step>): seq<Step> {
    if steps == [] then [] else Undoable(steps[..|steps| - 1]) + IfUndoable(steps[|steps| - 1])
  }

  /** The steps `done` remembers; a dry run remembers none. */
  function Remembered(steps: seq<Step>, f: Flags): seq<Step> {
    if f.dryRun then [] else Undoable(steps)
  }

  /** The whole run of a plan. */
  function Execution(log: seq<Call>, steps: seq<Step>, f: Flags, env: Env): seq<Call> {
    var k, tries := Completed(log, steps, f, env), Attempts(log, steps, f, env);
    tries + if k == |steps| then [] else Unwinding(log + tries, Remembered(steps[..k], f), env)
  }

  // ----- the composer ---------------------------------------------------------------------------

  class Composer {
    const flags: Flags
    var done: seq<Step>
    var log: seq<Call>

    constructor (f: Flags)
      ensures flags == f && done == [] && log == []
    {
      flags, done, log := f, [], [];
    }

    method RunArgv(argv: seq<string>, env: Env) returns (ok: bool)
      modifies this`log
      ensures ok == env(old(log), argv) && log == old(log) + [Call(argv, ok)]
    {
      ok := env(log, argv);
      log := log + [Call(argv, ok)];
    }

    method Run(s: Step, env: Env) returns (ok: bool)
      modifies this
      ensures ok == env(old(log), Forward(s, flags))
      ensures log == old(log) + [Call(Forward(s, flags), ok)]
      ensures done == old(done) + if ok && !flags.dryRun then IfUndoable(s) else []
    {
      ok := RunArgv(s.argv + Inherited(flags), env);
      if ok && s.undo.Some? && !flags.dryRun {
        done := done + [s];
      }
    }

    method Unwind(env: Env)
      requires forall i :: 0 <= i < |done| ==> done[i].undo.Some?
      modifies this`log
      ensures log == old(log) + Unwinding(old(log), done, env)
    {
      var i := |done|;
      assert done[..i] == done;
      while i > 0
        invariant 0 <= i <= |done|
        invariant log + Unwinding(log, done[..i], env) == old(log) + Unwinding(old(log), done, env)
      {
        i := i - 1;
        var s := done[i];
        assert done[..i + 1][..i] == done[..i];
        ghost var before := log;
        var ok := RunArgv(s.undo.value + ["--yes"], env);
        ghost var c := Call(Backward(s), ok);
        assert before + ([c] + Unwinding(log, done[..i], env)) == before + [c] + Unwinding(log, done[..i], env);
      }
    }

    /** The steps in order, up to the first that fails. */
    method RunSteps(steps: seq<Step>, env: Env) returns (ok: bool)
      requires done == []
      modifies this
      ensures ok <==> Completed(old(log), steps, flags, env) == |steps|
      ensures log == old(log) + Attempts(old(log), steps, flags, env)
      ensures done == Remembered(steps[..Completed(old(log), steps, flags, env)], flags)
    {
      hide Unwinding;
      hide Completed;
      hide Remembered;
      hide Successes;
      hide Forward;
      hide IfUndoable;
      ghost var k := Completed(log, steps, flags, env);
      NothingYet(flags);
      for i := 0 to |steps|
        invariant i <= k
        invariant log == old(log) + Successes(steps[..i], flags)
        invariant done == Remembered(steps[..i], flags)
      {
        CompletedIs(old(log), steps, flags, env, i);
        RememberedMore(steps, i, flags);
        SuccessesMore(steps, i, flags);
        ok := Run(steps[i], env);
        if !ok {
          return false;
        }
      }
      assert Successes(steps, flags) + [] == Successes(steps, flags);
      return true;
    }

    /** Runs the plan, taking back what it built on the first failure. */
    method Execute(p: Plan, env: Env) returns (ok: bool)
      requires done == []
      modifies this
      ensures ok <==> Completed(old(log), p.steps, flags, env) == |p.steps|
      ensures log == old(log) + Execution(old(log), p.steps, flags, env)
    {
      hide Unwinding;
      hide Completed;
      hide Attempts;
      hide Undoable;
      ghost var k, tries := Completed(log, p.steps, flags, env), Attempts(log, p.steps, flags, env);
      NothingToUnwind(log + tries, env);
      ok := RunSteps(p.steps, env);
      if !ok && |done| > 0 {
        UndoableCanBeUndone(p.steps[..k]);
        Unwind(env);
      }
      assert tries + [] == tries;
    }
  }

  lemma NothingToUnwind(log: seq<Call>, env: Env)
    ensures Unwinding(log, [], env) == []
  {
  }

  lemma SuccessesMore(steps: seq<Step>, i: nat, f: Flags)
    requires i < |steps|
    ensures Successes(steps[..i + 1], f) == Successes(steps[..i], f) + [Call(Forward(steps[i], f), true)]
  {
  }

  lemma NothingYet(f: Flags)
    ensures Successes([], f) == [] && Remembered([], f) == []
  {
  }

  lemma RememberedMore(steps: seq<Step>, i: nat, f: Flags)
    requires i < |steps|
    ensures Remembered(steps[..i + 1], f) == Remembered(steps[..i], f) + if f.dryRun then [] else IfUndoable(steps[i])
  {
    assert steps[..i + 1][..i] == steps[..i];
    assert Undoable(steps[..i + 1]) == Undoable(steps[..i]) + IfUndoable(steps[i]);
  }

  lemma {:induction false} UndoableCanBeUndone(steps: seq<Step>)
    ensures forall i :: 0 <= i < |Undoable(steps)| ==> Undoable(steps)[i].undo.Some?
  {
    if steps != [] {
      UndoableCanBeUndone(steps[..|steps| - 1]);
      assert Undoable(steps) == Undoable(steps[..|steps| - 1]) + IfUndoable(steps[|steps| - 1]);
    }
  }

  /** The steps that complete are those that each succeed after all the earlier ones did. */
  lemma {:induction false} CompletedIs(log: seq<Call>, steps: seq<Step>, f: Flags, env: Env, i: nat)
    requires i <= Completed(log, steps, f, env) && i < |steps|
    ensures i < Completed(log, steps, f, env) <==> env(log + Successes(steps[..i], f), Forward(steps[i], f))
    decreases i
  {
    if i == 0 {
      assert log + Successes(steps[..0], f) == log;
    } else {
      var c := Call(Forward(steps[0], f), true);
      CompletedIs(log + [c], steps[1..], f, env, i - 1);
      assert log + [c] + Successes(steps[1..][..i - 1], f) == log + Successes(steps[..i], f);
    }
  }

  // ----- which steps are taken back ----------------------------------------------------------------

  /** Taking back the remembered steps is taking back all the steps that completed. */
  lemma {:induction false} UnwindingSkipsKept(log: seq<Call>, steps: seq<Step>, env: Env)
    ensures Unwinding(log, Undoable(steps), env) == Unwinding(log, steps, env)
    decreases |steps|
  {
    if steps != [] {
      var s, front := steps[|steps| - 1], steps[..|steps| - 1];
      if s.undo.Some? {
        assert Undoable(steps) == Undoable(front) + [s];
        assert Undoable(steps)[..|Undoable(front)|] == Undoable(front);
        var c := Call(Backward(s), env(log, Backward(s)));
        UnwindingSkipsKept(log + [c], front, env);
      } else {
        assert Undoable(steps) == Undoable(front) + [] == Undoable(front);
        UnwindingSkipsKept(log, front, env);
      }
    }
  }

  /** The calls take back every step once, the last first. */
  predicate Reverses(calls: seq<Call>, steps: seq<Step>) {
    |calls| == |steps|
    && forall i :: 0 <= i < |calls| ==>
         steps[|steps| - 1 - i].undo.Some? && calls[i].argv == Backward(steps[|steps| - 1 - i])
  }

  /** Each remembered step is taken back once, in strictly reverse order, whatever the answers. */
  lemma {:induction false} UnwindingReverses(log: seq<Call>, steps: seq<Step>, env: Env)
    requires forall i :: 0 <= i < |steps| ==> steps[i].undo.Some?
    ensures Reverses(Unwinding(log, steps, env), steps)
    decreases |steps|
  {
    if steps != [] {
      var s, front := steps[|steps| - 1], steps[..|steps| - 1];
      var c := Call(Backward(s), env(log, Backward(s)));
      UnwindingReverses(log + [c], front, env);
      forall i | 0 < i < |steps|
        ensures Unwinding(log, steps, env)[i].argv == Backward(steps[|steps| - 1 - i])
      {
        assert front[|front| - 1 - (i - 1)] == steps[|steps| - 1 - i];
      }
    }
  }

  /** A run that completes calls the steps and nothing else. A run whose step k fails calls the steps
      up to and including k, then the undo of every earlier step that has one, in reverse; a dry run
      takes nothing back. */
  lemma CallsOfARun(log: seq<Call>, steps: seq<Step>, f: Flags, env: Env)
    ensures var k, run := Completed(log, steps, f, env), Execution(log, steps, f, env);
            (k == |steps| ==> run == Successes(steps, f))
            && (k < |steps| ==>
                  |run| >= k + 1 && run[..k] == Successes(steps[..k], f)
                  && run[k] == Call(Forward(steps[k], f), false)
                  && Reverses(run[k + 1..], Remembered(steps[..k], f)))
  {
    var k, tries := Completed(log, steps, f, env), Attempts(log, steps, f, env);
    assert steps[..|steps|] == steps;
    if k < |steps| {
      var undos := Remembered(steps[..k], f);
      UndoableCanBeUndone(steps[..k]);
      UnwindingReverses(log + tries, undos, env);
      assert |tries| == k + 1;
      hide Unwinding;
      hide Undoable;
    }
  }

  lemma {:induction false} UndoableAreSteps(steps: seq<Step>)
    ensures forall u :: u in Undoable(steps) ==> u in steps
  {
    if steps != [] {
      UndoableAreSteps(steps[..|steps| - 1]);
      assert Undoable(steps) == Undoable(steps[..|steps| - 1]) + IfUndoable(steps[|steps| - 1]);
      assert steps == steps[..|steps| - 1] + [steps[|steps| - 1]];
    }
  }

  /** Each call of a run is a step, or takes back a step that succeeded earlier in the same run. */
  lemma CallOf(log: seq<Call>, steps: seq<Step>, f: Flags, env: Env, i: nat) returns (j: nat)
    requires i < |Execution(log, steps, f, env)|
    ensures var k, run := Completed(log, steps, f, env), Execution(log, steps, f, env);
            j < |steps| && j <= i
            && (i <= k ==> j == i && run[i].argv == Forward(steps[j], f) == steps[j].argv + Inherited(f))
            && (i > k ==> j < k && run[j] == Call(Forward(steps[j], f), true)
                          && steps[j].undo.Some?
                          && run[i].argv == Backward(steps[j]) == steps[j].undo.value + ["--yes"])
  {
    CallsOfARun(log, steps, f, env);
    var k, run := Completed(log, steps, f, env), Execution(log, steps, f, env);
    hide Execution;
    j := i;
    if i > k {
      var undos := Remembered(steps[..k], f);
      UndoableAreSteps(steps[..k]);
      var u := undos[|undos| - 1 - (i - k - 1)];
      assert run[k + 1..][i - k - 1] == run[i];
      assert u in steps[..k];
      j :| 0 <= j < k && steps[..k][j] == u;
      assert run[j] == run[..k][j];
    } else if i < k {
      assert k < |steps| ==> run[i] == run[..k][i];
    }
  }
}
