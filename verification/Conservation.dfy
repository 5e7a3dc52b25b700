/** What a failed run leaves of each resource, by the step that first touched it (internal/cli/compose.go). */
module Conservation {
  import opened Text
  import opened Compose

  /** Resources, by name; one that is not there is not in the map. */
  type World = map<string, string>

  /** What a command does to the world when it succeeds; one that fails does nothing. */
  type Effect = (World, seq<string>) -> World

  function At(w: World, r: string): Option<string> {
    if r in w then Some(w[r]) else None
  }

  function After(w: World, calls: seq<Call>, eff: Effect): World {
    if calls == [] then w
    else
      var u, c := After(w, calls[..|calls| - 1], eff), calls[|calls| - 1];
      if c.ok then eff(u, c.argv) else u
  }

  lemma {:induction false} AfterConcat(w: World, a: seq<Call>, b: seq<Call>, eff: Effect)
    ensures After(w, a + b, eff) == After(After(w, a, eff), b, eff)
    decreases |b|
  {
    if b == [] {
      assert a + b == a;
    } else {
      assert (a + b)[..|a + b| - 1] == a + b[..|b| - 1];
      AfterConcat(w, a, b[..|b| - 1], eff);
    }
  }

  // ----- what is asked of the commands --------------------------------------------------------------

  /** What a step and its undo may change, and which part of that the undo answers for. */
  datatype Region = Region(touched: set<string>, undone: set<string>)

  /** Some step touches the resource. */
  predicate Touched(regions: seq<Region>, r: string) {
    exists i :: 0 <= i < |regions| && r in regions[i].touched
  }

  /** In this world the command changes nothing outside the region. */
  ghost predicate Confined(eff: Effect, argv: seq<string>, w: World, region: Region) {
    forall r: string :: r !in region.touched ==> At(eff(w, argv), r) == At(w, r)
  }

  /** The world agrees with another on a region, but for what later steps touch as well. */
  ghost predicate Agrees(w: World, left: World, region: Region, later: seq<Region>) {
    forall r: string :: r in region.touched && !Touched(later, r) ==> At(w, r) == At(left, r)
  }

  /** In a world where what no later step touches is as the step left it, undoing puts back what the
      step found, whatever later steps did. */
  ghost predicate TakesBack(eff: Effect, undo: seq<string>, w: World, region: Region, later: seq<Region>,
                            found: World, left: World) {
    Agrees(w, left, region, later) ==> forall r: string :: r in region.undone ==> At(eff(w, undo), r) == At(found, r)
  }

  /** The world after the first i steps have succeeded. */
  function Before(w: World, steps: seq<Step>, f: Flags, eff: Effect, i: nat): World
    requires i <= |steps|
  {
    After(w, Successes(steps[..i], f), eff)
  }

  /** The undo of step i is reached and succeeds. */
  predicate TakenBack(log: seq<Call>, steps: seq<Step>, env: Env, i: nat)
    requires i < |steps|
  {
    steps[i].undo.Some? && env(log + Unwinding(log, steps[i + 1..], env), Backward(steps[i]))
  }

  /** The world once the steps from i on have been taken back. */
  function Unwound(w: World, log: seq<Call>, steps: seq<Step>, eff: Effect, env: Env, i: nat): World
    requires i <= |steps|
  {
    After(w, Unwinding(log, steps[i..], env), eff)
  }

  /** The world in which the undo of step i is called. */
  function Later(w: World, log: seq<Call>, steps: seq<Step>, f: Flags, eff: Effect, env: Env, i: nat): World
    requires i < |steps|
  {
    Unwound(Before(w, steps, f, eff, |steps|), log, steps, eff, env, i + 1)
  }

  /** Step i keeps to its region where it runs; and so does its undo, if it succeeds, where its turn
      comes. */
  ghost predicate Keeps(w: World, log: seq<Call>, steps: seq<Step>, regions: seq<Region>, f: Flags, eff: Effect,
                        env: Env, i: nat)
    requires i < |steps| == |regions|
  {
    Confined(eff, Forward(steps[i], f), Before(w, steps, f, eff, i), regions[i])
    && (TakenBack(log, steps, env, i) ==>
          Confined(eff, Backward(steps[i]), Later(w, log, steps, f, eff, env, i), regions[i]))
  }

  /** Every step of a run keeps to its region, there and back. */
  ghost predicate Framed(w: World, log: seq<Call>, steps: seq<Step>, regions: seq<Region>, f: Flags, eff: Effect,
                         env: Env)
  {
    |regions| == |steps| && forall i :: 0 <= i < |steps| ==> Keeps(w, log, steps, regions, f, eff, env, i)
  }

  /** And if the undo of step i succeeds, it takes the step back. */
  ghost predicate Orderly(w: World, log: seq<Call>, steps: seq<Step>, regions: seq<Region>, f: Flags, eff: Effect,
                          env: Env, i: nat)
    requires i < |steps| == |regions|
  {
    Keeps(w, log, steps, regions, f, eff, env, i)
    && (TakenBack(log, steps, env, i) ==>
          TakesBack(eff, Backward(steps[i]), Later(w, log, steps, f, eff, env, i), regions[i], regions[i + 1..],
                    Before(w, steps, f, eff, i), Before(w, steps, f, eff, i + 1)))
  }

  ghost predicate Compensable(w: World, log: seq<Call>, steps: seq<Step>, regions: seq<Region>, f: Flags, eff: Effect,
                              env: Env)
  {
    |regions| == |steps| && forall i :: 0 <= i < |steps| ==> Orderly(w, log, steps, regions, f, eff, env, i)
  }

  /** The undo deletes what it answers for. */
  ghost predicate Removes(eff: Effect, undo: seq<string>, w: World, region: Region) {
    forall r: string :: r in region.undone ==> At(eff(w, undo), r) == None
  }

  /** Every step keeps to its region, and every undo that succeeds deletes. */
  ghost predicate Removable(w: World, log: seq<Call>, steps: seq<Step>, regions: seq<Region>, f: Flags, eff: Effect,
                            env: Env)
  {
    Framed(w, log, steps, regions, f, eff, env)
    && forall i :: 0 <= i < |steps| && TakenBack(log, steps, env, i) ==>
         Removes(eff, Backward(steps[i]), Later(w, log, steps, f, eff, env, i), regions[i])
  }

  lemma CompensableIsFramed(w: World, log: seq<Call>, steps: seq<Step>, regions: seq<Region>, f: Flags, eff: Effect,
                            env: Env)
    requires Compensable(w, log, steps, regions, f, eff, env)
    ensures Framed(w, log, steps, regions, f, eff, env)
  {
    forall i | 0 <= i < |steps| ensures Keeps(w, log, steps, regions, f, eff, env, i) {
      assert Orderly(w, log, steps, regions, f, eff, env, i);
    }
  }

  // ----- going forward --------------------------------------------------------------------------------

  lemma BeforeNext(w: World, steps: seq<Step>, f: Flags, eff: Effect, i: nat)
    requires i < |steps|
    ensures Before(w, steps, f, eff, i + 1) == eff(Before(w, steps, f, eff, i), Forward(steps[i], f))
  {
    SuccessesMore(steps, i, f);
    AfterConcat(w, Successes(steps[..i], f), [Call(Forward(steps[i], f), true)], eff);
  }

  /** What the steps from i to j do not touch, they leave. */
  lemma {:induction false} ForwardFrame(w: World, log: seq<Call>, steps: seq<Step>, regions: seq<Region>,
                                        f: Flags, eff: Effect, env: Env, i: nat, j: nat, r: string)
    requires Framed(w, log, steps, regions, f, eff, env) && i <= j <= |steps|
    requires !Touched(regions[i..j], r)
    ensures At(Before(w, steps, f, eff, i), r) == At(Before(w, steps, f, eff, j), r)
    decreases j - i
  {
    if i < j {
      assert regions[i..j][..j - 1 - i] == regions[i..j - 1];
      assert regions[i..j][j - 1 - i] == regions[j - 1];
      assert !Touched(regions[i..j - 1], r) by {
        assert forall k :: 0 <= k < j - 1 - i ==> regions[i..j - 1][k] == regions[i..j][k];
      }
      ForwardFrame(w, log, steps, regions, f, eff, env, i, j - 1, r);
      assert Keeps(w, log, steps, regions, f, eff, env, j - 1);
      BeforeNext(w, steps, f, eff, j - 1);
    }
  }

  // ----- going back -------------------------------------------------------------------------------------

  /** The first step is taken back last. */
  lemma {:induction false} UnwindingLast(log: seq<Call>, s: Step, rest: seq<Step>, env: Env)
    ensures Unwinding(log, [s] + rest, env) ==
            Unwinding(log, rest, env)
            + if s.undo.None? then []
              else [Call(Backward(s), env(log + Unwinding(log, rest, env), Backward(s)))]
    decreases |rest|
  {
    var all := [s] + rest;
    if rest == [] {
      assert all == [s] && all[..0] == [];
      assert log + [] == log;
      assert Unwinding(log, [], env) == [];
    } else {
      var t, front := rest[|rest| - 1], rest[..|rest| - 1];
      assert all[|all| - 1] == t && all[..|all| - 1] == [s] + front;
      if t.undo.None? {
        UnwindingLast(log, s, front, env);
      } else {
        var c := Call(Backward(t), env(log, Backward(t)));
        UnwindingLast(log + [c], s, front, env);
        assert log + [c] + Unwinding(log + [c], front, env) == log + ([c] + Unwinding(log + [c], front, env));
      }
    }
  }

  lemma UnwoundNext(w: World, log: seq<Call>, steps: seq<Step>, eff: Effect, env: Env, i: nat)
    requires i < |steps|
    ensures Unwound(w, log, steps, eff, env, i) ==
            if TakenBack(log, steps, env, i)
            then eff(Unwound(w, log, steps, eff, env, i + 1), Backward(steps[i]))
            else Unwound(w, log, steps, eff, env, i + 1)
  {
    var s, rest := steps[i], steps[i + 1..];
    assert steps[i..] == [s] + rest;
    UnwindingLast(log, s, rest, env);
    if s.undo.Some? {
      var c := Call(Backward(s), env(log + Unwinding(log, rest, env), Backward(s)));
      AfterConcat(w, Unwinding(log, rest, env), [c], eff);
    } else {
      assert Unwinding(log, rest, env) + [] == Unwinding(log, rest, env);
    }
  }

  /** No step from i up to j that touches the resource is taken back. */
  predicate NotTakenBack(regions: seq<Region>, log: seq<Call>, steps: seq<Step>, env: Env, i: nat, j: nat, r: string)
    requires |regions| == |steps| && j <= |steps|
  {
    forall k :: i <= k < j && r in regions[k].touched ==> !TakenBack(log, steps, env, k)
  }

  /** Then the undos of the steps from i up to j leave the resource as those of the later ones did. */
  lemma {:induction false} UndosLeave(w: World, log: seq<Call>, steps: seq<Step>, regions: seq<Region>,
                                      f: Flags, eff: Effect, env: Env, i: nat, j: nat, r: string)
    requires Framed(w, log, steps, regions, f, eff, env) && i <= j <= |steps|
    requires NotTakenBack(regions, log, steps, env, i, j, r)
    ensures var end := Before(w, steps, f, eff, |steps|);
            At(Unwound(end, log, steps, eff, env, i), r) == At(Unwound(end, log, steps, eff, env, j), r)
    decreases j - i
  {
    var end := Before(w, steps, f, eff, |steps|);
    if i < j {
      UndosLeave(w, log, steps, regions, f, eff, env, i + 1, j, r);
      UnwoundNext(end, log, steps, eff, env, i);
      assert Keeps(w, log, steps, regions, f, eff, env, i);
    }
  }

  lemma NothingUnwound(w: World, log: seq<Call>, steps: seq<Step>, eff: Effect, env: Env)
    ensures Unwound(w, log, steps, eff, env, |steps|) == w
  {
    assert steps[|steps|..] == [];
  }

  /** At the moment of its undo, what no later step touched is as step j left it. */
  lemma LaterAgrees(w: World, log: seq<Call>, steps: seq<Step>, regions: seq<Region>,
                    f: Flags, eff: Effect, env: Env, j: nat)
    requires Framed(w, log, steps, regions, f, eff, env) && j < |steps|
    ensures Agrees(Later(w, log, steps, f, eff, env, j), Before(w, steps, f, eff, j + 1), regions[j], regions[j + 1..])
  {
    var end := Before(w, steps, f, eff, |steps|);
    forall q: string | q in regions[j].touched && !Touched(regions[j + 1..], q)
      ensures At(Later(w, log, steps, f, eff, env, j), q) == At(Before(w, steps, f, eff, j + 1), q)
    {
      assert forall k :: j + 1 <= k < |steps| ==> regions[k] == regions[j + 1..][k - j - 1];
      UndosLeave(w, log, steps, regions, f, eff, env, j + 1, |steps|, q);
      NothingUnwound(end, log, steps, eff, env);
      assert regions[j + 1..|steps|] == regions[j + 1..];
      ForwardFrame(w, log, steps, regions, f, eff, env, j + 1, |steps|, q);
    }
  }

  /** Step j is taken back: what its undo restores is as the step found it, at the moment of its undo. */
  lemma UndoFindsWhatItLeft(w: World, log: seq<Call>, steps: seq<Step>, regions: seq<Region>,
                            f: Flags, eff: Effect, env: Env, j: nat, r: string)
    requires Compensable(w, log, steps, regions, f, eff, env) && j < |steps|
    requires r in regions[j].undone && TakenBack(log, steps, env, j)
    ensures var end := Before(w, steps, f, eff, |steps|);
            At(Unwound(end, log, steps, eff, env, j), r) == At(Before(w, steps, f, eff, j), r)
  {
    CompensableIsFramed(w, log, steps, regions, f, eff, env);
    LaterAgrees(w, log, steps, regions, f, eff, env, j);
    assert Orderly(w, log, steps, regions, f, eff, env, j);
    UnwoundNext(Before(w, steps, f, eff, |steps|), log, steps, eff, env, j);
  }

  /** An undo that deletes takes its step back exactly when the step had found nothing there: when the
      step created what its undo deletes. */
  lemma DeletingTakesBackIff(w: World, log: seq<Call>, steps: seq<Step>, regions: seq<Region>,
                             f: Flags, eff: Effect, env: Env, i: nat)
    requires Removable(w, log, steps, regions, f, eff, env) && i < |steps| && TakenBack(log, steps, env, i)
    ensures Orderly(w, log, steps, regions, f, eff, env, i) <==>
            forall r: string :: r in regions[i].undone ==> r !in Before(w, steps, f, eff, i)
  {
    LaterAgrees(w, log, steps, regions, f, eff, env, i);
    assert Keeps(w, log, steps, regions, f, eff, env, i);
    hide Keeps;
    hide Before;
    hide Later;
    hide Agrees;
    hide TakenBack;
  }

  lemma SameEverywhere(u: World, w: World)
    requires forall r: string :: At(u, r) == At(w, r)
    ensures u == w
  {
    assert forall r: string :: At(u, r).Some? <==> At(w, r).Some?;
    forall r | r in u ensures r in w && u[r] == w[r] {
      assert At(u, r) == At(w, r);
    }
    forall r | r in w ensures r in u {
      assert At(u, r) == At(w, r);
    }
  }

  // ----- the whole run ----------------------------------------------------------------------------------

  /** The first step that touches the resource and is taken back, or the number of steps. */
  function FirstTakenBack(regions: seq<Region>, log: seq<Call>, steps: seq<Step>, env: Env, i: nat, r: string): (j: nat)
    requires i <= |regions| == |steps|
    ensures i <= j <= |steps| && NotTakenBack(regions, log, steps, env, i, j, r)
    ensures j < |steps| ==> r in regions[j].touched && TakenBack(log, steps, env, j)
    decreases |steps| - i
  {
    if i == |steps| || (r in regions[i].touched && TakenBack(log, steps, env, i)) then i
    else FirstTakenBack(regions, log, steps, env, i + 1, r)
  }

  /** Once all the steps are taken back, a resource is what the first of its undone steps found, if the
      undo of that step restores it; and what the steps left, if none is undone. */
  lemma UnwindingRestores(w: World, log: seq<Call>, steps: seq<Step>, regions: seq<Region>,
                          f: Flags, eff: Effect, env: Env, r: string)
    requires Compensable(w, log, steps, regions, f, eff, env)
    ensures var j := FirstTakenBack(regions, log, steps, env, 0, r);
            j == |steps| || r in regions[j].undone ==>
              At(Unwound(Before(w, steps, f, eff, |steps|), log, steps, eff, env, 0), r) ==
              At(Before(w, steps, f, eff, j), r)
  {
    CompensableIsFramed(w, log, steps, regions, f, eff, env);
    var j := FirstTakenBack(regions, log, steps, env, 0, r);
    UndosLeave(w, log, steps, regions, f, eff, env, 0, j, r);
    if j == |steps| {
      NothingUnwound(Before(w, steps, f, eff, |steps|), log, steps, eff, env);
    } else if r in regions[j].undone {
      UndoFindsWhatItLeft(w, log, steps, regions, f, eff, env, j, r);
    }
  }

  /** The world a failed run leaves, and the log its undos start from. */
  lemma FailedRun(w: World, log: seq<Call>, steps: seq<Step>, f: Flags, eff: Effect, env: Env)
    requires Completed(log, steps, f, env) < |steps| && !f.dryRun
    ensures var k := Completed(log, steps, f, env);
            After(w, Execution(log, steps, f, env), eff) ==
            Unwound(Before(w, steps[..k], f, eff, k), log + Attempts(log, steps, f, env), steps[..k], eff, env, 0)
  {
    hide Completed;
    hide Unwinding;
    hide Undoable;
    hide After;
    hide Successes;
    hide Forward;
    var k, tries := Completed(log, steps, f, env), Attempts(log, steps, f, env);
    var back := Unwinding(log + tries, Undoable(steps[..k]), env);
    UnwindingSkipsKept(log + tries, steps[..k], env);
    AfterConcat(w, tries, back, eff);
    FailureChanges(w, Successes(steps[..k], f), Forward(steps[k], f), eff);
    assert steps[..k][..k] == steps[..k] && steps[..k][0..] == steps[..k];
  }

  /** A command that fails changes nothing. */
  lemma FailureChanges(w: World, calls: seq<Call>, argv: seq<string>, eff: Effect)
    ensures After(w, calls + [Call(argv, false)], eff) == After(w, calls, eff)
  {
    assert (calls + [Call(argv, false)])[..|calls|] == calls;
  }

  /** A run fails, and the steps it completed keep to their regions, there and back. */
  ghost predicate FailsOrderly(w: World, log: seq<Call>, steps: seq<Step>, regions: seq<Region>, f: Flags, eff: Effect,
                               env: Env)
  {
    var k := Completed(log, steps, f, env);
    k < |steps| == |regions| && !f.dryRun
    && Compensable(w, log + Attempts(log, steps, f, env), steps[..k], regions[..k], f, eff, env)
  }

  /** A run fails at step k. Of the completed steps that touch a resource, let j be the first that is
      taken back, or k if none is: the resource is left as it was before step j, if the undo of j
      restores it. So whatever happened to the other undos, and whatever later steps did, nothing from
      j on is left of the run, and nothing before j is lost. */
  lemma FailedRunRestores(w: World, log: seq<Call>, steps: seq<Step>, regions: seq<Region>,
                          f: Flags, eff: Effect, env: Env, r: string)
    requires FailsOrderly(w, log, steps, regions, f, eff, env)
    ensures var k := Completed(log, steps, f, env);
            var j := FirstTakenBack(regions[..k], log + Attempts(log, steps, f, env), steps[..k], env, 0, r);
            j == k || r in regions[j].undone ==>
              At(After(w, Execution(log, steps, f, env), eff), r) == At(Before(w, steps[..k], f, eff, j), r)
  {
    var k := Completed(log, steps, f, env);
    FailedRun(w, log, steps, f, eff, env);
    UnwindingRestores(w, log + Attempts(log, steps, f, env), steps[..k], regions[..k], f, eff, env, r);
  }

  /** The first step to touch the resource, or the number of steps. */
  function FirstTouch(regions: seq<Region>, r: string): (j: nat)
    ensures j <= |regions|
    ensures j < |regions| ==> r in regions[j].touched
    ensures forall i :: 0 <= i < j ==> r !in regions[i].touched
  {
    if regions == [] || r in regions[0].touched then 0
    else
      var j := FirstTouch(regions[1..], r);
      assert forall i :: 0 < i < j + 1 ==> regions[i] == regions[1..][i - 1];
      j + 1
  }

  /** So a resource is as the run found it when no completed step touched it, or the first that did
      is taken back and restores it; it is as the completed steps left it when none that touched it is
      taken back. */
  lemma FirstTouchDecides(w: World, log: seq<Call>, steps: seq<Step>, regions: seq<Region>,
                          f: Flags, eff: Effect, env: Env, r: string)
    requires FailsOrderly(w, log, steps, regions, f, eff, env)
    ensures var k := Completed(log, steps, f, env);
            var done, within, undoing := steps[..k], regions[..k], log + Attempts(log, steps, f, env);
            var j, end := FirstTouch(within, r), After(w, Execution(log, steps, f, env), eff);
            (j == k || (TakenBack(undoing, done, env, j) && r in within[j].undone) ==> At(end, r) == At(w, r))
            && (NotTakenBack(within, undoing, done, env, 0, k, r) ==> At(end, r) == At(Before(w, done, f, eff, k), r))
  {
    hide Execution;
    hide Completed;
    hide Attempts;
    hide Unwinding;
    var k := Completed(log, steps, f, env);
    var done, within, undoing := steps[..k], regions[..k], log + Attempts(log, steps, f, env);
    FailedRunRestores(w, log, steps, regions, f, eff, env, r);
    var j, j' := FirstTouch(within, r), FirstTakenBack(within, undoing, done, env, 0, r);
    CompensableIsFramed(w, undoing, done, within, f, eff, env);
    if j == k || TakenBack(undoing, done, env, j) {
      assert j == j';
      ForwardFrame(w, undoing, done, within, f, eff, env, 0, j, r);
      NothingDone(w, done, f, eff);
    }
  }

  lemma NothingDone(w: World, steps: seq<Step>, f: Flags, eff: Effect)
    ensures Before(w, steps, f, eff, 0) == w
  {
    assert Successes(steps[..0], f) == [];
  }

  /** Every step that has an undo is taken back. */
  predicate UndosSucceed(log: seq<Call>, steps: seq<Step>, env: Env) {
    forall i :: 0 <= i < |steps| && steps[i].undo.Some? ==> TakenBack(log, steps, env, i)
  }

  /** Each step's undo restores at least what no earlier step touches. */
  ghost predicate RestoresItsOwn(regions: seq<Region>) {
    forall i, r: string :: 0 <= i < |regions| && r in regions[i].touched && !Touched(regions[..i], r) ==>
      r in regions[i].undone
  }

  /** When every step that completed is taken back, the world is exactly the one the run found, even if
      an undo leaves something to those of earlier steps. */
  lemma NothingLeftBehind(w: World, log: seq<Call>, steps: seq<Step>, regions: seq<Region>,
                          f: Flags, eff: Effect, env: Env)
    requires FailsOrderly(w, log, steps, regions, f, eff, env) && RestoresItsOwn(regions)
    requires forall i :: 0 <= i < Completed(log, steps, f, env) ==>
               TakenBack(log + Attempts(log, steps, f, env), steps[..Completed(log, steps, f, env)], env, i)
    ensures After(w, Execution(log, steps, f, env), eff) == w
  {
    hide Execution;
    hide Completed;
    hide Attempts;
    hide Orderly;
    var end, k := After(w, Execution(log, steps, f, env), eff), Completed(log, steps, f, env);
    forall r: string ensures At(end, r) == At(w, r) {
      FirstTouchDecides(w, log, steps, regions, f, eff, env, r);
      FirstRestores(regions, k, r);
    }
    SameEverywhere(end, w);
  }

  lemma FirstRestores(regions: seq<Region>, k: nat, r: string)
    requires RestoresItsOwn(regions) && k <= |regions|
    ensures var j := FirstTouch(regions[..k], r);
            j < k ==> r in regions[..k][j].undone
  {
    var j := FirstTouch(regions[..k], r);
    assert forall i :: 0 <= i < j ==> regions[..j][i] == regions[..k][i];
  }

  // ----- undoing by deleting ----------------------------------------------------------------------------

  /** A run fails, the steps it completed keep to their regions, and the undos that succeed delete. */
  ghost predicate FailsRemovably(w: World, log: seq<Call>, steps: seq<Step>, regions: seq<Region>, f: Flags,
                                 eff: Effect, env: Env)
  {
    var k := Completed(log, steps, f, env);
    k < |steps| == |regions| && !f.dryRun
    && Removable(w, log + Attempts(log, steps, f, env), steps[..k], regions[..k], f, eff, env)
  }

  lemma UnwindingRemoves(w: World, log: seq<Call>, steps: seq<Step>, regions: seq<Region>,
                         f: Flags, eff: Effect, env: Env, r: string)
    requires Removable(w, log, steps, regions, f, eff, env)
    ensures var j := FirstTakenBack(regions, log, steps, env, 0, r);
            var end := Before(w, steps, f, eff, |steps|);
            (j == |steps| ==> At(Unwound(end, log, steps, eff, env, 0), r) == At(end, r))
            && (j < |steps| && r in regions[j].undone ==> At(Unwound(end, log, steps, eff, env, 0), r) == None)
  {
    var j, end := FirstTakenBack(regions, log, steps, env, 0, r), Before(w, steps, f, eff, |steps|);
    UndosLeave(w, log, steps, regions, f, eff, env, 0, j, r);
    if j == |steps| {
      NothingUnwound(end, log, steps, eff, env);
    } else {
      UnwoundNext(end, log, steps, eff, env, j);
    }
  }

  /** A resource of a failed run: as the run found it when no completed step touched it; nothing when
      the first that did is taken back and answers for it, whatever the run had found there; and as
      the completed steps left it when none that touched it is taken back. */
  lemma FirstTouchRemoves(w: World, log: seq<Call>, steps: seq<Step>, regions: seq<Region>,
                          f: Flags, eff: Effect, env: Env, r: string)
    requires FailsRemovably(w, log, steps, regions, f, eff, env)
    ensures var k := Completed(log, steps, f, env);
            var done, within, undoing := steps[..k], regions[..k], log + Attempts(log, steps, f, env);
            var j, end := FirstTouch(within, r), After(w, Execution(log, steps, f, env), eff);
            (j == k ==> At(end, r) == At(w, r))
            && (j < k && TakenBack(undoing, done, env, j) && r in within[j].undone ==> At(end, r) == None)
            && (NotTakenBack(within, undoing, done, env, 0, k, r) ==> At(end, r) == At(Before(w, done, f, eff, k), r))
  {
    FailedRun(w, log, steps, f, eff, env);
    hide Execution;
    hide Completed;
    hide Attempts;
    hide Unwinding;
    hide TakenBack;
    hide NotTakenBack;
    var k := Completed(log, steps, f, env);
    UnwindingDecides(w, log + Attempts(log, steps, f, env), steps[..k], regions[..k], f, eff, env, r);
  }

  /** The same of the unwinding alone. */
  lemma UnwindingDecides(w: World, log: seq<Call>, steps: seq<Step>, regions: seq<Region>,
                         f: Flags, eff: Effect, env: Env, r: string)
    requires Removable(w, log, steps, regions, f, eff, env)
    ensures var k, j, left := |steps|, FirstTouch(regions, r), Before(w, steps, f, eff, |steps|);
            var end := Unwound(left, log, steps, eff, env, 0);
            (j == k ==> At(end, r) == At(w, r))
            && (j < k && TakenBack(log, steps, env, j) && r in regions[j].undone ==> At(end, r) == None)
            && (NotTakenBack(regions, log, steps, env, 0, k, r) ==> At(end, r) == At(left, r))
  {
    hide TakenBack;
    UnwindingRemoves(w, log, steps, regions, f, eff, env, r);
    var k := |steps|;
    var j, j' := FirstTouch(regions, r), FirstTakenBack(regions, log, steps, env, 0, r);
    if j == k {
      assert j == j';
      ForwardFrame(w, log, steps, regions, f, eff, env, 0, k, r);
      NothingDone(w, steps, f, eff);
    } else if TakenBack(log, steps, env, j) {
      assert j == j';
    }
  }
}
