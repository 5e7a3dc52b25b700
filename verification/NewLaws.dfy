/** What a failed run of `ratline new` deletes, whether or not the run created it, and what it keeps. */
module NewLaws {
  import opened Compose
  import opened Conservation
  import opened NewStack

  // ----- the steps --------------------------------------------------------------------------------

  /** The steps that are kept are the key and the certificate, and of the two only the certificate
      says why. */
  lemma WhatIsKept(s: Stack, l: Lookups, i: nat)
    requires i < |StepsOf(s, l)|
    ensures var steps := StepsOf(s, l);
            (steps[i].undo.None? <==> (i == 0 && GivesKey(s, l)) || (i == |steps| - 1 && s.tls))
            && (steps[i].kept != "" <==> i == |steps| - 1 && s.tls)
  {
  }

  /** A run deletes the tenant only if GetUser did not find it and `user add` succeeded in the same run,
      whatever the commands do. */
  lemma DeletesOnlyItsOwnTenant(s: Stack, l: Lookups, f: Flags, env: Env, i: nat)
    requires i < |Execution([], StepsOf(s, l), f, env)|
    ensures var run := Execution([], StepsOf(s, l), f, env);
            |run[i].argv| >= 2 && run[i].argv[..2] == ["user", "delete"] ==>
              !l.tenantFound && i > 0 && run[0] == Call(Forward(AddTenant(s), f), true)
  {
    var steps := StepsOf(s, l);
    var j := CallOf([], steps, f, env, i);
    hide Execution;
    hide Completed;
    StartsOfStep(s, l, f, j);
  }

  /** How the commands of a step, and of its undo, begin. */
  lemma StartsOfStep(s: Stack, l: Lookups, f: Flags, j: nat)
    requires j < |StepsOf(s, l)|
    ensures var step := StepsOf(s, l)[j];
            |Forward(step, f)| >= 2 && Forward(step, f)[..2] != ["user", "delete"]
            && (step.undo.Some? && |Backward(step)| >= 2 && Backward(step)[..2] == ["user", "delete"] ==>
                  !l.tenantFound && j == 0 && step == AddTenant(s))
  {
    var step := StepsOf(s, l)[j];
    assert |step.argv| >= 2 && (step.argv[0] != "user" || step.argv[1] != "delete");
    assert Forward(step, f)[..2] == [step.argv[0], step.argv[1]];
    if step.undo.Some? {
      assert Backward(step)[..2] == [step.undo.value[0], step.undo.value[1]];
    }
  }

  // ----- the server ---------------------------------------------------------------------------------

  const TENANT := "tenant"
  const KEY := "key"
  const SITE := "site"
  const DATABASE := "database"
  const CERTIFICATE := "certificate"

  /** What each step touches, and what its undo deletes. Deleting the tenant takes along what it owns:
      nothing, if it was really missing. Attaching a database writes to the site's .env, and dropping
      it leaves that there; a certificate writes to the site's vhost. */
  function Touches(s: Stack, l: Lookups, owned: set<string>): seq<Region> {
    (if !l.tenantFound then [Region({TENANT} + owned, {TENANT} + owned)]
     else if s.sshKey != "" then [Region({KEY}, {})] else [])
    + [Region({SITE}, {SITE})]
    + (if s.withDb then [Region({DATABASE, SITE}, {DATABASE})] else [])
    + (if s.tls then [Region({CERTIFICATE, SITE}, {})] else [])
  }

  lemma SameLength(s: Stack, l: Lookups, owned: set<string>)
    ensures |Touches(s, l, owned)| == |StepsOf(s, l)|
  {
  }

  /** What the first k steps were to create. */
  predicate Claimed(s: Stack, l: Lookups, owned: set<string>, k: nat, r: string) {
    var t := |TenantSteps(s, l)|;
    (!l.tenantFound && k > 0 && (r == TENANT || r in owned))
    || (k > t && r == SITE)
    || (s.withDb && k > t + 1 && r == DATABASE)
  }

  /** A run fails at step k and its undos succeed. Tenant, site and database are gone, each if its step
      had completed, whether the step created it or found it there; a key given to a tenant that was
      already there stays; everything else is as it was. So the server is as it was exactly when
      nothing of what those steps were to create was there, and no key changed anything. */
  lemma FailedNew(w: World, s: Stack, l: Lookups, owned: set<string>, f: Flags, eff: Effect, env: Env)
    requires FailsRemovably(w, [], StepsOf(s, l), Touches(s, l, owned), f, eff, env)
    requires UndosSucceed([] + Attempts([], StepsOf(s, l), f, env),
                          StepsOf(s, l)[..Completed([], StepsOf(s, l), f, env)], env)
    ensures var steps := StepsOf(s, l);
            var k, end := Completed([], steps, f, env), After(w, Execution([], steps, f, env), eff);
            var gave := GivesKey(s, l) && k > 0;
            (forall r: string :: Claimed(s, l, owned, k, r) ==> r !in end)
            && (forall r: string :: !Claimed(s, l, owned, k, r) && (r != KEY || !gave) ==> At(end, r) == At(w, r))
            && (gave ==> At(end, KEY) == At(eff(w, Forward(AddKey(s), f)), KEY))
            && (end == w <==> (forall r: string :: Claimed(s, l, owned, k, r) ==> r !in w)
                              && (gave ==> At(eff(w, Forward(AddKey(s), f)), KEY) == At(w, KEY)))
  {
    hide Execution;
    hide Completed;
    hide Attempts;
    hide StepsOf;
    hide Touches;
    hide Claimed;
    SameLength(s, l, owned);
    var steps, touches := StepsOf(s, l), Touches(s, l, owned);
    var k, end := Completed([], steps, f, env), After(w, Execution([], steps, f, env), eff);
    var gave := GivesKey(s, l) && k > 0;
    forall r: string
      ensures Claimed(s, l, owned, k, r) ==> At(end, r).None?
      ensures !Claimed(s, l, owned, k, r) && (r != KEY || !gave) ==> At(end, r) == At(w, r)
    {
      FirstTouchRemoves(w, [], steps, touches, f, eff, env, r);
      FirstToucherUndoes(s, l, owned, r, k);
    }
    if gave {
      FirstTouchRemoves(w, [], steps, touches, f, eff, env, KEY);
      KeyIsFirst(s, l, owned, k);
      FirstStep(w, steps[..k], f, eff);
      assert touches[..k][1..] == touches[..k][1..k];
      ForwardFrame(w, [] + Attempts([], steps, f, env), steps[..k], touches[..k], f, eff, env, 1, k, KEY);
    }
    if forall r: string :: At(end, r) == At(w, r) {
      SameEverywhere(end, w);
    }
  }

  lemma FirstStep(w: World, steps: seq<Step>, f: Flags, eff: Effect)
    requires steps != []
    ensures Before(w, steps, f, eff, 1) == eff(w, Forward(steps[0], f))
  {
    BeforeNext(w, steps, f, eff, 0);
    assert Successes(steps[..0], f) == [];
  }

  /** Among the steps that complete in a run that fails, the first to touch anything but the key can be
      undone, and its undo answers for that. */
  lemma FirstToucherUndoes(s: Stack, l: Lookups, owned: set<string>, r: string, k: nat)
    requires k < |StepsOf(s, l)| == |Touches(s, l, owned)|
    ensures var j := FirstTouch(Touches(s, l, owned)[..k], r);
            (j < k <==> Claimed(s, l, owned, k, r) || (GivesKey(s, l) && k > 0 && r == KEY))
            && (Claimed(s, l, owned, k, r) ==>
                  StepsOf(s, l)[..k][j].undo.Some? && r in Touches(s, l, owned)[..k][j].undone)
  {
    var touches := Touches(s, l, owned)[..k];
    var j, t := FirstTouch(touches, r), |TenantSteps(s, l)|;
    assert Touches(s, l, owned)[t] == Region({SITE}, {SITE}) && StepsOf(s, l)[t] == AddSite(s);
    assert s.withDb ==> Touches(s, l, owned)[t + 1] == Region({DATABASE, SITE}, {DATABASE});
    assert s.withDb ==> StepsOf(s, l)[t + 1] == AddDatabase(s);
    assert k <= t + 1 + if s.withDb then 1 else 0;
    assert forall i :: 0 <= i < k ==> touches[i] == Touches(s, l, owned)[i];
  }

  lemma KeyIsFirst(s: Stack, l: Lookups, owned: set<string>, k: nat)
    requires GivesKey(s, l) && 0 < k < |StepsOf(s, l)| == |Touches(s, l, owned)|
    ensures var touches := Touches(s, l, owned)[..k];
            FirstTouch(touches, KEY) == 0 && !Touched(touches[1..], KEY)
            && forall i :: 0 <= i < k && KEY in touches[i].touched ==> StepsOf(s, l)[..k][i].undo.None?
    ensures StepsOf(s, l)[..k][0] == AddKey(s) && !Claimed(s, l, owned, k, KEY)
  {
    assert Touches(s, l, owned)[..k][0] == Region({KEY}, {});
  }

  predicate OnlyKeys(log: seq<Call>, argv: seq<string>) {
    argv != [] && argv[0] == "key"
  }

  function GiveKey(w: World, argv: seq<string>): World {
    if argv != [] && argv[0] == "key" then w[KEY := "given"] else w
  }

  /** A tenant that exists is given a key, and then the site is refused: everything the command
      created is not removed. */
  lemma KeyStaysBehind(w: World, s: Stack, l: Lookups, f: Flags)
    requires GivesKey(s, l) && !f.dryRun
    ensures After(w, Execution([], StepsOf(s, l), f, OnlyKeys), GiveKey) == w[KEY := "given"]
  {
    var steps := StepsOf(s, l);
    assert steps[0] == AddKey(s) && steps[1] == AddSite(s);
    assert Forward(steps[0], f)[0] == "key" && Forward(steps[1], f)[0] == "site";
    assert steps[1..][0] == steps[1];
    assert Completed([], steps, f, OnlyKeys) == 1 by {
      assert Completed([] + [Call(Forward(steps[0], f), true)], steps[1..], f, OnlyKeys) == 0;
    }
    FailedRun(w, [], steps, f, GiveKey, OnlyKeys);
    assert steps[..1] == [steps[0]] && steps[..1][..1] == steps[..1] && steps[..1][0..] == steps[..1];
    FirstStep(w, steps[..1], f, GiveKey);
    var log := [] + Attempts([], steps, f, OnlyKeys);
    assert [steps[0]][..0] == [] && Unwinding(log, [], OnlyKeys) == [];
    assert Unwinding(log, steps[..1], OnlyKeys) == [];
  }

  /** Taking back the tenant takes along what it owns, the site among it even if the site's own
      deletion failed. */
  lemma TenantTakesAlong(w: World, s: Stack, l: Lookups, owned: set<string>, f: Flags, eff: Effect, env: Env, r: string)
    requires FailsRemovably(w, [], StepsOf(s, l), Touches(s, l, owned), f, eff, env)
    requires var k := Completed([], StepsOf(s, l), f, env);
             !l.tenantFound && k > 0 && TakenBack([] + Attempts([], StepsOf(s, l), f, env), StepsOf(s, l)[..k], env, 0)
    requires r == TENANT || r in owned
    ensures r !in After(w, Execution([], StepsOf(s, l), f, env), eff)
  {
    FirstTouchRemoves(w, [], StepsOf(s, l), Touches(s, l, owned), f, eff, env, r);
    hide Execution;
    hide Completed;
    hide Attempts;
    assert Touches(s, l, owned)[0] == Region({TENANT} + owned, {TENANT} + owned);
  }
}
