/** One deploy, spelled out (internal/cli/cmd_site_ops.go): its steps, its record, its revert, its end. */
module DeploySteps {
  import opened Text
  import opened Deploy
  import opened DeployLaws

  // ----- the steps ------------------------------------------------------------------------------------

  function Chosen(steps: seq<Step>, site: Site, opts: Options): seq<Step> {
    if steps == [] then []
    else
      var s := steps[|steps| - 1];
      Chosen(steps[..|steps| - 1], site, opts) + if Wanted(s, site, opts) then [s] else []
  }

  function OneIf(wanted: bool, s: Step): seq<Step> {
    if wanted then [s] else []
  }

  /** The steps of a deploy: the hook after the pull and before what may depend on it. */
  function Todo(site: Site, opts: Options): seq<Step> {
    OneIf(opts.pull, Pull) + OneIf(site.preHook, PreHook) + OneIf(opts.install, Install) + OneIf(opts.build, Build)
    + OneIf(opts.migrate, Migrate) + OneIf(opts.collectStatic, CollectStatic)
  }

  lemma ChosenMore(steps: seq<Step>, s: Step, site: Site, opts: Options)
    ensures Chosen(steps + [s], site, opts) == Chosen(steps, site, opts) + OneIf(Wanted(s, site, opts), s)
  {
    assert (steps + [s])[..|steps|] == steps;
  }

  lemma ChainIsTodo(site: Site, opts: Options)
    ensures Chosen(CHAIN, site, opts) == Todo(site, opts)
  {
    hide Chosen;
    hide OneIf;
    ChosenMore([], Pull, site, opts);
    ChosenMore([] + [Pull], PreHook, site, opts);
    ChosenMore([] + [Pull] + [PreHook], Install, site, opts);
    ChosenMore([] + [Pull] + [PreHook] + [Install], Build, site, opts);
    ChosenMore([] + [Pull] + [PreHook] + [Install] + [Build], Migrate, site, opts);
    ChosenMore([] + [Pull] + [PreHook] + [Install] + [Build] + [Migrate], CollectStatic, site, opts);
    assert CHAIN == [] + [Pull] + [PreHook] + [Install] + [Build] + [Migrate] + [CollectStatic];
    NothingChosen(site, opts);
    assert [] + OneIf(opts.pull, Pull) == OneIf(opts.pull, Pull);
  }

  lemma NothingChosen(site: Site, opts: Options)
    ensures Chosen([], site, opts) == []
  {
  }

  /** The first k steps succeed, and step k, if there is one, does not. */
  predicate StopsAt(steps: seq<Step>, ans: Answers, k: nat) {
    k <= |steps| && (forall i :: 0 <= i < k ==> ans.step(steps[i]).ok) && (k < |steps| ==> !ans.step(steps[k]).ok)
  }

  function NamesOf(steps: seq<Step>): seq<string> {
    seq(|steps|, i requires 0 <= i < |steps| => StepName(steps[i]))
  }

  function RanEvents(steps: seq<Step>, ans: Answers): seq<Event> {
    seq(|steps|, i requires 0 <= i < |steps| => Ran(steps[i], ans.step(steps[i]).ok))
  }

  /** The checkout is as the last step left it; the history and the service are as they were. */
  predicate LeftBy(h': Host, h: Host, ran: seq<Step>, ans: Answers) {
    h'.history == h.history && h'.serving == h.serving
    && if ran == [] then h'.head == h.head && h'.tree == h.tree
       else h'.head == ans.step(ran[|ran| - 1]).head && h'.tree == ans.step(ran[|ran| - 1]).tree
  }

  lemma NothingRuns(ans: Answers)
    ensures NamesOf([]) == [] && RanEvents([], ans) == []
  {
  }

  lemma OneMoreRuns(todo: seq<Step>, s: Step, ans: Answers)
    ensures (todo + [s])[..|todo|] == todo == todo[..|todo|] && (todo + [s])[..|todo| + 1] == todo + [s]
    ensures NamesOf(todo + [s]) == NamesOf(todo) + [StepName(s)]
    ensures RanEvents(todo + [s], ans) == RanEvents(todo, ans) + [Ran(s, ans.step(s).ok)]
  {
  }

  /** The chosen steps run in order, up to and including the first that fails. */
  lemma {:induction false} PerformsChosen(p: Progress, steps: seq<Step>, site: Site, opts: Options, ans: Answers)
    returns (k: nat)
    requires p.failed.None?
    ensures var todo, q := Chosen(steps, site, opts), Perform(p, steps, site, opts, ans);
            StopsAt(todo, ans, k)
            && q.failed == (if k == |todo| then None else Some(todo[k]))
            && q.done == p.done + NamesOf(todo[..k])
            && q.host.trace == p.host.trace + RanEvents(if k == |todo| then todo else todo[..k + 1], ans)
            && LeftBy(q.host, p.host, if k == |todo| then todo else todo[..k + 1], ans)
  {
    hide NamesOf;
    hide RanEvents;
    hide Wanted;
    k := 0;
    assert NamesOf([]) == [] && RanEvents([], ans) == [] by {
      NothingRuns(ans);
    }
    if steps != [] {
      var front, s := steps[..|steps| - 1], steps[|steps| - 1];
      k := PerformsChosen(p, front, site, opts, ans);
      var todo := Chosen(front, site, opts);
      if k == |todo| && Wanted(s, site, opts) {
        OneMoreRuns(todo, s, ans);
        if ans.step(s).ok {
          k := k + 1;
        }
      } else if Wanted(s, site, opts) {
        assert (todo + [s])[..k] == todo[..k] && (todo + [s])[..k + 1] == todo[..k + 1];
      } else {
        assert todo + [] == todo;
      }
    }
  }

  /** A deploy runs the steps it was asked for, in order, up to and including the first that fails. */
  lemma StepsInOrder(h: Host, site: Site, opts: Options, ans: Answers) returns (k: nat)
    ensures var todo, p := Todo(site, opts), Progressed(h, site, opts, ans);
            StopsAt(todo, ans, k)
            && p.failed == (if k == |todo| then None else Some(todo[k]))
            && p.done == NamesOf(todo[..k])
            && p.host.trace == h.trace + [Started(|h.history|)]
                               + RanEvents(if k == |todo| then todo else todo[..k + 1], ans)
            && LeftBy(p.host, Open(h, site), if k == |todo| then todo else todo[..k + 1], ans)
  {
    ChainIsTodo(site, opts);
    k := PerformsChosen(Progress(Open(h, site), [], None), CHAIN, site, opts, ans);
    assert [] + NamesOf(Todo(site, opts)[..k]) == NamesOf(Todo(site, opts)[..k]);
  }

  /** Every step that the deploy was asked for succeeds. */
  predicate StepsSucceed(site: Site, opts: Options, ans: Answers) {
    (opts.pull ==> ans.step(Pull).ok) && (site.preHook ==> ans.step(PreHook).ok)
    && (opts.install ==> ans.step(Install).ok) && (opts.build ==> ans.step(Build).ok)
    && (opts.migrate ==> ans.step(Migrate).ok) && (opts.collectStatic ==> ans.step(CollectStatic).ok)
  }

  predicate AllSucceed(steps: seq<Step>, ans: Answers) {
    forall i :: 0 <= i < |steps| ==> ans.step(steps[i]).ok
  }

  lemma Both(a: seq<Step>, b: seq<Step>, ans: Answers)
    ensures AllSucceed(a + b, ans) <==> AllSucceed(a, ans) && AllSucceed(b, ans)
    ensures NamesOf(a + b) == NamesOf(a) + NamesOf(b)
  {
    if AllSucceed(a + b, ans) {
      assert forall i :: 0 <= i < |a| ==> a[i] == (a + b)[i];
      assert forall i :: 0 <= i < |b| ==> b[i] == (a + b)[|a| + i];
    }
  }

  lemma OneSucceeds(wanted: bool, s: Step, ans: Answers)
    ensures AllSucceed(OneIf(wanted, s), ans) <==> (wanted ==> ans.step(s).ok)
    ensures NamesOf(OneIf(wanted, s)) == if wanted then [StepName(s)] else []
  {
    assert wanted ==> OneIf(wanted, s)[0] == s;
  }

  lemma TodoSucceeds(site: Site, opts: Options, ans: Answers)
    ensures AllSucceed(Todo(site, opts), ans) <==> StepsSucceed(site, opts, ans)
    ensures NamesOf(Todo(site, opts)) ==
            (if opts.pull then ["pull"] else []) + (if site.preHook then ["pre-deploy hook"] else [])
            + (if opts.install then ["install"] else []) + (if opts.build then ["build"] else [])
            + (if opts.migrate then ["migrate"] else []) + (if opts.collectStatic then ["collectstatic"] else [])
  {
    hide OneIf;
    hide AllSucceed;
    hide NamesOf;
    var a, b, c := OneIf(opts.pull, Pull), OneIf(site.preHook, PreHook), OneIf(opts.install, Install);
    var d, e, f := OneIf(opts.build, Build), OneIf(opts.migrate, Migrate), OneIf(opts.collectStatic, CollectStatic);
    Both(a, b, ans);
    Both(a + b, c, ans);
    Both(a + b + c, d, ans);
    Both(a + b + c + d, e, ans);
    Both(a + b + c + d + e, f, ans);
    OneSucceeds(opts.pull, Pull, ans);
    OneSucceeds(site.preHook, PreHook, ans);
    OneSucceeds(opts.install, Install, ans);
    OneSucceeds(opts.build, Build, ans);
    OneSucceeds(opts.migrate, Migrate, ans);
    OneSucceeds(opts.collectStatic, CollectStatic, ans);
  }

  lemma NoneFails(h: Host, site: Site, opts: Options, ans: Answers)
    ensures Progressed(h, site, opts, ans).failed.None? <==> StepsSucceed(site, opts, ans)
    ensures StepsSucceed(site, opts, ans) ==>
              Progressed(h, site, opts, ans).done ==
              (if opts.pull then ["pull"] else []) + (if site.preHook then ["pre-deploy hook"] else [])
              + (if opts.install then ["install"] else []) + (if opts.build then ["build"] else [])
              + (if opts.migrate then ["migrate"] else []) + (if opts.collectStatic then ["collectstatic"] else [])
  {
    hide Progressed;
    hide Todo;
    hide StepsSucceed;
    hide NamesOf;
    var k := StepsInOrder(h, site, opts, ans);
    var todo := Todo(site, opts);
    TodoSucceeds(site, opts, ans);
    assert todo[..|todo|] == todo;
  }

  // ----- what the record says ---------------------------------------------------------------------------

  /** The run gets as far as asking the service to restart. */
  predicate AsksRestart(site: Site, opts: Options, ans: Answers) {
    StepsSucceed(site, opts, ans) && opts.restart && site.dynamic
  }

  /** And past it, with the site up or not in need of a restart. */
  predicate SiteIsUp(site: Site, opts: Options, ans: Answers) {
    StepsSucceed(site, opts, ans) && (opts.restart && site.dynamic ==> ans.restart)
  }

  /** A run is OK exactly when every step asked for succeeds, the service comes up if it is restarted, the
      post-deploy hook succeeds if there is one, and the deploy can be noted on the site. */
  lemma OkIff(h: Host, site: Site, opts: Options, ans: Answers)
    ensures RecordOf(h, site, opts, ans).ok <==>
            SiteIsUp(site, opts, ans) && (site.postHook ==> ans.postHook.ok) && ans.touch
  {
    NoneFails(h, site, opts, ans);
    hide Perform;
    hide LastHealthy;
    hide StepsSucceed;
  }

  /** Why a run is not OK: the first of what went wrong. */
  lemma FailureIs(h: Host, site: Site, opts: Options, ans: Answers)
    ensures var r := RecordOf(h, site, opts, ans);
            (SiteIsUp(site, opts, ans) ==>
               r.failure == if site.postHook && !ans.postHook.ok then Some(HookFailed)
                            else if !ans.touch then Some(TouchFailed) else None)
            && (!StepsSucceed(site, opts, ans) ==>
                  exists k :: 0 <= k < |Todo(site, opts)| && StopsAt(Todo(site, opts), ans, k)
                              && r.failure == Some(StepFailed(Todo(site, opts)[k])))
  {
    NoneFails(h, site, opts, ans);
    var k := StepsInOrder(h, site, opts, ans);
    hide Perform;
    hide LastHealthy;
    hide StepsSucceed;
    hide Todo;
    hide StopsAt;
    hide RanEvents;
  }

  /** The steps a record lists, the health it gives and the commit it names. */
  lemma RecordSays(h: Host, site: Site, opts: Options, ans: Answers)
    ensures var r, done := RecordOf(h, site, opts, ans), Progressed(h, site, opts, ans).done;
            r.id == |h.history| && r.domain == site.domain && r.finished
            && r.steps == done + (if AsksRestart(site, opts, ans) then ["restart"] else [])
                          + (if SiteIsUp(site, opts, ans) && site.postHook then ["post-deploy hook"] else [])
            && r.health == (if AsksRestart(site, opts, ans) && ans.restart then ans.health else "")
            && r.sha == (if SiteIsUp(site, opts, ans) && ans.shaAfter && Run(h, site, opts, ans).head != ""
                         then Run(h, site, opts, ans).head else if ans.shaBefore then h.head else "")
  {
    NoneFails(h, site, opts, ans);
    hide Perform;
    hide LastHealthy;
    hide StepsSucceed;
    var done := Progressed(h, site, opts, ans).done;
    assert done + [] == done && done + ["restart"] + [] == done + ["restart"];
  }

  // ----- when it is reverted ------------------------------------------------------------------------------

  /** The commit a failed restart goes back to: that of the last healthy deployment, or where there is
      none the one HEAD was at in the beginning. */
  lemma TargetIs(h: Host, site: Site, opts: Options, ans: Answers)
    ensures var healthy := LastHealthy(Open(h, site).history, site.domain, |h.history|, ans.history);
            Target(h, site, opts, ans) ==
            if healthy != "" then healthy else if ans.shaBefore then h.head else ""
  {
    hide LastHealthy;
  }

  /** The restart failed, there is a commit to go back to, HEAD is not read to be there already, and the
      status can be read and shows nothing but blank lines and untracked files. */
  predicate IsReset(h: Host, site: Site, opts: Options, ans: Answers) {
    var p, target := Progressed(h, site, opts, ans).host, Target(h, site, opts, ans);
    AsksRestart(site, opts, ans) && !ans.restart
    && target != "" && !(ans.shaOnFailure && p.head == target) && ans.status
    && forall i :: 0 <= i < |p.tree| ==>
         TrimSpace(p.tree[i]) == "" || (|p.tree[i]| >= 2 && p.tree[i][0] == '?' && p.tree[i][1] == '?')
  }

  lemma CleanIs(tree: seq<string>)
    ensures !Clean(None)
    ensures Clean(Some(tree)) <==>
            forall i :: 0 <= i < |tree| ==>
              TrimSpace(tree[i]) == "" || (|tree[i]| >= 2 && tree[i][0] == '?' && tree[i][1] == '?')
  {
    hide TrimSpace;
    forall i | 0 <= i < |tree|
      ensures Untracked(tree[i]) <==>
              TrimSpace(tree[i]) == "" || (|tree[i]| >= 2 && tree[i][0] == '?' && tree[i][1] == '?')
    {
    }
  }

  /** Then, and only then, the checkout is reset: to that commit. */
  lemma ResetIff(h: Host, site: Site, opts: Options, ans: Answers, to: string)
    ensures var p := Progressed(h, site, opts, ans).host;
            ResetTo(to, p.head, p.tree, ans.reset.ok) in News(h, site, opts, ans) <==>
            IsReset(h, site, opts, ans) && to == Target(h, site, opts, ans)
  {
    hide Perform;
    hide LastHealthy;
    hide StepsSucceed;
    hide News;
    hide Untracked;
    NoneFails(h, site, opts, ans);
    var p := Progressed(h, site, opts, ans).host;
    ResetOnlyWhenSafe(h, site, opts, ans, ResetTo(to, p.head, p.tree, ans.reset.ok));
    CleanIs(p.tree);
  }

  /** How a run leaves the checkout... */
  lemma CheckoutEnds(h: Host, site: Site, opts: Options, ans: Answers)
    ensures var p, out := Progressed(h, site, opts, ans).host, Run(h, site, opts, ans);
            var reset, hooked := IsReset(h, site, opts, ans), SiteIsUp(site, opts, ans) && site.postHook;
            out.head == (if reset then (if ans.reset.ok then Target(h, site, opts, ans) else ans.reset.head)
                         else if hooked then ans.postHook.head else p.head)
            && out.tree == (if reset && !ans.reset.ok then ans.reset.tree
                            else if hooked then ans.postHook.tree else p.tree)
  {
    hide Progressed;
    hide LastHealthy;
    hide StepsSucceed;
    hide Clean;
    hide StopsAt;
    hide RanEvents;
    hide NamesOf;
    hide Todo;
    NoneFails(h, site, opts, ans);
    var k := StepsInOrder(h, site, opts, ans);
    CleanIs(Progressed(h, site, opts, ans).host.tree);
  }

  /** ...the service... */
  lemma ServiceEnds(h: Host, site: Site, opts: Options, ans: Answers)
    ensures var p, out := Progressed(h, site, opts, ans).host, Run(h, site, opts, ans);
            var target, reverts := Target(h, site, opts, ans), IsReset(h, site, opts, ans) && ans.reset.ok;
            out.serving == if !AsksRestart(site, opts, ans) then h.serving
                           else if ans.restart then Some(p.head)
                           else if reverts && ans.secondRestart then Some(target)
                           else None
  {
    hide Progressed;
    hide LastHealthy;
    hide StepsSucceed;
    hide Clean;
    hide StopsAt;
    hide RanEvents;
    hide NamesOf;
    hide Todo;
    NoneFails(h, site, opts, ans);
    var k := StepsInOrder(h, site, opts, ans);
    CleanIs(Progressed(h, site, opts, ans).host.tree);
  }

  /** ...and the history. */
  lemma HistoryEnds(h: Host, site: Site, opts: Options, ans: Answers)
    ensures Run(h, site, opts, ans).history ==
            if ans.closes then h.history + [RecordOf(h, site, opts, ans)]
            else h.history + [Record(|h.history|, site.domain, false, "", [], false, "", false, None)]
  {
    hide Progressed;
    hide RecordOf;
    RunEvents(h, site, opts, ans);
  }
}
