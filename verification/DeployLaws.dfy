/** What a deploy guarantees: in every single run, and over any sequence of runs. */
module DeployLaws {
  import opened Text
  import opened Deploy

  // ----- the events of one run --------------------------------------------------------------------

  lemma {:induction false} PerformOnlyRuns(p: Progress, steps: seq<Step>, site: Site, opts: Options, ans: Answers)
    ensures var q := Perform(p, steps, site, opts, ans);
            p.host.trace <= q.host.trace
            && (forall i :: |p.host.trace| <= i < |q.host.trace| ==> q.host.trace[i].Ran?)
            && q.host.serving == p.host.serving && q.host.history == p.host.history
  {
    if steps != [] {
      PerformOnlyRuns(p, steps[..|steps| - 1], site, opts, ans);
    }
  }

  function HookEvents(site: Site, ans: Answers): seq<Event> {
    if site.postHook then [RanPostHook(ans.postHook.ok)] else []
  }

  function RecoverEvents(h: Host, target: string, ans: Answers): seq<Event> {
    if !MayRevert(h, target, ans) then []
    else [ResetTo(target, h.head, h.tree, ans.reset.ok)]
         + if ans.reset.ok then [Restarted(target, ans.secondRestart)] else []
  }

  /** Whether the run gets as far as restarting the service. */
  predicate Restarts(h: Host, site: Site, opts: Options, ans: Answers) {
    Progressed(h, site, opts, ans).failed.None? && opts.restart && site.dynamic
  }

  /** What the run does after its steps. */
  function TailEvents(h: Host, site: Site, opts: Options, ans: Answers): seq<Event> {
    var p := Progressed(h, site, opts, ans);
    if p.failed.Some? then []
    else if !Restarts(h, site, opts, ans) then HookEvents(site, ans)
    else if ans.restart then [Restarted(p.host.head, true)] + HookEvents(site, ans)
    else [Restarted(p.host.head, false)] + RecoverEvents(Restart(p.host, false), Target(h, site, opts, ans), ans)
  }

  /** The commit a failed restart is reverted to. */
  function Target(h: Host, site: Site, opts: Options, ans: Answers): string {
    RevertTarget(Open(h, site), site, |h.history|, Sha(h, ans.shaBefore), ans)
  }

  lemma RunEvents(h: Host, site: Site, opts: Options, ans: Answers)
    ensures EndingOf(h, site, opts, ans).host.trace ==
            Progressed(h, site, opts, ans).host.trace + TailEvents(h, site, opts, ans)
    ensures EndingOf(h, site, opts, ans).host.history == Open(h, site).history
  {
    PerformOnlyRuns(Progress(Open(h, site), [], None), CHAIN, site, opts, ans);
    hide Perform;
    hide LastHealthy;
    var p := Progressed(h, site, opts, ans);
    var t := p.host.trace;
    assert t + [] == t;
    if Restarts(h, site, opts, ans) {
      var r := [Restarted(p.host.head, ans.restart)];
      if ans.restart {
        assert t + r + [] == t + (r + []);
        assert t + r + HookEvents(site, ans) == t + (r + HookEvents(site, ans));
      } else {
        var h' := Restart(p.host, false);
        var target := Target(h, site, opts, ans);
        var reset := [ResetTo(target, h'.head, h'.tree, ans.reset.ok)];
        assert t + r + [] == t + (r + []);
        assert t + r + reset == t + (r + (reset + []));
        var up := [Restarted(target, ans.secondRestart)];
        assert t + r + reset + up == t + (r + (reset + up));
      }
    }
  }

  /** The record of a run is begun first and finished last, once each, and says OK exactly when
      the run returns no error. */
  lemma StartedAndFinishedOnce(h: Host, site: Site, opts: Options, ans: Answers)
    ensures var h', r, id := Run(h, site, opts, ans), RecordOf(h, site, opts, ans), |h.history|;
            |h'.trace| >= |h.trace| + 2 && h.trace <= h'.trace
            && h'.trace[|h.trace|] == Started(id) && h'.trace[|h'.trace| - 1] == Finished(id, r.ok)
            && (forall i :: |h.trace| < i < |h'.trace| - 1 ==> !h'.trace[i].Started? && !h'.trace[i].Finished?)
            && (r.ok <==> r.failure.None?) && r.id == id
            && |h'.history| == id + 1 && h'.history[..id] == h.history
            && (if ans.closes then h'.history[id] == r else !h'.history[id].finished && !h'.history[id].ok)
            && h'.history[id].domain == site.domain
  {
    RunEvents(h, site, opts, ans);
    PerformOnlyRuns(Progress(Open(h, site), [], None), CHAIN, site, opts, ans);
    hide Perform;
    hide LastHealthy;
  }

  // ----- every single run ---------------------------------------------------------------------------

  /** What happened during the run. */
  function News(h: Host, site: Site, opts: Options, ans: Answers): seq<Event> {
    StartedAndFinishedOnce(h, site, opts, ans);
    Run(h, site, opts, ans).trace[|h.trace|..]
  }

  /** Which of the events of a run are restarts or resets. */
  lemma RestartsAndResets(h: Host, site: Site, opts: Options, ans: Answers, ev: Event)
    requires ev.Restarted? || ev.ResetTo?
    ensures ev in News(h, site, opts, ans) <==> ev in TailEvents(h, site, opts, ans)
  {
    StartedAndFinishedOnce(h, site, opts, ans);
    RunEvents(h, site, opts, ans);
    PerformOnlyRuns(Progress(Open(h, site), [], None), CHAIN, site, opts, ans);
    hide Perform;
    hide TailEvents;
    var p, tail := Progressed(h, site, opts, ans), TailEvents(h, site, opts, ans);
    var last := [Finished(|h.history|, RecordOf(h, site, opts, ans).ok)];
    var t := Run(h, site, opts, ans).trace;
    assert t == p.host.trace + tail + last;
    var n := |h.trace|;
    var early := p.host.trace[n..];
    assert t[n..] == early + tail + last;
    forall i | 0 <= i < |early| ensures early[i] != ev {
      assert i > 0 ==> p.host.trace[n + i].Ran?;
      assert p.host.trace[n] == Open(h, site).trace[n];
    }
  }

  /** A run resets at most once. */
  lemma ResetAtMostOnce(h: Host, site: Site, opts: Options, ans: Answers, i: nat, j: nat)
    requires i < j < |News(h, site, opts, ans)|
    ensures !(News(h, site, opts, ans)[i].ResetTo? && News(h, site, opts, ans)[j].ResetTo?)
  {
    hide Perform;
    hide LastHealthy;
    hide MayRevert;
    hide Conclude;
    hide Recover;
    StartedAndFinishedOnce(h, site, opts, ans);
    RunEvents(h, site, opts, ans);
    PerformOnlyRuns(Progress(Open(h, site), [], None), CHAIN, site, opts, ans);
    var p, tail, n := Progressed(h, site, opts, ans), TailEvents(h, site, opts, ans), |h.trace|;
    var early := p.host.trace[n..];
    var last := [Finished(|h.history|, RecordOf(h, site, opts, ans).ok)];
    assert Run(h, site, opts, ans).trace[n..] == early + tail + last;
    assert p.host.trace[n] == Open(h, site).trace[n];
    assert forall k :: 0 <= k < |early| ==> early[k] == p.host.trace[n + k];
    assert forall k :: 0 <= k < |tail| && tail[k].ResetTo? ==> k == 1;
  }

  /** A step that fails before the restart leaves the serving commit alone: nothing is restarted
      and nothing is reset. Nor does a run that was not asked to restart. */
  lemma NoRestartNoChange(h: Host, site: Site, opts: Options, ans: Answers, ev: Event)
    requires !Restarts(h, site, opts, ans) && (ev.Restarted? || ev.ResetTo?)
    ensures Run(h, site, opts, ans).serving == h.serving
    ensures ev !in News(h, site, opts, ans)
    ensures RecordOf(h, site, opts, ans).failure.Some? && RecordOf(h, site, opts, ans).failure.value.StepFailed?
            <==> Progressed(h, site, opts, ans).failed.Some?
  {
    RestartsAndResets(h, site, opts, ans, ev);
    PerformOnlyRuns(Progress(Open(h, site), [], None), CHAIN, site, opts, ans);
    hide Perform;
  }

  /** `git reset --hard` is issued exactly when the restart failed and reverting is safe: then once,
      with a clean tree, and to a target that is not empty and, where HEAD could be read, not HEAD. */
  lemma ResetOnlyWhenSafe(h: Host, site: Site, opts: Options, ans: Answers, ev: Event)
    requires ev.ResetTo?
    ensures ev in News(h, site, opts, ans) <==>
            Restarts(h, site, opts, ans) && !ans.restart
            && MayRevert(Restart(Progressed(h, site, opts, ans).host, false), Target(h, site, opts, ans), ans)
            && ev == ResetTo(Target(h, site, opts, ans), Progressed(h, site, opts, ans).host.head,
                             Progressed(h, site, opts, ans).host.tree, ans.reset.ok)
    ensures ev in News(h, site, opts, ans) ==>
              ev.target != "" && Clean(Some(ev.tree)) && (ans.shaOnFailure ==> ev.target != ev.head)
  {
    RestartsAndResets(h, site, opts, ans, ev);
    hide Perform;
    hide LastHealthy;
  }

  /** The run reaches the revert. */
  predicate Reverts(h: Host, site: Site, opts: Options, ans: Answers) {
    Restarts(h, site, opts, ans) && !ans.restart
    && MayRevert(Restart(Progressed(h, site, opts, ans).host, false), Target(h, site, opts, ans), ans)
  }

  /** The three ways a revert ends. Rolled back means HEAD and the service are at the target;
      rollback-failed is reported exactly when the reset or the second restart failed. */
  lemma RevertOutcomes(h: Host, site: Site, opts: Options, ans: Answers)
    ensures var h', r, to := Run(h, site, opts, ans), RecordOf(h, site, opts, ans), Target(h, site, opts, ans);
            (r.rolledBack <==> Reverts(h, site, opts, ans) && ans.reset.ok && ans.secondRestart)
            && (r.rolledBack ==> h'.head == to && h'.serving == Some(to) && r.failure == Some(Reverted(to)))
            && (r.failure == Some(RollbackFailed) <==>
                  Reverts(h, site, opts, ans) && (!ans.reset.ok || !ans.secondRestart))
            && (r.failure == Some(NothingSafe) <==>
                  Restarts(h, site, opts, ans) && !ans.restart && !Reverts(h, site, opts, ans))
  {
    PerformOnlyRuns(Progress(Open(h, site), [], None), CHAIN, site, opts, ans);
    hide Perform;
    hide LastHealthy;
    hide Clean;
  }

  /** A run that ends OK records the commit HEAD is at in the end, or where that cannot be read the
      commit HEAD was at in the beginning. */
  lemma OkRecordsHead(h: Host, site: Site, opts: Options, ans: Answers)
    requires RecordOf(h, site, opts, ans).ok
    ensures var end := Sha(Run(h, site, opts, ans), ans.shaAfter);
            RecordOf(h, site, opts, ans).sha == if end != "" then end else Sha(h, ans.shaBefore)
  {
    hide Perform;
    hide LastHealthy;
  }

  /** The post-deploy hook leaves HEAD where the steps left it. */
  predicate HookKeepsHead(h: Host, site: Site, opts: Options, ans: Answers) {
    site.postHook ==> ans.postHook.head == Progressed(h, site, opts, ans).host.head
  }

  /** The commit an OK run records was restarted into during that run exactly when the run included
      a restart and the record is of the HEAD that restart found: the post-deploy hook did not move it
      or, where HEAD cannot be read at the end, the steps had left it where the run began. */
  lemma OkCommitServedIff(h: Host, site: Site, opts: Options, ans: Answers)
    requires RecordOf(h, site, opts, ans).ok
    ensures Restarted(RecordOf(h, site, opts, ans).sha, true) in News(h, site, opts, ans) <==>
            opts.restart && site.dynamic
            && if Sha(Run(h, site, opts, ans), ans.shaAfter) != "" then HookKeepsHead(h, site, opts, ans)
               else Sha(h, ans.shaBefore) == Progressed(h, site, opts, ans).host.head
  {
    OkRecordsHead(h, site, opts, ans);
    RestartsAndResets(h, site, opts, ans, Restarted(RecordOf(h, site, opts, ans).sha, true));
    hide Perform;
    hide LastHealthy;
  }

  // ----- any sequence of runs -----------------------------------------------------------------------

  /** A deploy of the site, or whatever happens between two: commits, crashes, other sites' deploys. */
  datatype Request =
    | Deploying(opts: Options, ans: Answers)
    | Meanwhile(head: string, tree: seq<string>, serving: Option<string>, elsewhere: seq<Record>)

  predicate Possible(site: Site, q: Request) {
    q.Meanwhile? ==> forall i :: 0 <= i < |q.elsewhere| ==> q.elsewhere[i].domain != site.domain
  }

  function Next(h: Host, site: Site, q: Request): Host {
    match q
    case Deploying(opts, ans) => Run(h, site, opts, ans)
    case Meanwhile(head, tree, serving, elsewhere) =>
      Host(head, tree, serving, h.history + elsewhere, h.trace)
  }

  function After(h: Host, site: Site, qs: seq<Request>): Host {
    if qs == [] then h else Next(After(h, site, qs[..|qs| - 1]), site, qs[|qs| - 1])
  }

  function CountStarted(t: seq<Event>, id: nat): nat {
    if t == [] then 0
    else CountStarted(t[..|t| - 1], id) + if t[|t| - 1] == Started(id) then 1 else 0
  }

  function CountFinished(t: seq<Event>, id: nat): nat {
    if t == [] then 0
    else CountFinished(t[..|t| - 1], id)
         + if t[|t| - 1].Finished? && t[|t| - 1].id == id then 1 else 0
  }

  lemma {:induction false} CountsConcat(a: seq<Event>, b: seq<Event>, id: nat)
    ensures CountStarted(a + b, id) == CountStarted(a, id) + CountStarted(b, id)
    ensures CountFinished(a + b, id) == CountFinished(a, id) + CountFinished(b, id)
  {
    if b == [] {
      assert a + b == a;
    } else {
      assert (a + b)[..|a + b| - 1] == a + b[..|b| - 1];
      CountsConcat(a, b[..|b| - 1], id);
    }
  }

  lemma {:induction false} CountsOfNone(t: seq<Event>, id: nat)
    requires forall i :: 0 <= i < |t| ==> !t[i].Started? && !t[i].Finished?
    ensures CountStarted(t, id) == 0 && CountFinished(t, id) == 0
  {
    if t != [] {
      CountsOfNone(t[..|t| - 1], id);
    }
  }

  /** One run starts and finishes its own record, and no other. */
  lemma RunCounts(h: Host, site: Site, opts: Options, ans: Answers, id: nat)
    ensures var h' := Run(h, site, opts, ans);
            CountStarted(h'.trace, id) == CountStarted(h.trace, id) + (if id == |h.history| then 1 else 0)
            && CountFinished(h'.trace, id) == CountFinished(h.trace, id) + (if id == |h.history| then 1 else 0)
  {
    StartedAndFinishedOnce(h, site, opts, ans);
    var t, n := Run(h, site, opts, ans).trace, |h.trace|;
    hide Run;
    var middle := t[n + 1..|t| - 1];
    assert t == h.trace + ([t[n]] + (middle + [t[|t| - 1]]));
    CountsConcat(h.trace, [t[n]] + (middle + [t[|t| - 1]]), id);
    CountsConcat([t[n]], middle + [t[|t| - 1]], id);
    CountsConcat(middle, [t[|t| - 1]], id);
    CountsOfNone(middle, id);
    assert [t[n]][..0] == [] && [t[|t| - 1]][..0] == [];
  }

  /** Every record that was started has been finished, once, and a record of the site that says OK
      was finished OK. */
  ghost predicate Paired(h: Host, site: Site) {
    (forall id: nat :: CountStarted(h.trace, id) == CountFinished(h.trace, id) <= 1)
    && (forall id: nat :: id >= |h.history| ==> CountStarted(h.trace, id) == 0)
    && (forall id :: 0 <= id < |h.history| && h.history[id].domain == site.domain && h.history[id].finished
          ==> Finished(id, h.history[id].ok) in h.trace)
  }

  lemma PairedIsKept(h: Host, site: Site, q: Request)
    requires Paired(h, site) && Possible(site, q)
    ensures Paired(Next(h, site, q), site)
  {
    if q.Deploying? {
      var h' := Run(h, site, q.opts, q.ans);
      StartedAndFinishedOnce(h, site, q.opts, q.ans);
      hide Run;
      hide RecordOf;
      forall id: nat
        ensures CountStarted(h'.trace, id) == CountFinished(h'.trace, id) <= 1
        ensures id >= |h'.history| ==> CountStarted(h'.trace, id) == 0
      {
        RunCounts(h, site, q.opts, q.ans, id);
      }
      forall id | 0 <= id < |h'.history| && h'.history[id].domain == site.domain && h'.history[id].finished
        ensures Finished(id, h'.history[id].ok) in h'.trace
      {
        if id < |h.history| {
          assert h'.history[id] == h'.history[..|h.history|][id] == h.history[id];
          var i :| 0 <= i < |h.trace| && h.trace[i] == Finished(id, h.history[id].ok);
          assert h'.trace[i] == h.trace[i];
        } else {
          assert h'.trace[|h'.trace| - 1] in h'.trace;
        }
      }
    }
  }

  /** Over any sequence of deploys and other happenings, each started record is finished once. */
  lemma {:induction false} EveryRecordFinishedOnce(h: Host, site: Site, qs: seq<Request>)
    requires Paired(h, site) && forall i :: 0 <= i < |qs| ==> Possible(site, qs[i])
    ensures Paired(After(h, site, qs), site)
  {
    if qs != [] {
      EveryRecordFinishedOnce(h, site, qs[..|qs| - 1]);
      PairedIsKept(After(h, site, qs[..|qs| - 1]), site, qs[|qs| - 1]);
    }
  }

  // ----- what a revert goes back to -------------------------------------------------------------------

  /** Every healthy record of the site names a commit the service has restarted into. */
  predicate Proven(h: Host, site: Site) {
    forall i :: 0 <= i < |h.history| ==> ProvenRecord(h.history[i], h.trace, site)
  }

  predicate ProvenRecord(r: Record, trace: seq<Event>, site: Site) {
    r.domain == site.domain && r.ok && r.sha != "" ==> Restarted(r.sha, true) in trace
  }

  /** If the deploy ends OK, it included a restart, could read HEAD at the end, and its hook did not
      move HEAD. */
  predicate Disciplined(h: Host, site: Site, q: Request) {
    q.Deploying? && RecordOf(h, site, q.opts, q.ans).ok ==>
      q.opts.restart && site.dynamic && HookKeepsHead(h, site, q.opts, q.ans)
      && Sha(Run(h, site, q.opts, q.ans), q.ans.shaAfter) != ""
  }

  lemma ProvenIsKept(h: Host, site: Site, q: Request)
    requires Proven(h, site) && Possible(site, q) && Disciplined(h, site, q)
    ensures Proven(Next(h, site, q), site)
  {
    var h' := Next(h, site, q);
    if q.Deploying? {
      StartedAndFinishedOnce(h, site, q.opts, q.ans);
      if RecordOf(h, site, q.opts, q.ans).ok {
        OkCommitServedIff(h, site, q.opts, q.ans);
      }
    }
    hide Run;
    hide RecordOf;
    forall i | 0 <= i < |h'.history| ensures ProvenRecord(h'.history[i], h'.trace, site) {
      if i < |h.history| {
        assert ProvenRecord(h.history[i], h.trace, site);
        assert h'.history[i] == h'.history[..|h.history|][i] == h.history[i];
        assert forall ev :: ev in h.trace ==> ev in h'.trace by {
          assert h.trace <= h'.trace;
        }
      } else if q.Deploying? {
        assert News(h, site, q.opts, q.ans) == h'.trace[|h.trace|..];
      }
    }
  }

  /** Every deploy of the sequence is disciplined, in the world it finds. */
  predicate AllDisciplined(h: Host, site: Site, qs: seq<Request>) {
    forall i :: 0 <= i < |qs| ==> Possible(site, qs[i]) && Disciplined(After(h, site, qs[..i]), site, qs[i])
  }

  lemma {:induction false} DisciplineProves(h: Host, site: Site, qs: seq<Request>)
    requires Proven(h, site) && AllDisciplined(h, site, qs)
    ensures Proven(After(h, site, qs), site)
  {
    if qs != [] {
      var n := |qs| - 1;
      forall i | 0 <= i < n
        ensures Possible(site, qs[..n][i]) && Disciplined(After(h, site, qs[..n][..i]), site, qs[..n][i])
      {
        assert qs[..n][..i] == qs[..i];
      }
      DisciplineProves(h, site, qs[..n]);
      assert Disciplined(After(h, site, qs[..n]), site, qs[n]);
      ProvenIsKept(After(h, site, qs[..n]), site, qs[n]);
    }
  }

  /** After any disciplined sequence, a revert whose target comes from history goes to a commit that
      has restarted successfully before this run began. */
  lemma RevertGoesToAProvenCommit(h: Host, site: Site, qs: seq<Request>, opts: Options, ans: Answers)
    requires Proven(h, site) && AllDisciplined(h, site, qs)
    ensures var now := After(h, site, qs);
            Reverts(now, site, opts, ans)
            && LastHealthy(Open(now, site).history, site.domain, |now.history|, ans.history) != ""
            ==> Restarted(Target(now, site, opts, ans), true) in now.trace
  {
    DisciplineProves(h, site, qs);
    var now := After(h, site, qs);
    var begun, id := Open(now, site), |now.history|;
    if ans.history {
      var records := Newest(begun.history, site.domain, HISTORY_LIMIT);
      NewestAreOfHistory(begun.history, site.domain, HISTORY_LIMIT);
      FirstHealthyIsRecorded(records, id);
      var sha := FirstHealthy(records, id);
      if sha != "" {
        var r :| r in records && Healthy(r, id) && r.sha == sha;
        assert r in now.history;
        var i :| 0 <= i < |now.history| && now.history[i] == r;
        assert ProvenRecord(now.history[i], now.trace, site);
      }
    }
  }

  // ----- without discipline ---------------------------------------------------------------------------

  function Quietly(head: string, restart: bool): Answers {
    var same := Answer(true, head, []);
    Answers(_ => same, true, true, true, true, true, restart, "", same, true, same, true, true)
  }

  const PULL_ONLY := Options(true, false, false, false, false, false)
  const PULL_AND_RESTART := Options(true, false, false, false, false, true)

  const ONE_SITE := Site("a", true, false, false)
  const OLD_HOST := Host("old", [], Some("old"), [], [])

  /** The first deploy pulls "new" and does not restart. */
  function Unrestarted(): Host {
    Run(OLD_HOST, ONE_SITE, PULL_ONLY, Quietly("new", true))
  }

  /** A deploy without --restart ends OK and records a commit the service never ran... */
  lemma UnrestartedRun()
    ensures var h := Unrestarted();
            RecordOf(OLD_HOST, ONE_SITE, PULL_ONLY, Quietly("new", true)).ok
            && h.serving == Some("old") && h.tree == [] && Restarted("new", true) !in h.trace
            && LastHealthy(Open(h, ONE_SITE).history, "a", |h.history|, true) == "new"
  {
    var site, h, ans := ONE_SITE, OLD_HOST, Quietly("new", true);
    PullOnly(Progress(Open(h, site), [], None), site, PULL_ONLY, ans);
    var h' := Unrestarted();
    NoRestartNoChange(h, site, PULL_ONLY, ans, Restarted("new", true));
    StartedAndFinishedOnce(h, site, PULL_ONLY, ans);
    assert News(h, site, PULL_ONLY, ans) == h'.trace;
    var r := RecordOf(h, site, PULL_ONLY, ans);
    assert r.ok && r.sha == "new";
    assert h'.history == [r];
    var inFlight := Open(h', site).history[1];
    assert Open(h', site).history == [r, inFlight];
    OnlyOneBefore(r, inFlight);
  }

  /** ...and a second deploy, whose restart into "newer" fails, resets the checkout to it. */
  lemma UnrestartedCommitCountsAsHealthy()
    ensures Restarted("new", true) !in Unrestarted().trace
    ensures ResetTo("new", "newer", [], true)
            in News(Unrestarted(), ONE_SITE, PULL_AND_RESTART, Quietly("newer", false))
  {
    hide Run;
    hide Perform;
    hide LastHealthy;
    UnrestartedRun();
    var h, ans := Unrestarted(), Quietly("newer", false);
    PullOnly(Progress(Open(h, ONE_SITE), [], None), ONE_SITE, PULL_AND_RESTART, ans);
    ResetOnlyWhenSafe(h, ONE_SITE, PULL_AND_RESTART, ans, ResetTo("new", "newer", [], true));
  }

  lemma OnlyOneBefore(r: Record, inFlight: Record)
    requires r.domain == inFlight.domain == "a" && inFlight.id == 1 && Healthy(r, 1)
    ensures LastHealthy([r, inFlight], "a", 1, true) == r.sha
  {
    assert [r, inFlight][..1] == [r] && [r][..0] == [];
    assert Newest([r], "a", 19) == [r];
    var newest := Newest([r, inFlight], "a", HISTORY_LIMIT);
    assert newest == [inFlight, r];
    assert newest[1..] == [r];
    assert FirstHealthy([r], 1) == r.sha;
  }

  lemma PullOnly(p: Progress, site: Site, opts: Options, ans: Answers)
    requires p.failed.None? && !site.preHook && ans.step(Pull).ok && opts in {PULL_ONLY, PULL_AND_RESTART}
    ensures Perform(p, CHAIN, site, opts, ans) ==
            Progress(AfterStep(p.host, Pull, ans.step(Pull)), p.done + ["pull"], None)
  {
    assert CHAIN[..5] == [Pull, PreHook, Install, Build, Migrate];
    assert CHAIN[..5][..4] == [Pull, PreHook, Install, Build];
    assert CHAIN[..5][..4][..3] == [Pull, PreHook, Install];
    assert CHAIN[..5][..4][..3][..2] == [Pull, PreHook];
    assert CHAIN[..5][..4][..3][..2][..1] == [Pull];
    var one := CHAIN[..5][..4][..3][..2][..1];
    assert one[..0] == [];
    assert Perform(p, one, site, opts, ans) ==
           Progress(AfterStep(p.host, Pull, ans.step(Pull)), p.done + ["pull"], None);
    assert Perform(p, CHAIN[..5][..4][..3], site, opts, ans) == Perform(p, one, site, opts, ans);
    assert Perform(p, CHAIN[..5], site, opts, ans) == Perform(p, CHAIN[..5][..4][..3], site, opts, ans);
  }
}
