/** `ratline site deploy` (internal/cli/cmd_site_ops.go) as a state machine over one site. What git, the
    steps and the service answer is an oracle, one record of answers for each run. */
module Deploy {
  import opened Text

  // ----- the world --------------------------------------------------------------------------------

  datatype Step = Pull | PreHook | Install | Build | Migrate | CollectStatic

  /** Why a deploy returned an error. */
  datatype Failure =
    | StepFailed(step: Step)
    | RollbackFailed
    | Reverted(to: string)
    | NothingSafe
    | HookFailed
    | TouchFailed

  datatype Record = Record(
    id: nat, domain: string, finished: bool, sha: string, steps: seq<string>,
    ok: bool, health: string, rolledBack: bool, failure: Option<Failure>)

  /** What a run did to the world, in order. */
  datatype Event =
    | Started(id: nat)
    | Ran(step: Step, ok: bool)
    | Restarted(sha: string, ok: bool)
    | ResetTo(target: string, head: string, tree: seq<string>, ok: bool)
    | RanPostHook(ok: bool)
    | Finished(id: nat, ok: bool)

  /** The site's checkout, the commit its service is serving, and the store's deployment records.
      `tree` is what `git status --porcelain` prints; `serving` is None while the service is down. */
  datatype Host = Host(
    head: string, tree: seq<string>, serving: Option<string>,
    history: seq<Record>, trace: seq<Event>)

  datatype Site = Site(domain: string, dynamic: bool, preHook: bool, postHook: bool)

  datatype Options = Options(
    pull: bool, install: bool, build: bool, migrate: bool, collectStatic: bool, restart: bool)

  /** Whether a command succeeded, and the checkout it left. */
  datatype Answer = Answer(ok: bool, head: string, tree: seq<string>)

  datatype Answers = Answers(
    step: Step -> Answer,
    shaBefore: bool,      // rev-parse HEAD can be read when the run starts,
    shaOnFailure: bool,   // when the restart has failed,
    shaAfter: bool,       // and at the end
    status: bool,         // git status can be read
    history: bool,        // the store can be read
    restart: bool, health: string,
    reset: Answer,
    secondRestart: bool,
    postHook: Answer,
    touch: bool,          // TouchDeploy succeeds
    closes: bool)         // FinishDeployment can be written

  // ----- reading ------------------------------------------------------------------------------------

  function Sha(h: Host, readable: bool): string {
    if readable then h.head else ""
  }

  predicate Untracked(line: string) {
    TrimSpace(line) == "" || (|line| >= 2 && line[..2] == "??")
  }

  /** No tracked file is modified or staged; a status that cannot be read counts as dirty. */
  predicate Clean(status: Option<seq<string>>) {
    status.Some? && forall i :: 0 <= i < |status.value| ==> Untracked(status.value[i])
  }

  method GitTreeIsClean(status: Option<seq<string>>) returns (clean: bool)
    ensures clean == Clean(status)
  {
    if status.None? {
      return false;
    }
    for i := 0 to |status.value|
      invariant forall j :: 0 <= j < i ==> Untracked(status.value[j])
    {
      var line := status.value[i];
      if TrimSpace(line) == "" {
        continue;
      }
      if !(|line| >= 2 && line[..2] == "??") {
        return false;
      }
    }
    return true;
  }

  const HISTORY_LIMIT := 20

  /** ListDeployments: the site's records, newest first, no more than `n`. */
  function Newest(history: seq<Record>, domain: string, n: nat): seq<Record>
    decreases |history|
  {
    if history == [] || n == 0 then []
    else
      var last, front := history[|history| - 1], history[..|history| - 1];
      if last.domain == domain then [last] + Newest(front, domain, n - 1) else Newest(front, domain, n)
  }

  predicate Healthy(r: Record, exclude: nat) {
    r.id != exclude && r.ok && r.sha != ""
  }

  function FirstHealthy(records: seq<Record>, exclude: nat): string {
    if records == [] then ""
    else if Healthy(records[0], exclude) then records[0].sha
    else FirstHealthy(records[1..], exclude)
  }

  function LastHealthy(history: seq<Record>, domain: string, exclude: nat, readable: bool): string {
    if readable then FirstHealthy(Newest(history, domain, HISTORY_LIMIT), exclude) else ""
  }

  method LastHealthySha(history: seq<Record>, domain: string, exclude: nat, readable: bool)
    returns (sha: string)
    ensures sha == LastHealthy(history, domain, exclude, readable)
  {
    if !readable {
      return "";
    }
    var records := Newest(history, domain, HISTORY_LIMIT);
    for i := 0 to |records|
      invariant FirstHealthy(records, exclude) == FirstHealthy(records[i..], exclude)
    {
      assert records[i..][1..] == records[i + 1..];
      var d := records[i];
      if d.id == exclude || !d.ok || d.sha == "" {
        continue;
      }
      return d.sha;
    }
    return "";
  }

  lemma {:induction false} NewestAreOfHistory(history: seq<Record>, domain: string, n: nat)
    ensures |Newest(history, domain, n)| <= n
    ensures forall r :: r in Newest(history, domain, n) ==> r in history && r.domain == domain
    decreases |history|
  {
    if history != [] && n > 0 {
      NewestAreOfHistory(history[..|history| - 1], domain, n - 1);
      NewestAreOfHistory(history[..|history| - 1], domain, n);
    }
  }

  /** A commit taken from history is that of a finished, healthy deployment of this site other
      than the one in flight. */
  lemma {:induction false} FirstHealthyIsRecorded(records: seq<Record>, exclude: nat)
    ensures FirstHealthy(records, exclude) != "" ==>
              exists r :: r in records && Healthy(r, exclude) && r.sha == FirstHealthy(records, exclude)
    ensures FirstHealthy(records, exclude) == "" <==> forall r :: r in records ==> !Healthy(r, exclude)
  {
    if records != [] {
      FirstHealthyIsRecorded(records[1..], exclude);
      assert records == [records[0]] + records[1..];
      if Healthy(records[0], exclude) {
        assert records[0] in records;
      }
    }
  }

  // ----- the parts of a run ---------------------------------------------------------------------------

  function StepName(s: Step): string {
    match s
    case Pull => "pull"
    case PreHook => "pre-deploy hook"
    case Install => "install"
    case Build => "build"
    case Migrate => "migrate"
    case CollectStatic => "collectstatic"
  }

  predicate Wanted(s: Step, site: Site, opts: Options) {
    match s
    case Pull => opts.pull
    case PreHook => site.preHook
    case Install => opts.install
    case Build => opts.build
    case Migrate => opts.migrate
    case CollectStatic => opts.collectStatic
  }

  /** The hook after the pull, so that the version just pulled is the one that runs. */
  const CHAIN: seq<Step> := [Pull, PreHook, Install, Build, Migrate, CollectStatic]

  function AfterStep(h: Host, s: Step, a: Answer): Host {
    h.(head := a.head, tree := a.tree, trace := h.trace + [Ran(s, a.ok)])
  }

  /** The wanted steps in order, up to the first that fails. */
  datatype Progress = Progress(host: Host, done: seq<string>, failed: Option<Step>)

  function Perform(p: Progress, steps: seq<Step>, site: Site, opts: Options, ans: Answers): Progress {
    if steps == [] then p
    else
      var q := Perform(p, steps[..|steps| - 1], site, opts, ans);
      var s := steps[|steps| - 1];
      if q.failed.Some? || !Wanted(s, site, opts) then q
      else
        var a := ans.step(s);
        if a.ok then Progress(AfterStep(q.host, s, a), q.done + [StepName(s)], None)
        else Progress(AfterStep(q.host, s, a), q.done, Some(s))
  }

  function Restart(h: Host, ok: bool): Host {
    h.(serving := if ok then Some(h.head) else None, trace := h.trace + [Restarted(h.head, ok)])
  }

  /** `git reset --hard`: on success HEAD is the target; a failed one leaves what the oracle says. */
  function Reset(h: Host, target: string, a: Answer): Host {
    var moved := h.(trace := h.trace + [ResetTo(target, h.head, h.tree, a.ok)]);
    if a.ok then moved.(head := target) else moved.(head := a.head, tree := a.tree)
  }

  /** The record a run closes with. */
  datatype Draft = Draft(sha: string, steps: seq<string>, health: string, rolledBack: bool)

  function Closed(id: nat, site: Site, d: Draft, failure: Option<Failure>): Record {
    Record(id, site.domain, true, d.sha, d.steps, failure.None?, d.health, d.rolledBack, failure)
  }

  function Close(h: Host, id: nat, r: Record, written: bool): Host {
    h.(history := if written && id < |h.history| then h.history[id := r] else h.history,
       trace := h.trace + [Finished(id, r.ok)])
  }

  /** How a run ends, before its record is closed. */
  datatype Ending = Ending(host: Host, draft: Draft, failure: Option<Failure>)

  /** Back to the commit of the last healthy deployment, or else to where HEAD was at the start. */
  function RevertTarget(h: Host, site: Site, id: nat, previous: string, ans: Answers): string {
    var healthy := LastHealthy(h.history, site.domain, id, ans.history);
    if healthy == "" then previous else healthy
  }

  predicate MayRevert(h: Host, target: string, ans: Answers) {
    target != "" && Sha(h, ans.shaOnFailure) != target
    && Clean(if ans.status then Some(h.tree) else None)
  }

  /** The restart has failed. */
  function Recover(h: Host, site: Site, id: nat, d: Draft, ans: Answers): Ending {
    var target := RevertTarget(h, site, id, d.sha, ans);
    if !MayRevert(h, target, ans) then Ending(h, d, Some(NothingSafe))
    else
      var back := Reset(h, target, ans.reset);
      if !ans.reset.ok then Ending(back, d, Some(RollbackFailed))
      else
        var up := Restart(back, ans.secondRestart);
        if !ans.secondRestart then Ending(up, d, Some(RollbackFailed))
        else Ending(up, d.(rolledBack := true), Some(Reverted(target)))
  }

  function WithSha(d: Draft, sha: string): Draft {
    if sha != "" then d.(sha := sha) else d
  }

  /** The site is up, or did not need a restart. */
  function Conclude(h: Host, site: Site, d: Draft, ans: Answers): Ending {
    if !site.postHook then
      Ending(h, WithSha(d, Sha(h, ans.shaAfter)), if ans.touch then None else Some(TouchFailed))
    else
      var a := ans.postHook;
      var h' := h.(head := a.head, tree := a.tree, trace := h.trace + [RanPostHook(a.ok)]);
      var d' := WithSha(d.(steps := d.steps + ["post-deploy hook"]), Sha(h', ans.shaAfter));
      Ending(h', d', if !a.ok then Some(HookFailed) else if ans.touch then None else Some(TouchFailed))
  }

  function Open(h: Host, site: Site): Host {
    var id := |h.history|;
    h.(history := h.history + [Record(id, site.domain, false, "", [], false, "", false, None)],
       trace := h.trace + [Started(id)])
  }

  function Progressed(h: Host, site: Site, opts: Options, ans: Answers): Progress {
    Perform(Progress(Open(h, site), [], None), CHAIN, site, opts, ans)
  }

  function EndingOf(h: Host, site: Site, opts: Options, ans: Answers): Ending {
    var p := Progressed(h, site, opts, ans);
    var d := Draft(Sha(Open(h, site), ans.shaBefore), p.done, "", false);
    if p.failed.Some? then Ending(p.host, d, Some(StepFailed(p.failed.value)))
    else if !opts.restart || !site.dynamic then Conclude(p.host, site, d, ans)
    else
      var d' := d.(steps := d.steps + ["restart"]);
      var h' := Restart(p.host, ans.restart);
      if ans.restart then Conclude(h', site, d'.(health := ans.health), ans)
      else Recover(h', site, |h.history|, d', ans)
  }

  function RecordOf(h: Host, site: Site, opts: Options, ans: Answers): Record {
    var e := EndingOf(h, site, opts, ans);
    Closed(|h.history|, site, e.draft, e.failure)
  }

  /** One whole run. */
  function Run(h: Host, site: Site, opts: Options, ans: Answers): Host {
    Close(EndingOf(h, site, opts, ans).host, |h.history|, RecordOf(h, site, opts, ans), ans.closes)
  }

  // ----- the run as the source performs it --------------------------------------------------------------

  class Server {
    var head: string
    var tree: seq<string>
    var serving: Option<string>
    var history: seq<Record>
    ghost var trace: seq<Event>

    ghost function State(): Host
      reads this
    {
      Host(head, tree, serving, history, trace)
    }

    method RunStep(s: Step, a: Answer) returns (ok: bool)
      modifies this
      ensures ok == a.ok && State() == AfterStep(old(State()), s, a)
    {
      head, tree := a.head, a.tree;
      trace := trace + [Ran(s, a.ok)];
      return a.ok;
    }

    method RestartService(answer: bool) returns (ok: bool)
      modifies this
      ensures ok == answer && State() == Restart(old(State()), answer)
    {
      serving := if answer then Some(head) else None;
      trace := trace + [Restarted(head, answer)];
      return answer;
    }

    method GitReset(target: string, a: Answer) returns (ok: bool)
      modifies this
      ensures ok == a.ok && State() == Reset(old(State()), target, a)
    {
      trace := trace + [ResetTo(target, head, tree, a.ok)];
      if a.ok {
        head := target;
      } else {
        head, tree := a.head, a.tree;
      }
      return a.ok;
    }

    /** The `finish` closure: the record says OK exactly when there is no error. */
    method Finish(record: Record, failure: Option<Failure>, written: bool) returns (closed: Record)
      modifies this
      ensures closed == record.(finished := true, ok := failure.None?, failure := failure)
      ensures State() == Close(old(State()), record.id, closed, written)
    {
      closed := record.(finished := true, ok := failure.None?, failure := failure);
      if written && record.id < |history| {
        history := history[record.id := closed];
      }
      trace := trace + [Finished(record.id, closed.ok)];
    }

    /** The step loop: stops at the first wanted step that fails. */
    method RunSteps(site: Site, opts: Options, ans: Answers) returns (done: seq<string>, failed: Option<Step>)
      modifies this
      ensures var p := Perform(Progress(old(State()), [], None), CHAIN, site, opts, ans);
              State() == p.host && done == p.done && failed == p.failed
    {
      done, failed := [], None;
      ghost var start := Progress(State(), [], None);
      for i := 0 to |CHAIN|
        invariant failed.None?
        invariant Perform(start, CHAIN[..i], site, opts, ans) == Progress(State(), done, None)
      {
        var s := CHAIN[i];
        assert CHAIN[..i + 1][..i] == CHAIN[..i] && CHAIN[..i + 1][i] == s;
        if !Wanted(s, site, opts) {
          continue;
        }
        var ok := RunStep(s, ans.step(s));
        if !ok {
          failed := Some(s);
          RestIsSkipped(start, i + 1, site, opts, ans);
          return;
        }
        done := done + [StepName(s)];
      }
      assert CHAIN[..|CHAIN|] == CHAIN;
    }

    /** What is done when the restart has failed: revert if that is safe. */
    method RecoverFrom(site: Site, record: Record, ans: Answers) returns (rolledBack: bool, failure: Failure)
      modifies this
      ensures var e := Recover(old(State()), site, record.id, DraftOf(record), ans);
              State() == e.host && e.failure == Some(failure)
              && e.draft == DraftOf(record).(rolledBack := rolledBack || record.rolledBack)
    {
      var currentSha := if ans.shaOnFailure then head else "";
      var revertTo := LastHealthySha(history, site.domain, record.id, ans.history);
      if revertTo == "" {
        revertTo := record.sha;
      }
      var canRevert := revertTo != "" && currentSha != revertTo;
      if canRevert {
        canRevert := GitTreeIsClean(if ans.status then Some(tree) else None);
      }
      if !canRevert {
        return false, NothingSafe;
      }
      var reset := GitReset(revertTo, ans.reset);
      if !reset {
        return false, RollbackFailed;
      }
      var up := RestartService(ans.secondRestart);
      if !up {
        return false, RollbackFailed;
      }
      return true, Reverted(revertTo);
    }

    /** What is done once the site is up: the post-deploy hook, and the commit that was deployed. */
    method ConcludeWith(site: Site, record: Record, ans: Answers)
      returns (sha: string, steps: seq<string>, failure: Option<Failure>)
      modifies this
      ensures var e := Conclude(old(State()), site, DraftOf(record), ans);
              State() == e.host && e.failure == failure
              && e.draft == DraftOf(record).(sha := sha, steps := steps)
    {
      sha, steps, failure := record.sha, record.steps, None;
      if site.postHook {
        head, tree := ans.postHook.head, ans.postHook.tree;
        trace := trace + [RanPostHook(ans.postHook.ok)];
        steps := steps + ["post-deploy hook"];
        if !ans.postHook.ok {
          failure := Some(HookFailed);
        }
      }
      var newSha := if ans.shaAfter then head else "";
      if newSha != "" {
        sha := newSha;
      }
      if failure.None? && !ans.touch {
        failure := Some(TouchFailed);
      }
    }

    method Deploy(site: Site, opts: Options, ans: Answers) returns (record: Record)
      modifies this
      ensures State() == Run(old(State()), site, opts, ans)
      ensures record == RecordOf(old(State()), site, opts, ans)
    {
      hide Perform;
      hide Recover;
      hide Conclude;
      ghost var h0 := State();
      record := Record(|history|, site.domain, false, "", [], false, "", false, None);
      history := history + [record];
      trace := trace + [Started(record.id)];
      assert State() == Open(h0, site);
      record := record.(sha := if ans.shaBefore then head else "");

      var done, failed := RunSteps(site, opts, ans);
      assert Progressed(h0, site, opts, ans) == Progress(State(), done, failed);
      record := record.(steps := done);
      var failure := None;
      if failed.Some? {
        failure := Some(StepFailed(failed.value));
      } else {
        var up := true;
        if opts.restart && site.dynamic {
          up := RestartService(ans.restart);
          record := record.(steps := record.steps + ["restart"]);
        }
        if !up {
          var rolledBack, why := RecoverFrom(site, record, ans);
          record := record.(rolledBack := rolledBack);
          failure := Some(why);
        } else {
          if opts.restart && site.dynamic {
            record := record.(health := ans.health);
          }
          var sha, steps, why := ConcludeWith(site, record, ans);
          record := record.(sha := sha, steps := steps);
          failure := why;
        }
      }
      assert EndingOf(h0, site, opts, ans) == Ending(State(), DraftOf(record), failure);
      record := Finish(record, failure, ans.closes);
    }
  }

  function DraftOf(r: Record): Draft {
    Draft(r.sha, r.steps, r.health, r.rolledBack)
  }

  lemma {:induction false} RestIsSkipped(p: Progress, i: nat, site: Site, opts: Options, ans: Answers)
    requires i <= |CHAIN| && Perform(p, CHAIN[..i], site, opts, ans).failed.Some?
    ensures Perform(p, CHAIN, site, opts, ans) == Perform(p, CHAIN[..i], site, opts, ans)
    decreases |CHAIN| - i
  {
    if i < |CHAIN| {
      assert CHAIN[..i + 1][..i] == CHAIN[..i];
      RestIsSkipped(p, i + 1, site, opts, ans);
    } else {
      assert CHAIN[..|CHAIN|] == CHAIN;
    }
  }
}
