/** Which commit a deploy falls back on (lastHealthySha, internal/cli/cmd_site_ops.go), said of the history. */
module DeployHistory {
  import opened Deploy

  /** How many records of the site the history holds from index i on. */
  function Since(history: seq<Record>, domain: string, i: nat): nat {
    if |history| <= i then 0
    else Since(history[..|history| - 1], domain, i) + if history[|history| - 1].domain == domain then 1 else 0
  }

  /** Record i is a finished deployment of the site that ended OK with a commit, other than the one in
      flight. */
  predicate Good(history: seq<Record>, domain: string, exclude: nat, i: nat)
    requires i < |history|
  {
    var r := history[i];
    r.domain == domain && r.ok && r.sha != "" && r.id != exclude
  }

  /** And it is among the site's last n records. */
  predicate Recent(history: seq<Record>, domain: string, n: nat, i: nat)
    requires i < |history|
  {
    Since(history, domain, i + 1) < n
  }

  lemma FrontIsSame(history: seq<Record>, domain: string, exclude: nat, n: nat, i: nat)
    requires i < |history| - 1
    ensures var front, last := history[..|history| - 1], history[|history| - 1];
            Good(front, domain, exclude, i) == Good(history, domain, exclude, i)
            && (last.domain != domain ==> Recent(front, domain, n, i) == Recent(history, domain, n, i))
            && (last.domain == domain && n > 0 ==> Recent(front, domain, n - 1, i) == Recent(history, domain, n, i))
  {
  }

  /** The first healthy record of the newest n is the last healthy one of the history, if it is among
      the last n of the site. */
  lemma {:induction false} NewestIsLast(history: seq<Record>, domain: string, exclude: nat, n: nat)
    ensures var s := FirstHealthy(Newest(history, domain, n), exclude);
            (s == "" <==> forall i :: 0 <= i < |history| && Recent(history, domain, n, i) ==>
                            !Good(history, domain, exclude, i))
            && (s != "" ==> exists i :: IsLastGood(history, domain, exclude, n, i) && history[i].sha == s)
    decreases |history|
  {
    if history != [] && n > 0 {
      var end := |history| - 1;
      var front, last := history[..end], history[end];
      var m := if last.domain == domain then n - 1 else n;
      NewestIsLast(front, domain, exclude, m);
      forall i | 0 <= i < end
        ensures Good(front, domain, exclude, i) == Good(history, domain, exclude, i)
        ensures Recent(front, domain, m, i) == Recent(history, domain, n, i)
      {
        FrontIsSame(history, domain, exclude, n, i);
      }
      if last.domain == domain {
        assert ([last] + Newest(front, domain, m))[1..] == Newest(front, domain, m);
      }
      if Good(history, domain, exclude, end) {
        assert IsLastGood(history, domain, exclude, n, end);
      } else if FirstHealthy(Newest(front, domain, m), exclude) != "" {
        var s := FirstHealthy(Newest(front, domain, m), exclude);
        var i :| IsLastGood(front, domain, exclude, m, i) && front[i].sha == s;
        assert IsLastGood(history, domain, exclude, n, i);
      }
    }
  }

  predicate IsLastGood(history: seq<Record>, domain: string, exclude: nat, n: nat, i: int) {
    0 <= i < |history| && Good(history, domain, exclude, i) && Recent(history, domain, n, i)
    && forall j :: i < j < |history| ==> !Good(history, domain, exclude, j)
  }

  lemma TheLastGood(history: seq<Record>, domain: string, exclude: nat, n: nat, i: int)
    requires IsLastGood(history, domain, exclude, n, i)
    ensures FirstHealthy(Newest(history, domain, n), exclude) == history[i].sha
  {
    NewestIsLast(history, domain, exclude, n);
    hide FirstHealthy;
    hide Newest;
    hide Recent;
    hide Good;
    assert history[i].sha != "" by {
      GoodHasCommit(history, domain, exclude, i);
    }
    var s := FirstHealthy(Newest(history, domain, n), exclude);
    var j :| IsLastGood(history, domain, exclude, n, j) && history[j].sha == s;
  }

  lemma GoodHasCommit(history: seq<Record>, domain: string, exclude: nat, i: nat)
    requires i < |history| && Good(history, domain, exclude, i)
    ensures history[i].sha != ""
  {
  }

  /** When the history can be read, the commit is that of record i exactly when i is a healthy record of
      the site, no later one is, and fewer than twenty of the site's records come after it... */
  lemma LastHealthyIsNewest(history: seq<Record>, domain: string, exclude: nat, s: string)
    requires s != ""
    ensures LastHealthy(history, domain, exclude, true) == s <==>
            exists i :: 0 <= i < |history|
                        && history[i].domain == domain && history[i].ok && history[i].id != exclude
                        && history[i].sha == s && Since(history, domain, i + 1) < 20
                        && forall j :: i < j < |history| && history[j].domain == domain ==>
                             !history[j].ok || history[j].sha == "" || history[j].id == exclude
  {
    hide FirstHealthy;
    hide Newest;
    hide Since;
    NewestIsLast(history, domain, exclude, 20);
    if LastHealthy(history, domain, exclude, true) == s {
      var i :| IsLastGood(history, domain, exclude, 20, i) && history[i].sha == s;
      assert history[i].domain == domain;
      forall j | i < j < |history| && history[j].domain == domain
        ensures !history[j].ok || history[j].sha == "" || history[j].id == exclude
      {
        assert !Good(history, domain, exclude, j);
      }
    }
    if i :| 0 <= i < |history|
            && history[i].domain == domain && history[i].ok && history[i].id != exclude
            && history[i].sha == s && Since(history, domain, i + 1) < 20
            && forall j :: i < j < |history| && history[j].domain == domain ==>
                 !history[j].ok || history[j].sha == "" || history[j].id == exclude {
      assert IsLastGood(history, domain, exclude, 20, i);
      TheLastGood(history, domain, exclude, 20, i);
    }
  }

  /** ...and there is none exactly when none of the site's last twenty is healthy, or the history cannot
      be read. */
  lemma NoneHealthy(history: seq<Record>, domain: string, exclude: nat, readable: bool)
    ensures LastHealthy(history, domain, exclude, readable) == "" <==>
            !readable
            || forall i :: 0 <= i < |history| && history[i].domain == domain && Since(history, domain, i + 1) < 20 ==>
                 !history[i].ok || history[i].sha == "" || history[i].id == exclude
  {
    hide FirstHealthy;
    hide Newest;
    hide Since;
    NewestIsLast(history, domain, exclude, 20);
    forall i | 0 <= i < |history|
      ensures (Recent(history, domain, 20, i) ==> !Good(history, domain, exclude, i)) <==>
              (history[i].domain == domain && Since(history, domain, i + 1) < 20 ==>
                 !history[i].ok || history[i].sha == "" || history[i].id == exclude)
    {
    }
  }
}
