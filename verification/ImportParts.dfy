/** Aliases, hooks, undos, and which records an import plans at all (internal/cli/cmd_import.go). */
module ImportParts {
  import opened Text
  import opened Compose
  import opened ImportPlan
  import opened ImportLaws
  import opened ImportFlags

  // ----- deploy hooks -----------------------------------------------------------------------------------

  /** The site a `site hook set` is for, and the commands it asks to run before and after a deploy. */
  function HooksAsked(argv: seq<string>): Option<(string, string, string)>
    requires |argv| >= 4
  {
    var r := ReadFlags(map[], argv[4..], {});
    if r.None? then None else Some((argv[3], Given(r.value, "--before"), Given(r.value, "--after")))
  }

  function HookFields(s: Site): Fields {
    [("--before", s.preDeploy), ("--after", s.postDeploy)]
  }

  lemma HookArgvParts(s: Site)
    ensures HookStep(s).argv == ["site", "hook", "set", s.domain] + Appended(HookFields(s))
  {
    var head, fs := ["site", "hook", "set", s.domain], HookFields(s);
    assert fs[..1] == [fs[0]] && fs == fs[..1] + [fs[1]];
    assert head + Appended([]) == head;
    OneMoreAppended([], fs[0], head);
    assert [] + [fs[0]] == fs[..1];
    OneMoreAppended(fs[..1], fs[1], head);
  }

  /** Deploy hooks come back as they were, whatever the commands look like. */
  lemma HooksComeBack(s: Site)
    ensures HookStep(s).argv[..3] == ["site", "hook", "set"]
    ensures HooksAsked(HookStep(s).argv) == Some((s.domain, s.preDeploy, s.postDeploy))
  {
    HookArgvParts(s);
    var fs := HookFields(s);
    assert HookStep(s).argv[4..] == Appended(fs) && Appended(fs) + [] == Appended(fs);
    hide HookStep;
    hide Appended;
    hide ReadFlags;
    ReadBackFlags(map[], fs, [], {}, 0, "--before");
    ReadBackFlags(map[], fs, [], {}, 1, "--before");
  }

  // ----- the steps of a site, one by one ------------------------------------------------------------------

  /** The units of a site keep their order, and nobody else's are among them. */
  lemma {:induction false} UnitsOfSite(a: seq<Unit>, b: seq<Unit>, u: Unit, domain: string)
    ensures UnitSteps([], domain) == []
    ensures UnitSteps([u], domain) == if u.domain == domain then [UnitStep(u)] else []
    ensures UnitSteps(a + b, domain) == UnitSteps(a, domain) + UnitSteps(b, domain)
    decreases |b|
  {
    hide UnitStep;
    assert [u][..0] == [] && [] + UnitSteps([u], domain) == UnitSteps([u], domain);
    if b == [] {
      assert a + b == a;
    } else {
      assert (a + b)[..|a + b| - 1] == a + b[..|b| - 1];
      UnitsOfSite(a, b[..|b| - 1], u, domain);
    }
  }

  /** A site is rebuilt by: its creation; each alias in order; its hooks, if it has one; its units; and,
      if it was off, the command that disables it. */
  lemma StepsOfSite(s: Site, units: seq<Unit>)
    ensures var steps, a, m := SiteSteps(s, units), |s.aliases|, |UnitSteps(units, s.domain)|;
            var h := if s.preDeploy != "" || s.postDeploy != "" then 1 else 0;
            |steps| == 1 + a + h + m + (if s.enabled then 0 else 1)
            && steps[0] == SiteStep(s)
            && (forall i :: 0 <= i < a ==> steps[1 + i].argv == ["site", "alias", "add", s.domain, s.aliases[i]])
            && (h == 1 ==> steps[1 + a] == HookStep(s))
            && steps[1 + a + h..1 + a + h + m] == UnitSteps(units, s.domain)
            && (!s.enabled ==> steps[|steps| - 1].argv == ["site", "disable", s.domain])
  {
    hide SiteStep;
    hide HookStep;
    hide UnitSteps;
    hide AliasSteps;
    hide DisableSteps;
    AliasesAre(s);
    DisablingIs(s);
    FiveParts(SiteStep(s), AliasSteps(s, s.aliases), HookSteps(s), UnitSteps(units, s.domain), DisableSteps(s));
  }

  lemma AliasesAre(s: Site)
    ensures |AliasSteps(s, s.aliases)| == |s.aliases|
    ensures forall i :: 0 <= i < |s.aliases| ==>
              AliasSteps(s, s.aliases)[i].argv == ["site", "alias", "add", s.domain, s.aliases[i]]
  {
  }

  lemma DisablingIs(s: Site)
    ensures |DisableSteps(s)| == if s.enabled then 0 else 1
    ensures !s.enabled ==> DisableSteps(s)[0].argv == ["site", "disable", s.domain]
  {
  }

  lemma FiveParts(x: Step, a: seq<Step>, b: seq<Step>, c: seq<Step>, d: seq<Step>)
    ensures var all := [x] + (a + b + c + d);
            |all| == 1 + |a| + |b| + |c| + |d| && all[0] == x
            && (forall i :: 0 <= i < |a| ==> all[1 + i] == a[i])
            && (|b| == 1 ==> all[1 + |a|] == b[0])
            && all[1 + |a| + |b|..1 + |a| + |b| + |c|] == c
            && (|d| == 1 ==> all[|all| - 1] == d[0])
  {
  }

  /** How tenants and sites are taken back, and that nothing else is. */
  lemma UndosAre(u: User, k: Key, s: Site, a: string, unit: Unit)
    ensures UserStep(u).undo == Some(["user", "delete", u.name, "--purge"])
    ensures SiteStep(s).undo == Some(["site", "delete", s.domain, "--purge"])
    ensures KeyStep(k).undo == None && AliasStep(s, a).undo == None && HookStep(s).undo == None
    ensures UnitStep(unit).undo == None && DisableStep(s).undo == None
  {
  }

  // ----- which records are planned ----------------------------------------------------------------------

  predicate LastRecord(sites: seq<Site>, domain: string, i: int) {
    0 <= i < |sites| && sites[i].domain == domain && forall j :: i < j < |sites| ==> sites[j].domain != domain
  }

  /** The owner of a domain is that of its last record, and nobody where it has none. */
  lemma {:induction false} OwnerIsLast(sites: seq<Site>, domain: string, owner: string)
    ensures OwnerOf(sites, domain) == owner <==>
            (exists i :: LastRecord(sites, domain, i) && sites[i].owner == owner)
            || (owner == "" && forall i :: 0 <= i < |sites| ==> sites[i].domain != domain)
  {
    if sites != [] {
      var n := |sites| - 1;
      var front := sites[..n];
      OwnerIsLast(front, domain, owner);
      if sites[n].domain == domain {
        assert LastRecord(sites, domain, n);
      } else {
        forall i ensures LastRecord(sites, domain, i) <==> LastRecord(front, domain, i) {
          assert LastRecord(front, domain, i) ==> forall j :: i < j < n ==> front[j] == sites[j];
        }
        assert (forall i :: 0 <= i < n ==> front[i].domain != domain) ==>
               forall i :: 0 <= i <= n ==> sites[i].domain != domain;
      }
    }
  }

  /** The line of a key: its algorithm and body, and its comment if it has one. */
  lemma KeyLineIs(k: Key)
    ensures k.comment == "" ==> AuthorizedLine(k) == k.algorithm + " " + k.blob
    ensures k.comment != "" ==> AuthorizedLine(k) == k.algorithm + " " + k.blob + " " + k.comment
  {
  }

  /** A tenant is planned if all are, or it is listed, and the store does not find it. */
  lemma UserPlannedIff(im: Importer, st: Store, u: User)
    ensures UserPlanned(im, st, u) <==>
            (|im.only| == 0 || u.name in im.only) && !(st.answers && u.name in st.users)
  {
  }

  /** A site is planned if all are, or its owner is listed, and the store does not find it. */
  lemma SitePlannedIff(im: Importer, st: Store, s: Site)
    ensures SitePlanned(im, st, s) <==>
            (|im.only| == 0 || s.owner in im.only) && !(st.answers && s.domain in st.sites)
  {
  }

  /** A key is planned if it is not revoked, has a body, is not found by its fingerprint, if it carries
      one, and all are planned or the tenant it belongs to is listed: that of a user key, or the owner
      of a site key's site. A global key belongs to nobody. */
  lemma KeyPlannedIff(im: Importer, st: Store, sites: seq<Site>, k: Key)
    ensures KeyPlanned(im, st, sites, k) <==>
            !k.revoked && k.blob != "" && !(k.fingerprint != "" && st.answers && k.fingerprint in st.fingerprints)
            && (|im.only| == 0 || (k.scope == "user" && k.owner in im.only)
                || (k.scope == "site" && OwnerOf(sites, k.site) in im.only))
  {
  }

  /** What is noted: tenants, sites and keys left alone, and revoked keys. */
  lemma NotesAre(im: Importer, st: Store, sites: seq<Site>, units: seq<Unit>, u: User, s: Site, k: Key)
    ensures |PlanUser(im, st, u).notes| ==
            if (|im.only| == 0 || u.name in im.only) && st.answers && u.name in st.users then 1 else 0
    ensures |PlanSite(im, st, units, s).notes| ==
            if (|im.only| == 0 || s.owner in im.only) && st.answers && s.domain in st.sites then 1 else 0
    ensures |PlanKey(im, st, sites, k).notes| ==
            if k.revoked then 1
            else if k.blob != "" && KeyInScope(im, sites, k) && k.fingerprint != "" && st.answers
                    && k.fingerprint in st.fingerprints then 1 else 0
  {
    hide SiteSteps;
    hide UserStep;
    hide KeyStep;
    hide KeyInScope;
  }
}
