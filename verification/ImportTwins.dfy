/** Keys an import would add twice: `key add` refuses a fingerprint that is already installed
    (internal/sshkey/manager.go), so a plan runs to its end only if no two of its keys share one. */
module ImportTwins {
  import opened Text
  import opened Compose
  import opened ImportPlan
  import opened ImportLaws
  import opened ImportOrder
  import opened ImportFlags

  /** The fingerprint of an authorized line. */
  type Hash = string -> string

  /** The fingerprint of the key a step adds. */
  function Print(s: Step, fp: Hash): Option<string> {
    if Kind(s) == 1 && |s.argv| >= 2 && GrantAsked(s.argv).Some? then Some(fp(GrantAsked(s.argv).value.line)) else None
  }

  /** No two steps add the same key. */
  predicate NoRepeat(steps: seq<Step>, fp: Hash) {
    forall i, j :: 0 <= i < j < |steps| && Print(steps[i], fp).Some? ==> Print(steps[i], fp) != Print(steps[j], fp)
  }

  predicate Live(im: Importer, st: Store, e: Export, k: Key) {
    k in e.keys && KeyPlanned(im, st, e.sites, k)
  }

  /** No planned key is in the export twice, and no two have the same fingerprint. */
  ghost predicate NoTwins(im: Importer, st: Store, e: Export, fp: Hash) {
    (forall k :: Live(im, st, e, k) ==> multiset(e.keys)[k] == 1)
    && forall k, k' :: Live(im, st, e, k) && Live(im, st, e, k') && k != k' ==>
         fp(AuthorizedLine(k)) != fp(AuthorizedLine(k'))
  }

  // ----- lists of keys --------------------------------------------------------------------------------

  predicate AllDiffer(ks: seq<Key>, fp: Hash) {
    forall i, j :: 0 <= i < j < |ks| ==> fp(AuthorizedLine(ks[i])) != fp(AuthorizedLine(ks[j]))
  }

  lemma {:induction false} TwoPlaces(ks: seq<Key>, k: Key) returns (i: nat, j: nat)
    requires multiset(ks)[k] >= 2
    ensures i < j < |ks| && ks[i] == ks[j] == k
  {
    var n := |ks| - 1;
    assert ks == ks[..n] + [ks[n]];
    if ks[n] == k {
      assert multiset(ks[..n])[k] >= 1;
      assert k in ks[..n];
      i :| 0 <= i < n && ks[..n][i] == k;
      j := n;
    } else {
      i, j := TwoPlaces(ks[..n], k);
    }
  }

  lemma CountedTwice(ks: seq<Key>, i: nat, j: nat)
    requires i < j < |ks| && ks[i] == ks[j]
    ensures multiset(ks)[ks[i]] >= 2
  {
    assert ks == ks[..j] + ks[j..];
    assert ks[..j][i] in multiset(ks[..j]) && ks[j..][0] in multiset(ks[j..]);
  }

  /** Whether all prints differ depends on the records alone, not on their order. */
  lemma AllDifferIff(ks: seq<Key>, fp: Hash)
    ensures AllDiffer(ks, fp) <==>
            (forall k :: k in ks ==> multiset(ks)[k] == 1)
            && forall k, k' :: k in ks && k' in ks && k != k' ==> fp(AuthorizedLine(k)) != fp(AuthorizedLine(k'))
  {
    hide AuthorizedLine;
    if AllDiffer(ks, fp) {
      forall k | k in ks ensures multiset(ks)[k] == 1 {
        if multiset(ks)[k] >= 2 {
          var i, j := TwoPlaces(ks, k);
        }
      }
    }
    if i, j :| 0 <= i < j < |ks| && fp(AuthorizedLine(ks[i])) == fp(AuthorizedLine(ks[j])) && ks[i] == ks[j] {
      CountedTwice(ks, i, j);
    }
  }

  // ----- the keys of a plan ---------------------------------------------------------------------------

  function LiveKeys(im: Importer, st: Store, sites: seq<Site>, ks: seq<Key>): seq<Key> {
    if ks == [] then []
    else
      var k := ks[|ks| - 1];
      LiveKeys(im, st, sites, ks[..|ks| - 1]) + if KeyPlanned(im, st, sites, k) then [k] else []
  }

  lemma {:induction false} LiveCount(im: Importer, st: Store, sites: seq<Site>, ks: seq<Key>, k: Key)
    ensures multiset(LiveKeys(im, st, sites, ks))[k] == if KeyPlanned(im, st, sites, k) then multiset(ks)[k] else 0
  {
    hide KeyPlanned;
    if ks != [] {
      LiveCount(im, st, sites, ks[..|ks| - 1], k);
      assert ks == ks[..|ks| - 1] + [ks[|ks| - 1]];
    }
  }

  /** The key steps of a plan are those of the live keys, in order. */
  lemma {:induction false} KeyStepsAreLive(im: Importer, st: Store, sites: seq<Site>, ks: seq<Key>)
    ensures var steps, live := PlanKeys(im, st, sites, ks).steps, LiveKeys(im, st, sites, ks);
            |steps| == |live| && forall i :: 0 <= i < |steps| ==> steps[i] == KeyStep(live[i])
  {
    hide KeyStep;
    hide KeyInScope;
    hide HasKey;
    if ks != [] {
      KeyStepsAreLive(im, st, sites, ks[..|ks| - 1]);
    }
  }

  lemma PrintOfKey(k: Key, fp: Hash)
    ensures Print(KeyStep(k), fp) == Some(fp(AuthorizedLine(k)))
  {
    KeyArgvRead(k);
    KeyReplayed(k);
    assert Kind(KeyStep(k)) == 1;
    hide GrantAsked;
    hide KeyStep;
  }

  lemma PrintsDiffer(im: Importer, st: Store, sites: seq<Site>, ks: seq<Key>, fp: Hash)
    ensures NoRepeat(PlanKeys(im, st, sites, ks).steps, fp) <==> AllDiffer(LiveKeys(im, st, sites, ks), fp)
  {
    hide Print;
    hide KeyStep;
    hide AuthorizedLine;
    hide PlanKeys;
    hide LiveKeys;
    KeyStepsAreLive(im, st, sites, ks);
    var live := LiveKeys(im, st, sites, ks);
    forall i | 0 <= i < |live| ensures Print(KeyStep(live[i]), fp) == Some(fp(AuthorizedLine(live[i]))) {
      PrintOfKey(live[i], fp);
    }
  }

  /** What adds no key can stand before and behind. */
  lemma OnlyKeysRepeat(users: seq<Step>, keys: seq<Step>, sites: seq<Step>, fp: Hash)
    requires forall i :: 0 <= i < |users| ==> Print(users[i], fp).None?
    requires forall i :: 0 <= i < |sites| ==> Print(sites[i], fp).None?
    ensures NoRepeat(users + keys + sites, fp) <==> NoRepeat(keys, fp)
  {
    hide Print;
    var all, n := users + keys + sites, |users|;
    assert forall i :: 0 <= i < |keys| ==> all[n + i] == keys[i];
    forall i | 0 <= i < |all| ensures Print(all[i], fp).Some? ==> n <= i < n + |keys| && all[i] == keys[i - n] {
      assert i < n ==> all[i] == users[i];
      assert i >= n + |keys| ==> all[i] == sites[i - n - |keys|];
    }
    if NoRepeat(all, fp) {
      forall i, j | 0 <= i < j < |keys| && Print(keys[i], fp).Some? ensures Print(keys[i], fp) != Print(keys[j], fp) {
        assert all[n + i] == keys[i] && all[n + j] == keys[j];
      }
    }
  }

  /** No plan adds a key twice exactly when no two live keys of the export are twins. */
  lemma PlanHasNoTwins(im: Importer, st: Store, e: Export, o: Order, fp: Hash)
    requires InOrder(im, e, o) && !im.skipKeys
    ensures NoRepeat(PlanOf(im, st, e, o).steps, fp) <==> NoTwins(im, st, e, fp)
  {
    var users, keys := PlanUsers(im, st, o.users).steps, PlanKeys(im, st, e.sites, o.keys).steps;
    var sites := if im.skipSites then [] else PlanSites(im, st, e.units, o.sites).steps;
    UserKinds(im, st, o.users);
    SitesInBlocks(im, st, e.units, o.sites);
    assert PlanOf(im, st, e, o).steps == users + keys + sites;
    OnlyKeysRepeat(users, keys, sites, fp);
    PrintsDiffer(im, st, e.sites, o.keys, fp);
    LiveAreLive(im, st, e, o);
    AllDifferIff(LiveKeys(im, st, e.sites, o.keys), fp);
    hide PlanUsers;
    hide PlanKeys;
    hide PlanSites;
  }

  lemma LiveAreLive(im: Importer, st: Store, e: Export, o: Order)
    requires InOrder(im, e, o) && !im.skipKeys
    ensures var live := LiveKeys(im, st, e.sites, o.keys);
            forall k :: (k in live <==> Live(im, st, e, k)) && (k in live ==> multiset(live)[k] == multiset(e.keys)[k])
  {
    var live := LiveKeys(im, st, e.sites, o.keys);
    hide KeyPlanned;
    hide LiveKeys;
    forall k ensures multiset(live)[k] == if KeyPlanned(im, st, e.sites, k) then multiset(e.keys)[k] else 0 {
      LiveCount(im, st, e.sites, o.keys, k);
    }
    forall k ensures k in live <==> k in multiset(live) {
    }
    forall k ensures k in e.keys <==> k in multiset(e.keys) {
    }
  }
}
