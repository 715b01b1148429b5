/** herd's package commands: a plan that grows while names are looked up, and
    installs that rewrite the manifests one after the other. */
module HerdSystem {
  import opened HerdVersion
  import opened HerdPlan
  import opened HerdLean

  // ----- a list of names -----

  /** The names one after the other, whatever becomes of each, as a whole-system upgrade does. */
  ghost function PlanAll(idx: Db, db: Db, rank: string -> nat, names: seq<string>, order: seq<string>): seq<string>
    requires Acyclic(idx, rank)
  {
    if names == [] then order
    else PlanAll(idx, db, rank, names[1..], PlanName(idx, db, rank, names[0], order, true).order)
  }

  lemma {:induction false} PlanAllGood(idx: Db, db: Db, rank: string -> nat, names: seq<string>, order: seq<string>)
    requires Acyclic(idx, rank) && GoodOrder(idx, db, order) && Sane(idx, db, rank, order)
    ensures var all := PlanAll(idx, db, rank, names, order);
      && GoodOrder(idx, db, all) && Sane(idx, db, rank, all) && order <= all
      && (|all| < 256 ==> forall n :: n in names ==> Settled(idx, db, rank, all, n, true))
    decreases names
  {
    hide GoodOrder, Sane, Settled, Acyclic, PlanName, Grows;
    if names != [] {
      var r := PlanName(idx, db, rank, names[0], order, true);
      PlanNameGood(idx, db, rank, names[0], order, true);
      PlanNameFails(idx, db, rank, names[0], order, true);
      GrowsPrefix(idx, rank, order, r.order, Height(idx, rank, names[0]) + 1);
      PlanAllGood(idx, db, rank, names[1..], r.order);
      var all := PlanAll(idx, db, rank, names, order);
      if |all| < CAP {
        PlanSettles(idx, db, rank, names[0], order, true);
        SettledGrows(idx, db, rank, r.order, all, names[0], true);
      }
    }
  }

  lemma GrowsPrefix(idx: Db, rank: string -> nat, a: seq<string>, b: seq<string>, h: nat)
    requires Grows(idx, rank, a, b, h)
    ensures a <= b
  {
  }

  lemma NothingPlanned(idx: Db, db: Db, rank: string -> nat)
    requires Acyclic(idx, rank)
    ensures GoodOrder(idx, db, []) && Sane(idx, db, rank, [])
  {
  }

  lemma AllInstalled(idx: Db, db: Db, order: seq<string>)
    requires GoodOrder(idx, db, order)
    ensures Upgraded(idx, db, order, After(idx, db, order, |order|))
  {
    AfterKeys(idx, db, order, |order|);
    assert order[..|order|] == order;
  }

  ghost predicate Lists(names: seq<string>, db: Db) {
    forall n :: n in names <==> n in db
  }

  lemma {:induction false} ReplanAll(idx: Db, db: Db, db': Db, rank: string -> nat, order: seq<string>, names: seq<string>)
    requires Acyclic(idx, rank) && Sane(idx, db, rank, order) && Upgraded(idx, db, order, db')
    requires forall n :: n in names ==> Settled(idx, db, rank, order, n, true)
    ensures PlanAll(idx, db', rank, names, []) == []
    decreases names
  {
    hide Sane, Settled, Acyclic, PlanName, Upgraded;
    if names != [] {
      Replan(idx, db, db', rank, order, names[0], true);
      ReplanAll(idx, db, db', rank, order, names[1..]);
    }
  }

  /** The manifests after a whole-system upgrade in which every install works. */
  ghost function AfterUpgrade(idx: Db, db: Db, rank: string -> nat, names: seq<string>): Db
    requires Acyclic(idx, rank)
  {
    NothingPlanned(idx, db, rank);
    PlanAllGood(idx, db, rank, names, []);
    var order := PlanAll(idx, db, rank, names, []);
    After(idx, db, order, |order|)
  }

  /** After an upgrade with room to spare in which every install worked, planning again over
      the same index, in whatever order the names are listed, finds nothing to do. */
  lemma UpgradeIdempotent(idx: Db, db: Db, rank: string -> nat, names: seq<string>, again: seq<string>)
    requires Acyclic(idx, rank) && Lists(names, db)
    requires |PlanAll(idx, db, rank, names, [])| < 256
    requires Lists(again, AfterUpgrade(idx, db, rank, names))
    ensures PlanAll(idx, AfterUpgrade(idx, db, rank, names), rank, again, []) == []
  {
    hide Sane, Acyclic, PlanAll;
    var order := PlanAll(idx, db, rank, names, []);
    NothingPlanned(idx, db, rank);
    PlanAllGood(idx, db, rank, names, []);
    AllInstalled(idx, db, order);
    forall n | n in again ensures Settled(idx, db, rank, order, n, true) {
      hide Settled, After;
      if n in order { PlannedIsSettled(idx, db, rank, order, n); }
    }
    ReplanAll(idx, db, AfterUpgrade(idx, db, rank, names), rank, order, again);
  }

  lemma PlannedIsSettled(idx: Db, db: Db, rank: string -> nat, order: seq<string>, n: string)
    requires Acyclic(idx, rank) && n in order
    ensures Settled(idx, db, rank, order, n, true)
  {
  }

  /** What an upgrade is for: afterwards no package is older than its index record, unless its planning fails. */
  lemma UpgradeReachesIndex(idx: Db, db: Db, rank: string -> nat, names: seq<string>, n: string)
    requires Acyclic(idx, rank) && Lists(names, db) && |PlanAll(idx, db, rank, names, [])| < 256
    requires n in AfterUpgrade(idx, db, rank, names) && n in idx && !Fails(idx, db, rank, n, true)
    ensures !IsNewer(AfterUpgrade(idx, db, rank, names)[n].stamp, idx[n].stamp)
  {
    hide Sane, Acyclic, PlanAll, IsNewer;
    var order := PlanAll(idx, db, rank, names, []);
    NothingPlanned(idx, db, rank);
    PlanAllGood(idx, db, rank, names, []);
    AllInstalled(idx, db, order);
    if n in order {
      NewerStrictWeakOrder(idx[n].stamp, idx[n].stamp, idx[n].stamp);
    } else {
      NotFailing(idx, db, rank, order, n);
    }
  }

  lemma NotFailing(idx: Db, db: Db, rank: string -> nat, order: seq<string>, n: string)
    requires Acyclic(idx, rank) && Settled(idx, db, rank, order, n, true)
    requires n in idx && n !in order && !Fails(idx, db, rank, n, true)
    ensures !Needed(idx, db, n, true)
  {
    hide IsNewer;
    if Needed(idx, db, n, true) {
      DepsSettledFail(idx, db, rank, order, idx[n].depends, rank(n) + 1);
    }
  }

  lemma {:induction false} DepsSettledFail(idx: Db, db: Db, rank: string -> nat, order: seq<string>, deps: seq<string>, h: nat)
    requires Acyclic(idx, rank) && Below(idx, rank, deps, h) && DepsSettled(idx, db, rank, order, deps, h)
    ensures DepsFail(idx, db, rank, deps, h)
    decreases |deps|
  {
    hide Settled, Fails, IsSystem, Height, Acyclic;
    assert deps[0] in deps;
    if deps[0] != "libc" && Fails(idx, db, rank, deps[0], IsSystem(deps[0])) { return; }
    DepsSettledFail(idx, db, rank, order, deps[1..], h);
  }

  // ----- the program -----

  class Herd {
    const idx: Db
    var db: Db
    var order: seq<string>

    constructor (idx: Db, db: Db)
      ensures this.idx == idx && this.db == db && order == []
    {
      this.idx, this.db, this.order := idx, db, [];
    }

    /** `plan_install`: appends to the plan and says whether the name can be had. */
    method PlanInstall(name: string, up: bool, ghost rank: string -> nat) returns (rc: int)
      requires Acyclic(idx, rank)
      modifies this`order
      ensures Plan(rc == 0, order) == PlanName(idx, db, rank, name, old(order), up)
      ensures AddsFor(idx, db, old(order), order, name, up)
      ensures rc == 0 && |order| < 256 ==> AllUsed(idx, |old(order)|, order, [name])
      decreases Height(idx, rank, name), 1
    {
      hide IsNewer, Wanted, AddsFor, AllUsed;
      PlanNameLean(idx, db, rank, name, order, up);
      ghost var all := PlanName(idx, db, rank, name, order, up);
      if all.ok && |all.order| < CAP { PlanNameUsed(idx, db, rank, name, order, up); }
      if name in order { return 0; }
      if name !in idx { return 1; }
      if name in db && !(up && IsNewer(db[name].stamp, idx[name].stamp)) { return 0; }
      var deps := idx[name].depends;
      ghost var h := rank(name) + 1;
      ghost var whole := PlanDeps(idx, db, rank, deps, order, h);
      var k := 0;
      assert deps[0..] == deps;
      while k < |deps|
        invariant k <= |deps| && PlanDeps(idx, db, rank, deps[k..], order, h) == whole
      {
        assert deps[k..][1..] == deps[k + 1..] && deps[k] in deps;
        if deps[k] != "libc" {
          var r := PlanInstall(deps[k], IsSystem(deps[k]), rank);
          if r != 0 { return 1; }
        }
        k := k + 1;
      }
      assert deps[k..] == [];
      if |order| < CAP {
        order := order + [name];
      }
      return 0;
    }

    /** `apply_plan`: installs in order and stops at the first that does not work. */
    method ApplyPlan(works: nat -> bool) returns (rc: int, done: nat)
      requires GoodOrder(idx, db, order)
      modifies this`db
      ensures done <= |order| && db == After(idx, old(db), order, done)
      ensures rc == 0 <==> done == |order|
      ensures forall i :: 0 <= i < done ==> works(i)
      ensures rc != 0 ==> !works(done)
      ensures Closed(old(db)) ==> Closed(db)
    {
      done := 0;
      while done < |order|
        invariant done <= |order| && db == After(idx, old(db), order, done)
        invariant forall i :: 0 <= i < done ==> works(i)
      {
        if !works(done) {
          if Closed(old(db)) { EveryPrefixClosed(idx, old(db), order, done); }
          return 1, done;
        }
        db := db[order[done] := idx[order[done]]];
        done := done + 1;
      }
      if Closed(old(db)) { EveryPrefixClosed(idx, old(db), order, done); }
      return 0, done;
    }

    /** `cmd_upgrade` without arguments: names are the installed packages as the directory lists them. */
    method Upgrade(names: seq<string>, works: nat -> bool, ghost rank: string -> nat) returns (rc: int)
      requires Acyclic(idx, rank) && Lists(names, db)
      modifies this
      ensures order == PlanAll(idx, old(db), rank, names, []) && GoodOrder(idx, old(db), order)
      ensures exists k :: 0 <= k <= |order| && db == After(idx, old(db), order, k) && (rc == 0 <==> k == |order|)
      ensures Closed(old(db)) ==> Closed(db)
      ensures LeftAlone(idx, old(db), names, db)
      ensures rc == 0 && |order| < 256 ==> forall again :: Lists(again, db) ==> PlanAll(idx, db, rank, again, []) == []
    {
      hide GoodOrder, Acyclic, Closed, After, PlanName, Lean, LeftAlone, AddsFor, AllUsed;
      order := [];
      var k := 0;
      ghost var whole := PlanAll(idx, db, rank, names, []);
      assert names[0..] == names;
      NothingLean(idx, db);
      while k < |names|
        invariant k <= |names| && PlanAll(idx, db, rank, names[k..], order) == whole && db == old(db)
        invariant Lean(idx, db, names[..k], order)
      {
        assert names[k..][1..] == names[k + 1..] && names[..k + 1] == names[..k] + [names[k]];
        ghost var before := order;
        var r := PlanInstall(names[k], true, rank);
        LeanMore(idx, db, names[..k], before, order, names[k]);
        k := k + 1;
      }
      assert names[k..] == [] && names[..k] == names;
      NothingPlanned(idx, db, rank);
      PlanAllGood(idx, db, rank, names, []);
      var done;
      rc, done := ApplyPlan(works);
      LeanLeaves(idx, old(db), names, order, done);
      if rc == 0 && |order| < CAP {
        forall again | Lists(again, db) ensures PlanAll(idx, db, rank, again, []) == [] {
          UpgradeIdempotent(idx, old(db), rank, names, again);
        }
      }
    }

    /** `cmd_install`: with a name that cannot be planned nothing is installed; otherwise it succeeds
        when every install works. */
    method Install(names: seq<string>, works: nat -> bool, ghost rank: string -> nat) returns (rc: int)
      requires Acyclic(idx, rank)
      modifies this
      ensures GoodOrder(idx, old(db), order)
      ensures CannotPlan(idx, old(db), rank, names) ==> rc == 1 && db == old(db)
      ensures !CannotPlan(idx, old(db), rank, names) ==> (rc == 0 <==> forall i :: 0 <= i < |order| ==> works(i))
      ensures exists k :: 0 <= k <= |order| && db == After(idx, old(db), order, k)
      ensures rc == 0 ==> db == After(idx, old(db), order, |order|) && forall n :: n in names ==> n in db || |order| >= 256
      ensures Closed(old(db)) ==> Closed(db)
      ensures LeftAlone(idx, old(db), names, db)
      ensures rc == 0 && |order| < 256 ==> forall n :: n in names ==> n in db && n in idx && !IsNewer(db[n].stamp, idx[n].stamp)
    {
      hide Acyclic, Closed, After, PlanName, GoodOrder, Sane, Fails, Lean, LeftAlone, AddsFor, AllUsed, ServedAll, IsNewer;
      order := [];
      NothingLean(idx, db);
      NothingPlanned(idx, db, rank);
      assert After(idx, db, [], 0) == db by { NoInstalls(idx, db, []); }
      var k := 0;
      while k < |names|
        invariant k <= |names| && GoodOrder(idx, db, order) && Sane(idx, db, rank, order) && db == old(db)
        invariant forall i :: 0 <= i < k ==> !Fails(idx, db, rank, names[i], true)
        invariant forall n :: n in names[..k] ==> Provided(db, n, order)
        invariant Lean(idx, db, names[..k], order) && ServedAll(idx, db, order, names[..k])
      {
        assert names[..k + 1] == names[..k] + [names[k]];
        KnownOrder(idx, db, order);
        ServedMore(idx, db, rank, names[..k], names[k], order);
        ghost var before := order;
        PlanNameGood(idx, db, rank, names[k], order, true);
        PlanNameFails(idx, db, rank, names[k], order, true);
        var r := PlanInstall(names[k], true, rank);
        GrowsPrefix(idx, rank, before, order, Height(idx, rank, names[k]) + 1);
        LeanMore(idx, db, names[..k], before, order, names[k]);
        NoInstalls(idx, db, order);
        NothingChanged(idx, db, names);
        if r != 0 { return 1; }
        forall n | n in names[..k + 1] ensures Provided(db, n, order) {
          StillProvided(db, n, before, order);
        }
        k := k + 1;
      }
      assert names[..k] == names;
      var done;
      rc, done := ApplyPlan(works);
      LeanLeaves(idx, old(db), names, order, done);
      if rc == 0 {
        InstalledAll(idx, old(db), order);
        if |order| < CAP { ServedIsCurrent(idx, old(db), order, names); }
      }
    }
  }

  /** Some name is missing from the index, or needs one that is. */
  ghost predicate CannotPlan(idx: Db, db: Db, rank: string -> nat, names: seq<string>)
    requires Acyclic(idx, rank)
  {
    exists i :: 0 <= i < |names| && Fails(idx, db, rank, names[i], true)
  }

  lemma NothingLean(idx: Db, db: Db)
    ensures Lean(idx, db, [], []) && ServedAll(idx, db, [], [])
  {
  }

  lemma KnownOrder(idx: Db, db: Db, order: seq<string>)
    requires GoodOrder(idx, db, order)
    ensures forall p :: p in order ==> p in idx
  {
  }

  lemma NothingChanged(idx: Db, db: Db, names: seq<string>)
    ensures LeftAlone(idx, db, names, db)
  {
  }

  lemma NoInstalls(idx: Db, db: Db, order: seq<string>)
    requires GoodOrder(idx, db, order)
    ensures After(idx, db, order, 0) == db
  {
  }

  lemma InstalledAll(idx: Db, db: Db, order: seq<string>)
    requires GoodOrder(idx, db, order)
    ensures forall n :: n in db || n in order ==> n in After(idx, db, order, |order|)
  {
    AfterKeys(idx, db, order, |order|);
    assert order[..|order|] == order;
  }
}
