/** A plan holds no more than it has to: what `plan_install` adds, and what a command leaves alone. */
module HerdLean {
  import opened HerdVersion
  import opened HerdPlan

  ghost predicate DependsOn(idx: Db, p: string, d: string) { p in idx && d in idx[p].depends && d != "libc" }

  /** From name to name along dependencies. */
  ghost predicate Path(idx: Db, path: seq<string>) {
    path != [] && forall k :: 0 < k < |path| ==> DependsOn(idx, path[k - 1], path[k])
  }

  ghost predicate Leads(idx: Db, path: seq<string>, name: string, p: string) {
    Path(idx, path) && path[0] == name && path[|path| - 1] == p
  }

  /** p is the name itself, or something it depends on, directly or not. */
  ghost predicate Reaches(idx: Db, name: string, p: string) {
    exists path :: Leads(idx, path, name, p)
  }

  /** The packages that are brought up to date whenever something depends on them. */
  ghost predicate AlwaysCurrent(p: string) {
    p in ["kernel", "cervus-base", "cervus-libc", "cervus-media", "cervus-system"]
  }

  /** p has to be installed for `name`: it is missing, or older than its index record and either
      asked for itself with upgrades wanted, or one of those five. */
  ghost predicate Wanted(idx: Db, db: Db, p: string, name: string, up: bool) {
    && p in idx && Reaches(idx, name, p)
    && (p !in db || (IsNewer(db[p].stamp, idx[p].stamp) && ((p == name && up) || AlwaysCurrent(p))))
  }

  ghost predicate WantedByAny(idx: Db, db: Db, p: string, deps: seq<string>) {
    exists d :: d in deps && d != "libc" && Wanted(idx, db, p, d, IsSystem(d))
  }

  lemma ReachesSelf(idx: Db, name: string)
    ensures Reaches(idx, name, name)
  {
    assert Leads(idx, [name], name, name);
  }

  lemma ReachesOn(idx: Db, name: string, d: string, p: string)
    requires DependsOn(idx, name, d) && Reaches(idx, d, p)
    ensures Reaches(idx, name, p)
  {
    var path :| Leads(idx, path, d, p);
    var longer := [name] + path;
    forall k | 0 < k < |longer| ensures DependsOn(idx, longer[k - 1], longer[k]) {
      if k > 1 { assert longer[k - 1] == path[k - 2] && longer[k] == path[k - 1]; }
    }
    assert Leads(idx, longer, name, p);
  }

  /** What is wanted for a dependency is wanted for the package. */
  lemma WantedOn(idx: Db, db: Db, p: string, name: string, up: bool)
    requires name in idx && WantedByAny(idx, db, p, idx[name].depends)
    ensures Wanted(idx, db, p, name, up)
  {
    hide Reaches, IsNewer;
    var d :| d in idx[name].depends && d != "libc" && Wanted(idx, db, p, d, IsSystem(d));
    ReachesOn(idx, name, d, p);
  }

  // ----- nothing else is added -----

  ghost predicate AddsFor(idx: Db, db: Db, a: seq<string>, b: seq<string>, name: string, up: bool) {
    a <= b && forall i :: |a| <= i < |b| ==> Wanted(idx, db, b[i], name, up)
  }

  ghost predicate AddsForAny(idx: Db, db: Db, a: seq<string>, b: seq<string>, deps: seq<string>) {
    a <= b && forall i :: |a| <= i < |b| ==> WantedByAny(idx, db, b[i], deps)
  }

  lemma {:induction false} PlanNameLean(idx: Db, db: Db, rank: string -> nat, name: string, order: seq<string>, up: bool)
    requires Acyclic(idx, rank)
    ensures AddsFor(idx, db, order, PlanName(idx, db, rank, name, order, up).order, name, up)
    decreases Height(idx, rank, name), 1, 0
  {
    hide IsNewer, Wanted, WantedByAny;
    if name !in order && name in idx && Needed(idx, db, name, up) {
      PlanDepsLean(idx, db, rank, idx[name].depends, order, rank(name) + 1);
      var r := PlanDeps(idx, db, rank, idx[name].depends, order, rank(name) + 1);
      forall i | |order| <= i < |r.order| ensures Wanted(idx, db, r.order[i], name, up) {
        WantedOn(idx, db, r.order[i], name, up);
      }
      NeededIsWanted(idx, db, name, up);
    }
  }

  lemma NeededIsWanted(idx: Db, db: Db, name: string, up: bool)
    requires name in idx && Needed(idx, db, name, up)
    ensures Wanted(idx, db, name, name, up)
  {
    ReachesSelf(idx, name);
  }

  lemma {:induction false} PlanDepsLean(idx: Db, db: Db, rank: string -> nat, deps: seq<string>, order: seq<string>, h: nat)
    requires Acyclic(idx, rank) && Below(idx, rank, deps, h)
    ensures AddsForAny(idx, db, order, PlanDeps(idx, db, rank, deps, order, h).order, deps)
    decreases h, 0, |deps|
  {
    hide PlanName, IsSystem, Height, Acyclic, Wanted;
    if deps == [] {
    } else if deps[0] == "libc" {
      PlanDepsLean(idx, db, rank, deps[1..], order, h);
      AnyOfMore(idx, db, order, PlanDeps(idx, db, rank, deps, order, h).order, deps);
    } else {
      assert deps[0] in deps;
      PlanNameLean(idx, db, rank, deps[0], order, IsSystem(deps[0]));
      var r := PlanName(idx, db, rank, deps[0], order, IsSystem(deps[0]));
      AnyOfOne(idx, db, order, r.order, deps);
      if r.ok {
        PlanDepsLean(idx, db, rank, deps[1..], r.order, h);
        var r' := PlanDeps(idx, db, rank, deps[1..], r.order, h);
        AnyOfMore(idx, db, r.order, r'.order, deps);
        AnyTrans(idx, db, order, r.order, r'.order, deps);
      }
    }
  }

  lemma AnyOfOne(idx: Db, db: Db, a: seq<string>, b: seq<string>, deps: seq<string>)
    requires deps != [] && deps[0] != "libc" && AddsFor(idx, db, a, b, deps[0], IsSystem(deps[0]))
    ensures AddsForAny(idx, db, a, b, deps)
  {
    hide Wanted;
    assert deps[0] in deps;
  }

  lemma AnyOfMore(idx: Db, db: Db, a: seq<string>, b: seq<string>, deps: seq<string>)
    requires deps != [] && AddsForAny(idx, db, a, b, deps[1..])
    ensures AddsForAny(idx, db, a, b, deps)
  {
    hide Wanted;
  }

  lemma AnyTrans(idx: Db, db: Db, a: seq<string>, b: seq<string>, c: seq<string>, deps: seq<string>)
    requires AddsForAny(idx, db, a, b, deps) && AddsForAny(idx, db, b, c, deps)
    ensures AddsForAny(idx, db, a, c, deps)
  {
    hide WantedByAny;
    forall i | |a| <= i < |c| ensures WantedByAny(idx, db, c[i], deps) {
      if i < |b| { assert c[i] == b[i]; }
    }
  }

  // ----- and each for something that comes later -----

  /** Place i of a plan is for one of `tops`, or for a package planned behind it. */
  ghost predicate Used(idx: Db, order: seq<string>, i: nat, tops: seq<string>)
    requires i < |order|
  {
    order[i] in tops || exists j :: i < j < |order| && order[j] in idx && order[i] in idx[order[j]].depends
  }

  ghost predicate AllUsed(idx: Db, from: nat, order: seq<string>, tops: seq<string>) {
    forall i :: from <= i < |order| ==> Used(idx, order, i, tops)
  }

  lemma UsedLonger(idx: Db, a: seq<string>, b: seq<string>, i: nat, tops: seq<string>, more: seq<string>)
    requires i < |a| && a <= b && Used(idx, a, i, tops) && forall t :: t in tops ==> t in more
    ensures Used(idx, b, i, more)
  {
    if a[i] !in tops {
      var j :| i < j < |a| && a[j] in idx && a[i] in idx[a[j]].depends;
      assert b[j] == a[j];
    }
  }

  /** With room left and success, every name a plan adds is the one asked for or a dependency of a later one. */
  lemma {:induction false} PlanNameUsed(idx: Db, db: Db, rank: string -> nat, name: string, order: seq<string>, up: bool)
    requires Acyclic(idx, rank)
    requires var r := PlanName(idx, db, rank, name, order, up); r.ok && |r.order| < 256
    ensures AllUsed(idx, |order|, PlanName(idx, db, rank, name, order, up).order, [name])
    decreases Height(idx, rank, name), 1, 0
  {
    hide IsNewer, Used;
    if name !in order && name in idx && Needed(idx, db, name, up) {
      var deps := idx[name].depends;
      PlanDepsUsed(idx, db, rank, deps, order, rank(name) + 1);
      var r := PlanDeps(idx, db, rank, deps, order, rank(name) + 1);
      var all := r.order + [name];
      forall i | |order| <= i < |all| ensures Used(idx, all, i, [name]) {
        if i < |r.order| { UsedByLast(idx, r.order, i, deps, name); } else { LastUsed(idx, r.order, name); }
      }
    }
  }

  lemma LastUsed(idx: Db, order: seq<string>, name: string)
    ensures Used(idx, order + [name], |order|, [name])
  {
  }

  lemma UsedByLast(idx: Db, order: seq<string>, i: nat, deps: seq<string>, name: string)
    requires i < |order| && Used(idx, order, i, deps) && name in idx && deps == idx[name].depends
    ensures Used(idx, order + [name], i, [name])
  {
    var all := order + [name];
    if order[i] in deps {
      assert all[|order|] == name && all[i] == order[i];
    } else {
      var j :| i < j < |order| && order[j] in idx && order[i] in idx[order[j]].depends;
      assert all[j] == order[j] && all[i] == order[i];
    }
  }

  lemma {:induction false} PlanDepsUsed(idx: Db, db: Db, rank: string -> nat, deps: seq<string>, order: seq<string>, h: nat)
    requires Acyclic(idx, rank) && Below(idx, rank, deps, h)
    requires var r := PlanDeps(idx, db, rank, deps, order, h); r.ok && |r.order| < 256
    ensures AllUsed(idx, |order|, PlanDeps(idx, db, rank, deps, order, h).order, deps)
    decreases h, 0, |deps|
  {
    hide PlanName, IsSystem, Height, Acyclic, Used;
    var all := PlanDeps(idx, db, rank, deps, order, h).order;
    if deps == [] {
    } else if deps[0] == "libc" {
      PlanDepsUsed(idx, db, rank, deps[1..], order, h);
      forall i | |order| <= i < |all| ensures Used(idx, all, i, deps) {
        UsedLonger(idx, all, all, i, deps[1..], deps);
      }
    } else {
      assert deps[0] in deps;
      var r := PlanName(idx, db, rank, deps[0], order, IsSystem(deps[0]));
      PlanDepsLean(idx, db, rank, deps[1..], r.order, h);
      PlanDepsUsed(idx, db, rank, deps[1..], r.order, h);
      PlanNameUsed(idx, db, rank, deps[0], order, IsSystem(deps[0]));
      forall i | |order| <= i < |all| ensures Used(idx, all, i, deps) {
        if i < |r.order| {
          UsedLonger(idx, r.order, all, i, [deps[0]], deps);
        } else {
          UsedLonger(idx, all, all, i, deps[1..], deps);
        }
      }
    }
  }

  // ----- and nothing is missing -----

  /** d must be installed for whatever depends on it: it is missing, or one of the five and out of date. */
  ghost predicate Due(idx: Db, db: Db, d: string) {
    d !in db || (AlwaysCurrent(d) && d in idx && IsNewer(db[d].stamp, idx[d].stamp))
  }

  /** In front of every planned name stand its dependencies that are due. */
  ghost predicate Full(idx: Db, db: Db, order: seq<string>) {
    forall i, d :: 0 <= i < |order| && DependsOn(idx, order[i], d) && Due(idx, db, d) ==> d in order[..i]
  }

  lemma FullMore(idx: Db, db: Db, order: seq<string>, name: string)
    requires Full(idx, db, order) && forall d :: DependsOn(idx, name, d) && Due(idx, db, d) ==> d in order
    ensures Full(idx, db, order + [name])
  {
    hide DependsOn, Due;
    var all := order + [name];
    forall i, d | 0 <= i < |all| && DependsOn(idx, all[i], d) && Due(idx, db, d) ensures d in all[..i] {
      if i < |order| { assert all[..i] == order[..i]; } else { assert all[..i] == order; }
    }
  }

  /** A name that is missing, or asked for with upgrades and out of date, is planned, behind all that is due for it. */
  lemma {:induction false} PlanNameFull(idx: Db, db: Db, rank: string -> nat, name: string, order: seq<string>, up: bool)
    requires Acyclic(idx, rank) && Full(idx, db, order)
    requires var r := PlanName(idx, db, rank, name, order, up); r.ok && |r.order| < 256
    ensures var r := PlanName(idx, db, rank, name, order, up);
      && Full(idx, db, r.order) && order <= r.order
      && (name !in db || (up && name in idx && IsNewer(db[name].stamp, idx[name].stamp)) ==> name in r.order)
    decreases Height(idx, rank, name), 1, 0
  {
    hide IsNewer, Full, Due;
    if name !in order && name in idx && Needed(idx, db, name, up) {
      var deps := idx[name].depends;
      PlanDepsFull(idx, db, rank, deps, order, rank(name) + 1);
      FullMore(idx, db, PlanDeps(idx, db, rank, deps, order, rank(name) + 1).order, name);
    }
  }

  lemma {:induction false} PlanDepsFull(idx: Db, db: Db, rank: string -> nat, deps: seq<string>, order: seq<string>, h: nat)
    requires Acyclic(idx, rank) && Below(idx, rank, deps, h) && Full(idx, db, order)
    requires var r := PlanDeps(idx, db, rank, deps, order, h); r.ok && |r.order| < 256
    ensures var r := PlanDeps(idx, db, rank, deps, order, h);
      && Full(idx, db, r.order) && order <= r.order
      && forall d :: d in deps && d != "libc" && Due(idx, db, d) ==> d in r.order
    decreases h, 0, |deps|
  {
    hide PlanName, Height, Acyclic, IsNewer, Full, Due;
    if deps == [] {
    } else if deps[0] == "libc" {
      PlanDepsFull(idx, db, rank, deps[1..], order, h);
    } else {
      assert deps[0] in deps;
      var up := IsSystem(deps[0]);
      var r := PlanName(idx, db, rank, deps[0], order, up);
      PlanDepsLean(idx, db, rank, deps[1..], r.order, h);
      PlanNameFull(idx, db, rank, deps[0], order, up);
      PlanDepsFull(idx, db, rank, deps[1..], r.order, h);
      DueIsAsked(idx, db, deps[0]);
      StillIn(deps[0], r.order, PlanDeps(idx, db, rank, deps[1..], r.order, h).order);
    }
  }

  lemma DueIsAsked(idx: Db, db: Db, d: string)
    ensures Due(idx, db, d) ==> d !in db || (IsSystem(d) && d in idx && IsNewer(db[d].stamp, idx[d].stamp))
  {
  }

  /** A name asked for is planned, or installed and not out of date. */
  ghost predicate Served(idx: Db, db: Db, order: seq<string>, n: string) {
    n in idx && (n in order || (n in db && !IsNewer(db[n].stamp, idx[n].stamp)))
  }

  ghost predicate ServedAll(idx: Db, db: Db, order: seq<string>, names: seq<string>) {
    |order| < 256 ==> Full(idx, db, order) && forall n :: n in names ==> Served(idx, db, order, n)
  }

  lemma ServedMore(idx: Db, db: Db, rank: string -> nat, names: seq<string>, name: string, order: seq<string>)
    requires Acyclic(idx, rank) && ServedAll(idx, db, order, names)
    requires forall p :: p in order ==> p in idx
    ensures var r := PlanName(idx, db, rank, name, order, true);
      r.ok ==> ServedAll(idx, db, r.order, names + [name])
  {
    hide IsNewer, Full, Acyclic;
    var r := PlanName(idx, db, rank, name, order, true);
    PlanNameLean(idx, db, rank, name, order, true);
    if r.ok && |r.order| < 256 {
      PlanNameFull(idx, db, rank, name, order, true);
      hide PlanName;
      OkIsKnown(idx, db, rank, name, order);
      forall n | n in names ensures Served(idx, db, r.order, n) {
        StillIn(n, order, r.order);
      }
    }
  }

  lemma OkIsKnown(idx: Db, db: Db, rank: string -> nat, name: string, order: seq<string>)
    requires Acyclic(idx, rank) && forall p :: p in order ==> p in idx
    ensures PlanName(idx, db, rank, name, order, true).ok ==> name in idx
  {
  }

  /** Once the plan is installed, every name asked for is installed and not out of date. */
  lemma ServedIsCurrent(idx: Db, db: Db, order: seq<string>, names: seq<string>)
    requires GoodOrder(idx, db, order) && |order| < 256 && ServedAll(idx, db, order, names)
    ensures var db' := After(idx, db, order, |order|);
      forall n :: n in names ==> n in db' && n in idx && !IsNewer(db'[n].stamp, idx[n].stamp)
  {
    hide After, IsNewer, Full;
    AfterKeys(idx, db, order, |order|);
    assert order[..|order|] == order;
    forall n | n in names ensures n in idx && !IsNewer(idx[n].stamp, idx[n].stamp) {
      assert Served(idx, db, order, n);
      NewerStrictWeakOrder(idx[n].stamp, idx[n].stamp, idx[n].stamp);
    }
  }

  // ----- what a command leaves alone -----

  ghost predicate WantedFor(idx: Db, db: Db, p: string, names: seq<string>) {
    exists n :: n in names && Wanted(idx, db, p, n, true)
  }

  /** Every planned name is wanted for one of the names asked for. */
  ghost predicate Lean(idx: Db, db: Db, names: seq<string>, order: seq<string>) {
    forall i :: 0 <= i < |order| ==> WantedFor(idx, db, order[i], names)
  }

  lemma LeanMore(idx: Db, db: Db, names: seq<string>, a: seq<string>, b: seq<string>, name: string)
    requires Lean(idx, db, names, a) && AddsFor(idx, db, a, b, name, true)
    ensures Lean(idx, db, names + [name], b)
  {
    hide Wanted;
    forall i | 0 <= i < |b| ensures WantedFor(idx, db, b[i], names + [name]) {
      if i < |a| {
        assert WantedFor(idx, db, a[i], names);
        var n :| n in names && Wanted(idx, db, a[i], n, true);
        assert n in names + [name] && a[i] == b[i];
      } else {
        assert name in names + [name];
      }
    }
  }

  /** An installed package that was not asked for and is none of the five keeps its record, and so does
      every one that is not older than the index; what is new is needed by a name asked for. */
  ghost predicate LeftAlone(idx: Db, db: Db, names: seq<string>, db': Db) {
    && (forall p :: p in db ==> p in db')
    && (forall p :: p in db && p !in names && !AlwaysCurrent(p) ==> db'[p] == db[p])
    && (forall p :: p in db && p in idx && !IsNewer(db[p].stamp, idx[p].stamp) ==> db'[p] == db[p])
    && (forall p :: p in db' && p !in db ==> p in idx && db'[p] == idx[p] && exists n :: n in names && Reaches(idx, n, p))
  }

  lemma LeanLeaves(idx: Db, db: Db, names: seq<string>, order: seq<string>, k: nat)
    requires GoodOrder(idx, db, order) && Lean(idx, db, names, order) && k <= |order|
    ensures LeftAlone(idx, db, names, After(idx, db, order, k))
  {
    hide After, IsNewer, Reaches;
    AfterKeys(idx, db, order, k);
    forall p | p in order[..k]
      ensures p !in db || (p in idx && IsNewer(db[p].stamp, idx[p].stamp) && (p in names || AlwaysCurrent(p)))
      ensures exists n :: n in names && Reaches(idx, n, p)
    {
      var i :| 0 <= i < k && order[i] == p;
      assert WantedFor(idx, db, order[i], names);
    }
  }
}
