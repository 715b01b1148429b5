/** herd's dependency planning (`plan_install`, `apply_plan`, `cmd_upgrade` in usr/bin/herd.c).

    The index and the installed manifests are maps from names to records; an
    install that succeeds writes the index record as the new manifest. */
module HerdPlan {
  import opened HerdVersion

  const CAP := 256

  datatype Pkg = Pkg(stamp: Stamp, depends: seq<string>)

  type Db = map<string, Pkg>

  predicate IsSystem(name: string) {
    name == "kernel" || name == "cervus-base" || name == "cervus-libc" || name == "cervus-media" || name == "cervus-system"
  }

  /** Every dependency found in the index ranks below the package that asks for it. */
  ghost predicate Acyclic(idx: Db, rank: string -> nat) {
    forall p, d :: p in idx && d in idx[p].depends && d != "libc" && d in idx ==> rank(d) < rank(p)
  }

  ghost function Height(idx: Db, rank: string -> nat, name: string): nat {
    if name in idx then rank(name) + 1 else 0
  }

  ghost predicate Below(idx: Db, rank: string -> nat, deps: seq<string>, h: nat) {
    forall d :: d in deps && d != "libc" ==> Height(idx, rank, d) < h
  }

  /** Whether a name has to be installed at all: missing, or older than the index when upgrades are wanted. */
  predicate Needed(idx: Db, db: Db, name: string, up: bool)
    requires name in idx
  {
    name !in db || (up && IsNewer(db[name].stamp, idx[name].stamp))
  }

  datatype Plan = Plan(ok: bool, order: seq<string>)

  /** `plan_install`: dependencies first, then the name, while there is room. */
  ghost function PlanName(idx: Db, db: Db, rank: string -> nat, name: string, order: seq<string>, up: bool): Plan
    requires Acyclic(idx, rank)
    decreases Height(idx, rank, name), 1, 0
  {
    if name in order then Plan(true, order)
    else if name !in idx then Plan(false, order)
    else if !Needed(idx, db, name, up) then Plan(true, order)
    else
      var r := PlanDeps(idx, db, rank, idx[name].depends, order, rank(name) + 1);
      if !r.ok then r
      else Plan(true, if |r.order| < CAP then r.order + [name] else r.order)
  }

  ghost function PlanDeps(idx: Db, db: Db, rank: string -> nat, deps: seq<string>, order: seq<string>, h: nat): Plan
    requires Acyclic(idx, rank) && Below(idx, rank, deps, h)
    decreases h, 0, |deps|
  {
    if deps == [] then Plan(true, order)
    else if deps[0] == "libc" then PlanDeps(idx, db, rank, deps[1..], order, h)
    else
      var r := PlanName(idx, db, rank, deps[0], order, IsSystem(deps[0]));
      if !r.ok then r else PlanDeps(idx, db, rank, deps[1..], r.order, h)
  }

  // ----- what a plan promises -----

  /** Dependencies of p are installed or stand earlier. */
  ghost predicate Ready(idx: Db, db: Db, p: string, before: seq<string>)
    requires p in idx
  {
    forall d :: d in idx[p].depends && d != "libc" ==> d in db || d in before
  }

  ghost predicate GoodOrder(idx: Db, db: Db, order: seq<string>) {
    && |order| <= 256
    && (forall i, j :: 0 <= i < j < |order| ==> order[i] != order[j])
    && (forall i :: 0 <= i < |order| ==> order[i] in idx && Ready(idx, db, order[i], order[..i]))
  }

  /** Installed, planned, or the plan is full. */
  predicate Provided(db: Db, name: string, order: seq<string>) {
    name in db || name in order || |order| >= 256
  }

  /** The plan grows at its end, by names below the height h. */
  ghost predicate Grows(idx: Db, rank: string -> nat, order: seq<string>, order': seq<string>, h: nat) {
    order <= order' && forall i :: |order| <= i < |order'| ==> Height(idx, rank, order'[i]) < h
  }

  lemma GrowsTrans(idx: Db, rank: string -> nat, a: seq<string>, b: seq<string>, c: seq<string>, h: nat)
    requires Grows(idx, rank, a, b, h) && Grows(idx, rank, b, c, h)
    ensures Grows(idx, rank, a, c, h)
  {
    hide Height;
    forall i | |a| <= i < |c| ensures Height(idx, rank, c[i]) < h {
      if i < |b| { assert c[i] == b[i]; }
    }
  }

  lemma AddOne(idx: Db, db: Db, order: seq<string>, name: string)
    requires GoodOrder(idx, db, order) && |order| < CAP && name in idx && name !in order && Ready(idx, db, name, order)
    ensures GoodOrder(idx, db, order + [name])
  {
    var next := order + [name];
    assert next[..|order|] == order;
    forall i | 0 <= i < |next| ensures next[i] in idx && Ready(idx, db, next[i], next[..i]) {
      if i < |order| { assert next[..i] == order[..i]; }
    }
  }

  /** Planning a name keeps the order good, only adds to it, and provides the name when it succeeds. */
  lemma {:induction false} PlanNameGood(idx: Db, db: Db, rank: string -> nat, name: string, order: seq<string>, up: bool)
    requires Acyclic(idx, rank) && GoodOrder(idx, db, order)
    ensures var r := PlanName(idx, db, rank, name, order, up);
      && GoodOrder(idx, db, r.order) && Grows(idx, rank, order, r.order, Height(idx, rank, name) + 1)
      && (r.ok ==> Provided(db, name, r.order))
    decreases Height(idx, rank, name), 1, 0
  {
    hide GoodOrder, IsNewer;
    if name !in order && name in idx && Needed(idx, db, name, up) {
      var deps := idx[name].depends;
      PlanDepsGood(idx, db, rank, deps, order, rank(name) + 1);
      var r := PlanDeps(idx, db, rank, deps, order, rank(name) + 1);
      if r.ok && |r.order| < CAP {
        assert name !in r.order by {
          forall i | 0 <= i < |r.order| ensures r.order[i] != name {
            if i < |order| { assert r.order[i] == order[i]; }
          }
        }
        assert Ready(idx, db, name, r.order);
        AddOne(idx, db, r.order, name);
      }
    }
  }

  lemma {:induction false} PlanDepsGood(idx: Db, db: Db, rank: string -> nat, deps: seq<string>, order: seq<string>, h: nat)
    requires Acyclic(idx, rank) && Below(idx, rank, deps, h) && GoodOrder(idx, db, order)
    ensures var r := PlanDeps(idx, db, rank, deps, order, h);
      && GoodOrder(idx, db, r.order) && Grows(idx, rank, order, r.order, h)
      && (r.ok ==> forall d :: d in deps && d != "libc" ==> Provided(db, d, r.order))
    decreases h, 0, |deps|
  {
    hide GoodOrder, PlanName, IsSystem, Height, Acyclic;
    if deps == [] {
    } else if deps[0] == "libc" {
      PlanDepsGood(idx, db, rank, deps[1..], order, h);
    } else {
      assert deps[0] in deps;
      PlanNameGood(idx, db, rank, deps[0], order, IsSystem(deps[0]));
      var r := PlanName(idx, db, rank, deps[0], order, IsSystem(deps[0]));
      if r.ok {
        PlanDepsGood(idx, db, rank, deps[1..], r.order, h);
        var r' := PlanDeps(idx, db, rank, deps[1..], r.order, h);
        GrowsTrans(idx, rank, order, r.order, r'.order, h);
        forall d | r'.ok && d in deps && d != "libc" ensures Provided(db, d, r'.order) {
          StillProvided(db, d, r.order, r'.order);
        }
      }
    }
  }

  lemma StillProvided(db: Db, d: string, a: seq<string>, b: seq<string>)
    requires a <= b
    ensures Provided(db, d, a) ==> Provided(db, d, b)
  {
    if d in a {
      var i :| 0 <= i < |a| && a[i] == d;
      assert b[i] == d;
    }
  }

  // ----- applying a plan -----

  /** The installed manifests after the first k installs of a plan. */
  ghost function After(idx: Db, db: Db, order: seq<string>, k: nat): Db
    requires k <= |order| && forall i :: 0 <= i < |order| ==> order[i] in idx
  {
    if k == 0 then db else After(idx, db, order, k - 1)[order[k - 1] := idx[order[k - 1]]]
  }

  /** Every installed package has its dependencies installed. */
  ghost predicate Closed(db: Db) {
    forall p, d :: p in db && d in db[p].depends && d != "libc" ==> d in db
  }

  lemma {:induction false} AfterKeys(idx: Db, db: Db, order: seq<string>, k: nat)
    requires k <= |order| && forall i :: 0 <= i < |order| ==> order[i] in idx
    ensures forall p :: p in After(idx, db, order, k) <==> p in db || p in order[..k]
    ensures forall p :: p in After(idx, db, order, k) ==> After(idx, db, order, k)[p] == if p in order[..k] then idx[p] else db[p]
  {
    if k > 0 {
      AfterKeys(idx, db, order, k - 1);
      assert order[..k] == order[..k - 1] + [order[k - 1]];
    }
  }

  /** Stop a good plan after any install: every installed package still has its dependencies. */
  lemma EveryPrefixClosed(idx: Db, db: Db, order: seq<string>, k: nat)
    requires GoodOrder(idx, db, order) && Closed(db) && k <= |order|
    ensures Closed(After(idx, db, order, k))
  {
    AfterKeys(idx, db, order, k);
    var now := After(idx, db, order, k);
    forall p, d | p in now && d in now[p].depends && d != "libc" ensures d in now {
      if p in order[..k] {
        var i :| 0 <= i < k && order[i] == p;
        assert Ready(idx, db, order[i], order[..i]);
        if d !in db {
          assert order[..k][..i] == order[..i];
          assert d in order[..k];
        }
      }
    }
  }

  // ----- when planning fails -----

  /** A name fails when it is not in the index, or is needed and some dependency fails. */
  ghost predicate Fails(idx: Db, db: Db, rank: string -> nat, name: string, up: bool)
    requires Acyclic(idx, rank)
    decreases Height(idx, rank, name), 1, 0
  {
    name !in idx || (Needed(idx, db, name, up) && DepsFail(idx, db, rank, idx[name].depends, rank(name) + 1))
  }

  ghost predicate DepsFail(idx: Db, db: Db, rank: string -> nat, deps: seq<string>, h: nat)
    requires Acyclic(idx, rank) && Below(idx, rank, deps, h)
    decreases h, 0, |deps|
  {
    deps != [] &&
    ((deps[0] != "libc" && Fails(idx, db, rank, deps[0], IsSystem(deps[0]))) || DepsFail(idx, db, rank, deps[1..], h))
  }

  /** Everything planned has dependencies that can be planned. */
  ghost predicate Sane(idx: Db, db: Db, rank: string -> nat, order: seq<string>)
    requires Acyclic(idx, rank)
  {
    forall p :: p in order ==> p in idx && !DepsFail(idx, db, rank, idx[p].depends, rank(p) + 1)
  }

  /** Planning fails exactly for the failing names, whatever is planned already. */
  lemma {:induction false} PlanNameFails(idx: Db, db: Db, rank: string -> nat, name: string, order: seq<string>, up: bool)
    requires Acyclic(idx, rank) && Sane(idx, db, rank, order)
    ensures var r := PlanName(idx, db, rank, name, order, up);
      r.ok == !Fails(idx, db, rank, name, up) && Sane(idx, db, rank, r.order)
    decreases Height(idx, rank, name), 1, 0
  {
    hide IsNewer;
    if name !in order && name in idx && Needed(idx, db, name, up) {
      PlanDepsFail(idx, db, rank, idx[name].depends, order, rank(name) + 1);
    }
  }

  lemma {:induction false} PlanDepsFail(idx: Db, db: Db, rank: string -> nat, deps: seq<string>, order: seq<string>, h: nat)
    requires Acyclic(idx, rank) && Below(idx, rank, deps, h) && Sane(idx, db, rank, order)
    ensures var r := PlanDeps(idx, db, rank, deps, order, h);
      r.ok == !DepsFail(idx, db, rank, deps, h) && Sane(idx, db, rank, r.order)
    decreases h, 0, |deps|
  {
    hide PlanName, Fails, IsSystem, Sane, Height, Acyclic;
    if deps == [] {
    } else if deps[0] == "libc" {
      PlanDepsFail(idx, db, rank, deps[1..], order, h);
    } else {
      assert deps[0] in deps;
      PlanNameFails(idx, db, rank, deps[0], order, IsSystem(deps[0]));
      var r := PlanName(idx, db, rank, deps[0], order, IsSystem(deps[0]));
      if r.ok { PlanDepsFail(idx, db, rank, deps[1..], r.order, h); }
    }
  }

  // ----- nothing left to do -----

  /** Under this plan there is nothing more to plan for a name: it is planned, or not needed,
      or fails after dependencies for which there is nothing more to plan either. */
  ghost predicate Settled(idx: Db, db: Db, rank: string -> nat, order: seq<string>, name: string, up: bool)
    requires Acyclic(idx, rank)
    decreases Height(idx, rank, name), 1, 0
  {
    name in idx && Needed(idx, db, name, up) && name !in order ==>
      DepsSettled(idx, db, rank, order, idx[name].depends, rank(name) + 1)
  }

  ghost predicate DepsSettled(idx: Db, db: Db, rank: string -> nat, order: seq<string>, deps: seq<string>, h: nat)
    requires Acyclic(idx, rank) && Below(idx, rank, deps, h)
    decreases h, 0, |deps|
  {
    deps != [] &&
    if deps[0] == "libc" then DepsSettled(idx, db, rank, order, deps[1..], h)
    else
      && Settled(idx, db, rank, order, deps[0], IsSystem(deps[0]))
      && (Fails(idx, db, rank, deps[0], IsSystem(deps[0])) || DepsSettled(idx, db, rank, order, deps[1..], h))
  }

  lemma {:induction false} SettledGrows(idx: Db, db: Db, rank: string -> nat, a: seq<string>, b: seq<string>, name: string, up: bool)
    requires Acyclic(idx, rank) && a <= b && Settled(idx, db, rank, a, name, up)
    ensures Settled(idx, db, rank, b, name, up)
    decreases Height(idx, rank, name), 1, 0
  {
    hide IsNewer;
    if name in idx && Needed(idx, db, name, up) && name !in b {
      assert name !in a by { StillIn(name, a, b); }
      DepsSettledGrow(idx, db, rank, a, b, idx[name].depends, rank(name) + 1);
    }
  }

  lemma StillIn(name: string, a: seq<string>, b: seq<string>)
    requires a <= b
    ensures name in a ==> name in b
  {
    if name in a {
      var i :| 0 <= i < |a| && a[i] == name;
      assert b[i] == name;
    }
  }

  lemma {:induction false} DepsSettledGrow(idx: Db, db: Db, rank: string -> nat, a: seq<string>, b: seq<string>, deps: seq<string>, h: nat)
    requires Acyclic(idx, rank) && Below(idx, rank, deps, h) && a <= b && DepsSettled(idx, db, rank, a, deps, h)
    ensures DepsSettled(idx, db, rank, b, deps, h)
    decreases h, 0, |deps|
  {
    hide Settled, Fails, IsSystem, Acyclic, Height;
    assert deps[0] in deps;
    if deps[0] != "libc" {
      SettledGrows(idx, db, rank, a, b, deps[0], IsSystem(deps[0]));
      if Fails(idx, db, rank, deps[0], IsSystem(deps[0])) { return; }
    }
    DepsSettledGrow(idx, db, rank, a, b, deps[1..], h);
  }

  /** A plan with room left has settled every name that was asked for. */
  lemma {:induction false} PlanSettles(idx: Db, db: Db, rank: string -> nat, name: string, order: seq<string>, up: bool)
    requires Acyclic(idx, rank) && GoodOrder(idx, db, order) && Sane(idx, db, rank, order)
    requires |PlanName(idx, db, rank, name, order, up).order| < 256
    ensures Settled(idx, db, rank, PlanName(idx, db, rank, name, order, up).order, name, up)
    decreases Height(idx, rank, name), 1, 0
  {
    hide IsNewer, GoodOrder, Sane, Fails;
    if name !in order && name in idx && Needed(idx, db, name, up) {
      var r := PlanDeps(idx, db, rank, idx[name].depends, order, rank(name) + 1);
      if !r.ok {
        PlanDepsSettle(idx, db, rank, idx[name].depends, order, rank(name) + 1);
      }
    }
  }

  lemma {:induction false} PlanDepsSettle(idx: Db, db: Db, rank: string -> nat, deps: seq<string>, order: seq<string>, h: nat)
    requires Acyclic(idx, rank) && Below(idx, rank, deps, h) && GoodOrder(idx, db, order) && Sane(idx, db, rank, order)
    requires var r := PlanDeps(idx, db, rank, deps, order, h); !r.ok && |r.order| < 256
    ensures DepsSettled(idx, db, rank, PlanDeps(idx, db, rank, deps, order, h).order, deps, h)
    decreases h, 0, |deps|
  {
    hide PlanName, Settled, Fails, IsSystem, Sane, GoodOrder, Height, Acyclic;
    assert deps[0] in deps;
    if deps[0] == "libc" {
      PlanDepsSettle(idx, db, rank, deps[1..], order, h);
      return;
    }
    var up := IsSystem(deps[0]);
    var r := PlanName(idx, db, rank, deps[0], order, up);
    PlanNameFails(idx, db, rank, deps[0], order, up);
    if !r.ok {
      PlanSettles(idx, db, rank, deps[0], order, up);
    } else {
      PlanNameGood(idx, db, rank, deps[0], order, up);
      var r' := PlanDeps(idx, db, rank, deps[1..], r.order, h);
      PlanDepsGood(idx, db, rank, deps[1..], r.order, h);
      PlanSettles(idx, db, rank, deps[0], order, up);
      SettledGrows(idx, db, rank, r.order, r'.order, deps[0], up);
      PlanDepsSettle(idx, db, rank, deps[1..], r.order, h);
    }
  }

  /** The manifests that result from a whole plan. */
  ghost predicate Upgraded(idx: Db, db: Db, order: seq<string>, db': Db) {
    && (forall p :: p in order ==> p in idx && p in db' && db'[p] == idx[p])
    && (forall p :: p !in order ==> (p in db' <==> p in db) && (p in db ==> db'[p] == db[p]))
  }

  /** Planning a settled name again, on the upgraded system, adds nothing and fails as before. */
  lemma {:induction false} Replan(idx: Db, db: Db, db': Db, rank: string -> nat, order: seq<string>, name: string, up: bool)
    requires Acyclic(idx, rank) && Sane(idx, db, rank, order) && Upgraded(idx, db, order, db')
    requires Settled(idx, db, rank, order, name, up)
    ensures PlanName(idx, db', rank, name, [], up) == Plan(!Fails(idx, db, rank, name, up), [])
    decreases Height(idx, rank, name), 1, 0
  {
    hide IsNewer;
    if name in order {
      NewerStrictWeakOrder(idx[name].stamp, idx[name].stamp, idx[name].stamp);
    } else if name in idx && Needed(idx, db, name, up) {
      ReplanDeps(idx, db, db', rank, order, idx[name].depends, rank(name) + 1);
    }
  }

  lemma {:induction false} ReplanDeps(idx: Db, db: Db, db': Db, rank: string -> nat, order: seq<string>, deps: seq<string>, h: nat)
    requires Acyclic(idx, rank) && Below(idx, rank, deps, h)
    requires Sane(idx, db, rank, order) && Upgraded(idx, db, order, db') && DepsSettled(idx, db, rank, order, deps, h)
    ensures PlanDeps(idx, db', rank, deps, [], h) == Plan(false, []) && DepsFail(idx, db, rank, deps, h)
    decreases h, 0, |deps|
  {
    hide PlanName, Settled, Fails, IsSystem, Sane, Upgraded, Height, Acyclic;
    assert deps[0] in deps;
    if deps[0] != "libc" {
      Replan(idx, db, db', rank, order, deps[0], IsSystem(deps[0]));
      if Fails(idx, db, rank, deps[0], IsSystem(deps[0])) { return; }
    }
    ReplanDeps(idx, db, db', rank, order, deps[1..], h);
  }
}
