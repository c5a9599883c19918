/** Repeated runs: how many clean rounds bring any host to its roster, and that it then stays there. */
module Rounds {
  import opened Common
  import opened Names
  import opened IdRange
  import opened Roster
  import opened System
  import opened Reconcile
  import opened Executor
  import opened Agreement
  import opened Runs
  import opened Phases
  import opened Achieved
  import opened ViewEnds
  import opened Convergence
  import Goals
  import ViewRounds
  import Views

  type Faults = nat -> set<nat>

  ghost function AfterRounds(env: Env, ro: Roster, w: World, fs: seq<Faults>): World
    decreases |fs|
  {
    if fs == [] then w else AfterRounds(env, ro, End(env, ro, w, fs[0]), fs[1..])
  }

  ghost predicate AllClean(env: Env, ro: Roster, w: World, fs: seq<Faults>)
    decreases |fs|
  {
    fs == [] || (Clean(env, ro, w, fs[0]) && AllClean(env, ro, End(env, ro, w, fs[0]), fs[1..]))
  }

  // --- a host in sync is a fixed point ---

  lemma {:induction false} QuietApply(env: Env, w: World, acts: seq<Action>, faults: Faults)
    requires Quiet(acts)
    ensures Apply(env, w, acts, faults) == Run(w, true)
    decreases |acts|
  {
    if acts != [] {
      var n := |acts| - 1;
      assert forall a :: a in acts[..n] ==> a in acts;
      QuietApply(env, w, acts[..n], faults);
      assert acts[n] in acts;
      assert Script(env, w, acts[n]) == [];
    }
  }

  /** On a host in sync a run changes nothing and cannot fail. */
  lemma InSyncStays(env: Env, ro: Roster, w: World, faults: Faults)
    requires Ready(ro, env.cls) && InSync(env.host, env.cls, ro, w)
    ensures NoRefusal(PlanOf(env, ro, w)) && Apply(env, w, PlanOf(env, ro, w), faults) == Run(w, true)
  {
    PlanQuiet(env, ro, w);
    QuietApply(env, w, PlanOf(env, ro, w), faults);
  }

  lemma {:induction false} InSyncForever(env: Env, ro: Roster, w: World, fs: seq<Faults>)
    requires Ready(ro, env.cls) && InSync(env.host, env.cls, ro, w)
    ensures AfterRounds(env, ro, w, fs) == w
    decreases |fs|
  {
    if fs != [] {
      InSyncStays(env, ro, w, fs[0]);
      InSyncForever(env, ro, w, fs[1..]);
    }
  }

  // --- what the first clean round settles for good ---

  /** Every declared group, folder and live account is there under its declared id. */
  ghost predicate Built(ro: Roster, w: World) {
    && (forall g :: g in ro.groups ==>
          g.name in w.groups && w.groups[g.name].gid == g.gid && g.name in w.folders && w.folders[g.name].gid == g.gid)
    && (forall u :: u in ro.users && u.status != Reserved ==> u.name in w.users)
  }

  ghost predicate PrimariesClear(ro: Roster, w: World) {
    forall u :: u in ro.users && u.status != Reserved ==> Goals.PrimaryClear(ro, w, u)
  }

  lemma EndBuilt(env: Env, ro: Roster, base: World, faults: Faults)
    requires Clean(env, ro, base, faults)
    ensures Built(ro, End(env, ro, base, faults)) && Views.Wf(End(env, ro, base, faults).ns)
  {
    forall g | g in ro.groups
      ensures var w := End(env, ro, base, faults);
              && g.name in w.groups && w.groups[g.name].gid == g.gid
              && g.name in w.folders && w.folders[g.name].gid == g.gid
    {
      FolderEnds(env, ro, base, faults, g);
    }
    forall u | u in ro.users && u.status != Reserved ensures u.name in End(env, ro, base, faults).users {
      LiveEnds(env, ro, base, faults, u);
    }
    var acts := PlanOf(env, ro, base);
    ViewRounds.WfBefore(env, base, acts, faults, |acts|);
    assert acts[..|acts|] == acts;
  }

  /** Runs neither cure nor cause a declared group that is its member's primary group. */
  lemma EndPrimary(env: Env, ro: Roster, base: World, faults: Faults, u: User)
    requires Clean(env, ro, base, faults) && u in ro.users
    ensures Goals.PrimaryClear(ro, End(env, ro, base, faults), u) <==> Goals.PrimaryClear(ro, base, u)
  {
    var w := End(env, ro, base, faults);
    EndGrows(env, ro, base, faults);
    if u.name in w.users && u.name !in base.users {
      var v :| v in ro.users && Goals.Live(env, base, v, u.name) && w.users[u.name].uid == v.uid;
      WindowsDisjoint(env.cls, v.uid);
    }
  }

  lemma EndPrimaries(env: Env, ro: Roster, base: World, faults: Faults)
    requires Clean(env, ro, base, faults)
    ensures PrimariesClear(ro, End(env, ro, base, faults)) <==> PrimariesClear(ro, base)
  {
    forall u | u in ro.users
      ensures Goals.PrimaryClear(ro, End(env, ro, base, faults), u) <==> Goals.PrimaryClear(ro, base, u)
    {
      EndPrimary(env, ro, base, faults, u);
    }
  }

  // --- reader directories with a stale gid ---

  /** Declared readers whose directory carries another gid than the declared one. Observation takes the
      directory's gid for the reader's, so correcting one puts the views that matched it out of step. */
  ghost function Stale(ro: Roster, w: World): set<Name> {
    var gidOf := GidTable(ro.groups);
    set r | r in w.ns.readers && r in gidOf && w.ns.readers[r] != gidOf[r]
  }

  /** A round only corrects directories: those it grants. */
  lemma EndStale(env: Env, ro: Roster, base: World, faults: Faults)
    requires Clean(env, ro, base, faults) && env.host.viewsKnown
    ensures Stale(ro, End(env, ro, base, faults)) == set r | r in Stale(ro, base) && !GrantedNow(ro, base, r)
  {
    var w := End(env, ro, base, faults);
    forall r ensures r in Stale(ro, w) <==> r in Stale(ro, base) && !GrantedNow(ro, base, r) {
      DirsEnd(env, ro, base, faults, r);
    }
  }

  /** Where everything is built and no stale directory is granted, no residue is left. */
  lemma BuiltNoResidue(env: Env, ro: Roster, w: World)
    requires Built(ro, w) && PrimariesClear(ro, w) && Views.Wf(w.ns)
    requires forall r :: r in Stale(ro, w) ==> !GrantedNow(ro, w, r)
    ensures NoResidue(env, ro, w)
  {
    forall g | g in ro.groups && !Due(ro, w, g) ensures ViewsKept(ro, w, g) {
      forall r: Name
        ensures Views.SameAt(w.ns, Regranted(ro, w), Views.Point(r, g.name))
        ensures Views.Point(r, g.name) in w.ns.mounts ==> Views.SameDir(w.ns, Regranted(ro, w), r)
      {
      }
      Views.ObservedDepends(w.ns, Regranted(ro, w), w.folders, map[g.name := Dir(0, 0, g.gid)], g.name);
    }
  }

  /** A round over a built host either brings it in sync or corrects a stale directory. */
  lemma Progress(env: Env, ro: Roster, w: World, faults: Faults)
    requires Clean(env, ro, w, faults) && Built(ro, w) && PrimariesClear(ro, w)
    ensures InSync(env.host, env.cls, ro, End(env, ro, w, faults))
            || |Stale(ro, End(env, ro, w, faults))| < |Stale(ro, w)|
  {
    OneRound(env, ro, w, faults);
    if env.host.viewsKnown {
      if r :| r in Stale(ro, w) && GrantedNow(ro, w, r) {
        EndStale(env, ro, w, faults);
        Shrinks(Stale(ro, End(env, ro, w, faults)), Stale(ro, w), r);
      } else {
        BuiltNoResidue(env, ro, w);
      }
    }
  }

  lemma Shrinks(a: set<Name>, b: set<Name>, r: Name)
    requires a <= b && r in b && r !in a
    ensures |a| < |b|
  {
    Fewer(a, b - {r});
  }

  lemma {:induction false} Fewer(a: set<Name>, b: set<Name>)
    requires a <= b
    ensures |a| <= |b|
    decreases |a|
  {
    if a != {} {
      var x :| x in a;
      Fewer(a - {x}, b - {x});
    }
  }

  lemma {:induction false} FromBuilt(env: Env, ro: Roster, w: World, fs: seq<Faults>)
    requires Ready(ro, env.cls) && AllClean(env, ro, w, fs)
    requires Built(ro, w) && PrimariesClear(ro, w)
    requires |fs| >= 1 + |Stale(ro, w)|
    ensures InSync(env.host, env.cls, ro, AfterRounds(env, ro, w, fs))
    decreases |fs|
  {
    var next := End(env, ro, w, fs[0]);
    Progress(env, ro, w, fs[0]);
    if InSync(env.host, env.cls, ro, next) {
      InSyncForever(env, ro, next, fs[1..]);
    } else {
      EndBuilt(env, ro, w, fs[0]);
      EndPrimaries(env, ro, w, fs[0]);
      FromBuilt(env, ro, next, fs[1..]);
    }
  }

  lemma EndNotMore(env: Env, ro: Roster, w: World, faults: Faults)
    requires Clean(env, ro, w, faults)
    ensures env.host.viewsKnown ==> |Stale(ro, End(env, ro, w, faults))| <= |Stale(ro, w)|
  {
    if env.host.viewsKnown {
      EndStale(env, ro, w, faults);
      Fewer(Stale(ro, End(env, ro, w, faults)), Stale(ro, w));
    }
  }

  // --- the bounds ---

  /** Without residue one clean round is enough, and later rounds change nothing. */
  lemma ConvergesAtOnce(env: Env, ro: Roster, w: World, fs: seq<Faults>)
    requires AllClean(env, ro, w, fs) && fs != [] && NoResidue(env, ro, w)
    ensures InSync(env.host, env.cls, ro, AfterRounds(env, ro, w, fs))
    ensures AfterRounds(env, ro, w, fs) == End(env, ro, w, fs[0])
  {
    OneRound(env, ro, w, fs[0]);
    InSyncForever(env, ro, End(env, ro, w, fs[0]), fs[1..]);
  }

  lemma NotYet(env: Env, ro: Roster, w: World, faults: Faults)
    requires Clean(env, ro, w, faults) && !PrimariesClear(ro, w)
    ensures !InSync(env.host, env.cls, ro, End(env, ro, w, faults)) && !PrimariesClear(ro, End(env, ro, w, faults))
  {
    OneRound(env, ro, w, faults);
    EndPrimaries(env, ro, w, faults);
  }

  /** With a primary group among the declared ones no number of clean rounds helps. */
  lemma {:induction false} NeverConverges(env: Env, ro: Roster, w: World, fs: seq<Faults>)
    requires AllClean(env, ro, w, fs) && fs != [] && !PrimariesClear(ro, w)
    ensures !InSync(env.host, env.cls, ro, AfterRounds(env, ro, w, fs))
    decreases |fs|
  {
    NotYet(env, ro, w, fs[0]);
    if fs[1..] != [] {
      NeverConverges(env, ro, End(env, ro, w, fs[0]), fs[1..]);
    }
  }

  lemma Enough(env: Env, ro: Roster, w: World, fs: seq<Faults>)
    requires AllClean(env, ro, w, fs) && PrimariesClear(ro, w)
    requires |fs| >= 2 + |Stale(ro, w)|
    ensures InSync(env.host, env.cls, ro, AfterRounds(env, ro, w, fs))
  {
    var next := End(env, ro, w, fs[0]);
    EndBuilt(env, ro, w, fs[0]);
    EndPrimaries(env, ro, w, fs[0]);
    EndNotMore(env, ro, w, fs[0]);
    if env.host.viewsKnown {
      FromBuilt(env, ro, next, fs[1..]);
    } else {
      ConvergesAtOnce(env, ro, next, fs[1..]);
    }
  }

  /** From any host whatever, two clean rounds and one more for every stale reader directory bring it to
      its roster exactly when no live user's primary group is a declared group it is a member of. */
  lemma Converges(env: Env, ro: Roster, w: World, fs: seq<Faults>)
    requires AllClean(env, ro, w, fs)
    requires |fs| >= 2 + |Stale(ro, w)|
    ensures InSync(env.host, env.cls, ro, AfterRounds(env, ro, w, fs)) <==> PrimariesClear(ro, w)
  {
    if PrimariesClear(ro, w) {
      Enough(env, ro, w, fs);
    } else {
      NeverConverges(env, ro, w, fs);
    }
  }
}
