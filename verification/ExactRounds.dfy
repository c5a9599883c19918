/** Exactly how many clean rounds a host needs, read off the host before the first of them. */
module ExactRounds {
  import opened Common
  import opened Names
  import opened IdRange
  import opened Roster
  import opened System
  import opened Reconcile
  import opened Executor
  import opened Agreement
  import opened Achieved
  import opened ViewRounds
  import opened ViewEnds
  import opened Convergence
  import opened Rounds
  import Fits
  import Goals
  import Views

  // --- what a number of rounds sets, in terms of the starting host ---

  /** Setting the teams of s grants r its directory. */
  ghost predicate GrantedBy(ro: Roster, s: set<Group>, r: Name) {
    exists g :: g in s && r in DeclaredReaders(ro, g)
  }

  /** The views as they were, with the directories granted by setting s at their declared gids. */
  ghost function WithGrants(ro: Roster, w: World, s: set<Group>): Views.Ns {
    var gidOf := GidTable(ro.groups);
    w.ns.(readers :=
      map r | r in w.ns.readers.Keys + gidOf.Keys && (r in w.ns.readers || GrantedBy(ro, s, r)) ::
        if r in gidOf && GrantedBy(ro, s, r) then gidOf[r] else if r in w.ns.readers then w.ns.readers[r] else 0)
  }

  /** With those grants, and its folder at its declared gid, the team is observed to have its readers. */
  ghost predicate KeptUnder(ro: Roster, w: World, s: set<Group>, g: Group) {
    Views.Observed(WithGrants(ro, w, s), map[g.name := Dir(0, 0, g.gid)], g.name) == SortedNames(DeclaredReaders(ro, g))
  }

  /** The teams that n rounds set: those that are due, then those the grants so far put out of step. */
  ghost function SetBy(ro: Roster, w: World, n: nat): set<Group>
    decreases n
  {
    if n == 0 then {}
    else if n == 1 then set g | g in ro.groups && Due(ro, w, g)
    else
      var s := SetBy(ro, w, n - 1);
      s + set g | g in ro.groups && !KeptUnder(ro, w, s, g)
  }

  /** Nothing more is due after n rounds. */
  ghost predicate Stable(ro: Roster, w: World, n: nat) {
    forall g :: g in ro.groups && g !in SetBy(ro, w, n) ==> KeptUnder(ro, w, SetBy(ro, w, n), g)
  }

  // --- the host after n rounds ---

  /** Every point of the team is the same in both. */
  ghost predicate SamePoints(a: Views.Ns, b: Views.Ns, team: Name) {
    forall r: Name {:trigger Views.SameAt(a, b, Views.Point(r, team))} :: Views.SameAt(a, b, Views.Point(r, team))
  }

  /** Teams set so far are settled; the others' points are as they were at the start; every directory is
      granted or as it was. */
  ghost predicate Reached(env: Env, ro: Roster, w: World, s: set<Group>, v: World) {
    && Built(ro, v) && Views.Wf(v.ns)
    && (forall g :: g in s ==> g in ro.groups && TeamSettled(env, ro, v, g))
    && (forall g :: g in ro.groups && g !in s ==> SamePoints(w.ns, v.ns, g.name))
    && forall r: Name :: Views.SameDir(v.ns, WithGrants(ro, w, s), r)
  }

  /** What is due after those rounds: exactly the teams that are not kept under their grants. */
  lemma DueThen(env: Env, ro: Roster, w: World, s: set<Group>, v: World, g: Group)
    requires Reached(env, ro, w, s, v) && g in ro.groups
    ensures Due(ro, v, g) <==> g !in s && !KeptUnder(ro, w, s, g)
  {
    if g in s {
      WantedDistinct(ro, g);
      Views.SettledObserved(v.ns, v.folders, g.name, Fits.WantedReaders(ro, g));
    } else {
      var again := WithGrants(ro, w, s);
      forall r: Name
        ensures Views.SameAt(v.ns, again, Views.Point(r, g.name)) && Views.SameDir(v.ns, again, r)
      {
        assert Views.SameAt(w.ns, v.ns, Views.Point(r, g.name));
      }
      Views.ObservedDepends(v.ns, again, v.folders, map[g.name := Dir(0, 0, g.gid)], g.name);
    }
  }

  /** A settled team's directories are granted, so they stay right, and its points stay. */
  lemma StillSettled(env: Env, ro: Roster, w: World, s: set<Group>, v: World, faults: Faults, g: Group)
    requires Clean(env, ro, v, faults) && env.host.viewsKnown && Reached(env, ro, w, s, v) && g in s
    ensures TeamSettled(env, ro, End(env, ro, v, faults), g)
  {
    var next, rs := End(env, ro, v, faults), Fits.WantedReaders(ro, g);
    DueThen(env, ro, w, s, v, g);
    EndBuilt(env, ro, v, faults);
    WantedDistinct(ro, g);
    forall r: Name ensures Views.SettledAt(next.ns, next.folders, g.name, rs, r) {
      PointsEnd(env, ro, v, faults, g, Views.Point(r, g.name));
      if r in DeclaredReaders(ro, g) { DirStays(env, ro, w, s, v, faults, g, r); }
      SettledSame(v.ns, next.ns, v.folders, next.folders, g.name, rs, r);
    }
  }

  /** A point stays settled if it, its reader's directory and the folder's gid stay. */
  lemma SettledSame(a: Views.Ns, b: Views.Ns, fa: map<Name, Dir>, fb: map<Name, Dir>, team: Name, rs: seq<Views.Reader>,
                    r: Name)
    requires Views.Settled(a, fa, team, rs) && team in fa && team in fb && fa[team].gid == fb[team].gid
    requires Views.SameAt(a, b, Views.Point(r, team)) && (r in Views.ReaderNames(rs) ==> Views.SameDir(a, b, r))
    ensures Views.SettledAt(b, fb, team, rs, r)
  {
    assert Views.SettledAt(a, fa, team, rs, r);
  }

  lemma DirStays(env: Env, ro: Roster, w: World, s: set<Group>, v: World, faults: Faults, g: Group, r: Name)
    requires Clean(env, ro, v, faults) && env.host.viewsKnown && Reached(env, ro, w, s, v)
    requires g in s && r in DeclaredReaders(ro, g)
    ensures Views.SameDir(v.ns, End(env, ro, v, faults).ns, r)
  {
    DirsEnd(env, ro, v, faults, r);
    GidTableExact(ro.groups, r);
    assert GrantedBy(ro, s, r);
    assert Views.SameDir(v.ns, WithGrants(ro, w, s), r);
  }

  /** Directories: one more round grants what the teams it sets are read by. */
  lemma GrantsAdd(env: Env, ro: Roster, w: World, s: set<Group>, v: World, faults: Faults, t: set<Group>, r: Name)
    requires Clean(env, ro, v, faults) && env.host.viewsKnown
    requires Views.SameDir(v.ns, WithGrants(ro, w, s), r)
    requires GrantedBy(ro, t, r) <==> GrantedBy(ro, s, r) || GrantedNow(ro, v, r)
    ensures Views.SameDir(End(env, ro, v, faults).ns, WithGrants(ro, w, t), r)
  {
    DirsEnd(env, ro, v, faults, r);
    GidTableExact(ro.groups, r);
    if GrantedNow(ro, v, r) {
      var g :| g in ro.groups && Due(ro, v, g) && r in DeclaredReaders(ro, g);
    } else if GrantedBy(ro, s, r) {
      var g :| g in s && r in DeclaredReaders(ro, g);
    }
  }

  lemma FirstRound(env: Env, ro: Roster, w: World, faults: Faults)
    requires Clean(env, ro, w, faults) && env.host.viewsKnown
    ensures Reached(env, ro, w, SetBy(ro, w, 1), End(env, ro, w, faults))
  {
    var s, v := SetBy(ro, w, 1), End(env, ro, w, faults);
    EndBuilt(env, ro, w, faults);
    forall g | g in s ensures TeamSettled(env, ro, v, g) { DueEnds(env, ro, w, faults, g); }
    forall g | g in ro.groups && g !in s ensures SamePoints(w.ns, v.ns, g.name) {
      forall r: Name ensures Views.SameAt(w.ns, v.ns, Views.Point(r, g.name)) {
        PointsEnd(env, ro, w, faults, g, Views.Point(r, g.name));
      }
    }
    forall r: Name ensures Views.SameDir(v.ns, WithGrants(ro, w, s), r) {
      assert Views.SameDir(w.ns, WithGrants(ro, w, {}), r);
      if g :| g in ro.groups && Due(ro, w, g) && r in DeclaredReaders(ro, g) { assert g in s; }
      GrantsAdd(env, ro, w, {}, w, faults, s, r);
    }
  }

  /** t adds to s the teams that are due. */
  ghost predicate Adds(ro: Roster, s: set<Group>, t: set<Group>, v: World) {
    && (forall g :: g in s ==> g in ro.groups) && (forall g :: g in t ==> g in ro.groups)
    && forall g :: g in ro.groups ==> (g in t <==> g in s || Due(ro, v, g))
  }

  lemma SetAdds(env: Env, ro: Roster, w: World, n: nat, v: World)
    requires n >= 1 && Reached(env, ro, w, SetBy(ro, w, n), v)
    ensures Adds(ro, SetBy(ro, w, n), SetBy(ro, w, n + 1), v)
  {
    var s := SetBy(ro, w, n);
    forall g | g in ro.groups ensures Due(ro, v, g) <==> g !in s && !KeptUnder(ro, w, s, g) {
      DueThen(env, ro, w, s, v, g);
    }
  }

  lemma NextSettled(env: Env, ro: Roster, w: World, s: set<Group>, t: set<Group>, v: World, faults: Faults, g: Group)
    requires Clean(env, ro, v, faults) && env.host.viewsKnown && Reached(env, ro, w, s, v) && Adds(ro, s, t, v)
             && g in t
    ensures TeamSettled(env, ro, End(env, ro, v, faults), g)
  {
    if Due(ro, v, g) { DueEnds(env, ro, v, faults, g); } else { StillSettled(env, ro, w, s, v, faults, g); }
  }

  lemma NextPoint(env: Env, ro: Roster, w: World, s: set<Group>, t: set<Group>, v: World, faults: Faults, g: Group,
                  r: Name)
    requires Clean(env, ro, v, faults) && env.host.viewsKnown && Reached(env, ro, w, s, v) && Adds(ro, s, t, v)
    requires g in ro.groups && g !in t
    ensures Views.SameAt(w.ns, End(env, ro, v, faults).ns, Views.Point(r, g.name))
  {
    var p := Views.Point(r, g.name);
    PointsEnd(env, ro, v, faults, g, p);
    assert SamePoints(w.ns, v.ns, g.name);
    SameTwice(w.ns, v.ns, End(env, ro, v, faults).ns, p);
  }

  lemma SameTwice(a: Views.Ns, b: Views.Ns, c: Views.Ns, p: Views.Point)
    requires Views.SameAt(a, b, p) && Views.SameAt(b, c, p)
    ensures Views.SameAt(a, c, p)
  {
  }

  lemma NextRound(env: Env, ro: Roster, w: World, s: set<Group>, t: set<Group>, v: World, faults: Faults)
    requires Clean(env, ro, v, faults) && env.host.viewsKnown && Reached(env, ro, w, s, v) && Adds(ro, s, t, v)
    ensures Reached(env, ro, w, t, End(env, ro, v, faults))
  {
    var next := End(env, ro, v, faults);
    EndBuilt(env, ro, v, faults);
    forall g | g in t ensures TeamSettled(env, ro, next, g) { NextSettled(env, ro, w, s, t, v, faults, g); }
    forall g | g in ro.groups && g !in t ensures SamePoints(w.ns, next.ns, g.name) {
      forall r: Name ensures Views.SameAt(w.ns, next.ns, Views.Point(r, g.name)) {
        NextPoint(env, ro, w, s, t, v, faults, g, r);
      }
    }
    forall r: Name ensures Views.SameDir(next.ns, WithGrants(ro, w, t), r) {
      GrantedThen(ro, s, t, v, r);
      GrantsAdd(env, ro, w, s, v, faults, t, r);
    }
  }

  lemma GrantedThen(ro: Roster, s: set<Group>, t: set<Group>, v: World, r: Name)
    requires Adds(ro, s, t, v)
    ensures GrantedBy(ro, t, r) <==> GrantedBy(ro, s, r) || GrantedNow(ro, v, r)
  {
    if g :| g in s && r in DeclaredReaders(ro, g) { assert g in t; }
    if g :| g in ro.groups && Due(ro, v, g) && r in DeclaredReaders(ro, g) { assert g in t; }
  }

  // --- any number of rounds ---

  lemma ReachStep(env: Env, ro: Roster, w: World, n: nat, v: World, faults: Faults)
    requires Clean(env, ro, v, faults) && env.host.viewsKnown && n >= 1 && Reached(env, ro, w, SetBy(ro, w, n), v)
    ensures Reached(env, ro, w, SetBy(ro, w, n + 1), End(env, ro, v, faults))
  {
    SetAdds(env, ro, w, n, v);
    NextRound(env, ro, w, SetBy(ro, w, n), SetBy(ro, w, n + 1), v, faults);
  }

  /** What is known of the host once n rounds have gone by. */
  ghost predicate Known(env: Env, ro: Roster, w: World, n: nat, v: World) {
    && (n == 0 ==> v == w) && (n >= 1 ==> Built(ro, v))
    && (PrimariesClear(ro, v) <==> PrimariesClear(ro, w))
    && (n >= 1 && env.host.viewsKnown ==> Reached(env, ro, w, SetBy(ro, w, n), v))
  }

  lemma KnownStep(env: Env, ro: Roster, w: World, n: nat, v: World, faults: Faults)
    requires Clean(env, ro, v, faults) && Known(env, ro, w, n, v)
    ensures Known(env, ro, w, n + 1, End(env, ro, v, faults))
  {
    EndBuilt(env, ro, v, faults);
    EndPrimaries(env, ro, v, faults);
    if env.host.viewsKnown {
      if n == 0 { FirstRound(env, ro, w, faults); } else { ReachStep(env, ro, w, n, v, faults); }
    }
  }

  /** What only a first round leaves behind: a limit on the uid of an account it makes. */
  ghost predicate LimitLeft(env: Env, ro: Roster, w: World) {
    exists u :: u in ro.users && QuotaResidue(env, ro, w, u)
  }

  /** A host is in sync after a round exactly if its live users' primary groups are clear, no limit was left
      behind, and nothing is due any more. */
  lemma SyncThen(env: Env, ro: Roster, v: World, faults: Faults)
    requires Clean(env, ro, v, faults)
    ensures InSync(env.host, env.cls, ro, End(env, ro, v, faults)) <==>
              && PrimariesClear(ro, v) && !LimitLeft(env, ro, v)
              && (env.host.viewsKnown ==> forall g :: g in ro.groups ==> !Due(ro, End(env, ro, v, faults), g))
  {
    var next := End(env, ro, v, faults);
    OneRound(env, ro, v, faults);
    EndBuilt(env, ro, v, faults);
    if env.host.viewsKnown {
      forall g | g in ro.groups ensures !Due(ro, next, g) <==> (!Due(ro, v, g) ==> ViewsKept(ro, v, g)) {
        ViewsEnd(env, ro, v, faults, g);
      }
    }
  }

  lemma DueNever(env: Env, ro: Roster, w: World, n: nat, v: World)
    requires n >= 1 && Reached(env, ro, w, SetBy(ro, w, n), v)
    ensures (forall g :: g in ro.groups ==> !Due(ro, v, g)) <==> Stable(ro, w, n)
  {
    var s := SetBy(ro, w, n);
    forall g | g in ro.groups ensures Due(ro, v, g) <==> g !in s && !KeptUnder(ro, w, s, g) {
      DueThen(env, ro, w, s, v, g);
    }
  }

  /** What the last round leaves: in sync exactly if nothing is due, the primary groups are clear and no
      limit was left. */
  ghost predicate Near(env: Env, ro: Roster, w: World, n: nat, v: World) {
    InSync(env.host, env.cls, ro, v) <==>
      && PrimariesClear(ro, w) && (n == 1 ==> !LimitLeft(env, ro, w))
      && (env.host.viewsKnown ==> forall g :: g in ro.groups ==> !Due(ro, v, g))
  }

  lemma NearStep(env: Env, ro: Roster, w: World, n: nat, v: World, faults: Faults)
    requires Clean(env, ro, v, faults) && (n == 0 ==> v == w) && (n >= 1 ==> Built(ro, v))
    requires PrimariesClear(ro, v) <==> PrimariesClear(ro, w)
    ensures Near(env, ro, w, n + 1, End(env, ro, v, faults))
  {
    SyncThen(env, ro, v, faults);
  }

  /** Being in sync after n rounds, in terms of the starting host: no live user's primary group is a declared
      group it is a member of, nothing more is due, and, after a single round, no limit was on the uid of an
      account yet to be made. */
  ghost predicate Enough(env: Env, ro: Roster, w: World, n: nat) {
    && PrimariesClear(ro, w) && (env.host.viewsKnown ==> Stable(ro, w, n))
    && (n == 1 ==> !LimitLeft(env, ro, w))
  }

  ghost predicate Sure(env: Env, ro: Roster, w: World, n: nat, v: World) {
    Known(env, ro, w, n, v) && (n >= 1 ==> Near(env, ro, w, n, v))
  }

  lemma Concluded(env: Env, ro: Roster, w: World, n: nat, v: World)
    requires n >= 1 && Sure(env, ro, w, n, v)
    ensures InSync(env.host, env.cls, ro, v) <==> Enough(env, ro, w, n)
  {
    if env.host.viewsKnown { DueNever(env, ro, w, n, v); }
  }

  lemma OneStep(env: Env, ro: Roster, w: World, n: nat, v: World, faults: Faults) returns (next: World)
    requires Clean(env, ro, v, faults) && Known(env, ro, w, n, v)
    ensures next == End(env, ro, v, faults) && Known(env, ro, w, n + 1, next) && Near(env, ro, w, n + 1, next)
  {
    next := End(env, ro, v, faults);
    KnownStep(env, ro, w, n, v, faults);
    NearStep(env, ro, w, n, v, faults);
  }

  lemma SureStep(env: Env, ro: Roster, w: World, n: nat, v: World, faults: Faults)
    requires Clean(env, ro, v, faults) && Sure(env, ro, w, n, v)
    ensures Sure(env, ro, w, n + 1, End(env, ro, v, faults))
  {
    var next := OneStep(env, ro, w, n, v, faults);
  }

  // Rounds as such: whatever makes one clean, whatever it ends in, whatever it keeps.

  type Cleanly = (World, Faults) -> bool

  type Ending = (World, Faults) -> World

  type Fact = (nat, World) -> bool

  ghost predicate Each(clean: Cleanly, end: Ending, v: World, fs: seq<Faults>)
    decreases |fs|
  {
    fs == [] || (clean(v, fs[0]) && Each(clean, end, end(v, fs[0]), fs[1..]))
  }

  ghost function Last(end: Ending, v: World, fs: seq<Faults>): World
    decreases |fs|
  {
    if fs == [] then v else Last(end, end(v, fs[0]), fs[1..])
  }

  ghost predicate Keeps(clean: Cleanly, end: Ending, p: Fact) {
    forall k: nat, x: World, f: Faults :: p(k, x) && clean(x, f) ==> p(k + 1, end(x, f))
  }

  /** What every round keeps holds after all of them. */
  lemma {:induction false} AllSteps(clean: Cleanly, end: Ending, p: Fact, n: nat, v: World, fs: seq<Faults>)
    requires Keeps(clean, end, p) && Each(clean, end, v, fs) && p(n, v)
    ensures p(n + |fs|, Last(end, v, fs))
    decreases |fs|
  {
    if fs != [] { AllSteps(clean, end, p, n + 1, end(v, fs[0]), fs[1..]); }
  }

  ghost function CleanOf(env: Env, ro: Roster): Cleanly { (v: World, f: Faults) => Clean(env, ro, v, f) }

  ghost function EndOf(env: Env, ro: Roster): Ending { (v: World, f: Faults) => End(env, ro, v, f) }

  lemma {:induction false} SameRounds(env: Env, ro: Roster, v: World, fs: seq<Faults>)
    ensures AllClean(env, ro, v, fs) <==> Each(CleanOf(env, ro), EndOf(env, ro), v, fs)
    ensures AfterRounds(env, ro, v, fs) == Last(EndOf(env, ro), v, fs)
    decreases |fs|
  {
    if fs != [] { SameRounds(env, ro, End(env, ro, v, fs[0]), fs[1..]); }
  }

  lemma SureAlways(env: Env, ro: Roster, w: World)
    ensures forall k: nat, x: World, f: Faults ::
              Sure(env, ro, w, k, x) && Clean(env, ro, x, f) ==> Sure(env, ro, w, k + 1, End(env, ro, x, f))
  {
    forall k: nat, x: World, f: Faults | Sure(env, ro, w, k, x) && Clean(env, ro, x, f)
      ensures Sure(env, ro, w, k + 1, End(env, ro, x, f))
    {
      SureStep(env, ro, w, k, x, f);
    }
  }

  lemma SureOver(env: Env, ro: Roster, w: World) returns (p: Fact)
    ensures forall k: nat, x: World, f: Faults :: p(k, x) && Clean(env, ro, x, f) ==> p(k + 1, End(env, ro, x, f))
    ensures p == ((n: nat, v: World) => Sure(env, ro, w, n, v))
  {
    p := (n: nat, v: World) => Sure(env, ro, w, n, v);
    SureAlways(env, ro, w);
  }

  lemma KeepsOver(env: Env, ro: Roster, p: Fact)
    requires forall k: nat, x: World, f: Faults :: p(k, x) && Clean(env, ro, x, f) ==> p(k + 1, End(env, ro, x, f))
    ensures Keeps(CleanOf(env, ro), EndOf(env, ro), p)
  {
  }

  lemma SureKept(env: Env, ro: Roster, w: World) returns (p: Fact)
    ensures Keeps(CleanOf(env, ro), EndOf(env, ro), p) && p(0, w)
    ensures p == ((n: nat, v: World) => Sure(env, ro, w, n, v))
  {
    p := SureOver(env, ro, w);
    KeepsOver(env, ro, p);
  }

  /** The same for whatever stands for clean rounds and their ends. */
  lemma SureLast(env: Env, ro: Roster, w: World, fs: seq<Faults>, clean: Cleanly, end: Ending, p: Fact, last: World)
    requires Keeps(clean, end, p) && Each(clean, end, w, fs) && p(0, w)
    requires last == Last(end, w, fs) && (p(|fs|, last) ==> Sure(env, ro, w, |fs|, last))
    ensures Sure(env, ro, w, |fs|, last)
  {
    AllSteps(clean, end, p, 0, w, fs);
  }

  /** After any number of clean rounds the host is in sync if and only if that many are enough, which is
      read off the starting host. */
  lemma Exactly(env: Env, ro: Roster, w: World, fs: seq<Faults>)
    requires AllClean(env, ro, w, fs) && fs != []
    ensures InSync(env.host, env.cls, ro, AfterRounds(env, ro, w, fs)) <==> Enough(env, ro, w, |fs|)
  {
    SameRounds(env, ro, w, fs);
    var p := SureKept(env, ro, w);
    SureLast(env, ro, w, fs, CleanOf(env, ro), EndOf(env, ro), p, AfterRounds(env, ro, w, fs));
    Concluded(env, ro, w, |fs|, AfterRounds(env, ro, w, fs));
  }

  // --- two rounds ---

  /** A team that is neither due nor put out of step by the first round stays in step through the grants of
      the second. */
  ghost predicate KeptTwice(ro: Roster, w: World, g: Group) {
    KeptUnder(ro, w, (set h | h in ro.groups && (Due(ro, w, h) || !ViewsKept(ro, w, h))), g)
  }

  lemma FirstGrants(ro: Roster, w: World, s: set<Group>)
    requires s == set g | g in ro.groups && Due(ro, w, g)
    ensures WithGrants(ro, w, s) == Regranted(ro, w)
  {
    forall r: Name ensures GrantedBy(ro, s, r) <==> GrantedNow(ro, w, r) {
      if g :| g in ro.groups && Due(ro, w, g) && r in DeclaredReaders(ro, g) { assert g in s; }
    }
  }

  lemma SecondSet(ro: Roster, w: World)
    ensures SetBy(ro, w, 2) == set h | h in ro.groups && (Due(ro, w, h) || !ViewsKept(ro, w, h))
  {
    var s := SetBy(ro, w, 1);
    FirstGrants(ro, w, s);
    forall g ensures KeptUnder(ro, w, s, g) <==> ViewsKept(ro, w, g) {
    }
  }

  /** Two clean rounds bring a host to its roster if and only if the primary groups are clear and every team
      that the first round neither sets nor puts out of step is kept through the second. */
  lemma ConvergesInTwo(env: Env, ro: Roster, w: World, first: Faults, second: Faults)
    requires AllClean(env, ro, w, [first, second])
    ensures InSync(env.host, env.cls, ro, AfterRounds(env, ro, w, [first, second])) <==>
              && PrimariesClear(ro, w)
              && (env.host.viewsKnown ==>
                    forall g :: g in ro.groups && !Due(ro, w, g) && ViewsKept(ro, w, g) ==> KeptTwice(ro, w, g))
  {
    Exactly(env, ro, w, [first, second]);
    SecondSet(ro, w);
  }

  /** In particular where every reader directory carries its declared gid. */
  lemma RightDirectories(env: Env, ro: Roster, w: World, first: Faults, second: Faults)
    requires AllClean(env, ro, w, [first, second]) && PrimariesClear(ro, w) && Stale(ro, w) == {}
    ensures InSync(env.host, env.cls, ro, AfterRounds(env, ro, w, [first, second]))
  {
    Rounds.Enough(env, ro, w, [first, second]);
  }
}
