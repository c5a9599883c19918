/** The reader views at the end of a clean run. */
module ViewEnds {
  import opened Common
  import opened Names
  import opened IdRange
  import opened Roster
  import opened System
  import opened Reconcile
  import opened Executor
  import opened Agreement
  import opened Runs
  import opened Phases
  import opened Achieved
  import opened ViewRounds
  import Fits
  import Goals
  import Views

  // --- which teams a round sets, and which directories it grants ---

  /** The views of g, as observed, are not its declared readers. A group yet to be made has none. */
  ghost predicate Due(ro: Roster, base: World, g: Group) {
    if g.name in base.groups
    then Views.Observed(base.ns, base.folders, g.name) != SortedNames(DeclaredReaders(ro, g))
    else DeclaredReaders(ro, g) != {}
  }

  ghost predicate GrantedNow(ro: Roster, base: World, r: Name) {
    exists g :: g in ro.groups && Due(ro, base, g) && r in DeclaredReaders(ro, g)
  }

  ghost function SetReaders(ro: Roster, g: Group): Action {
    Action(SetGroupReaders, g.name, g.gid, readers := Fits.WantedReaders(ro, g))
  }

  lemma ReaderCases(env: Env, ro: Roster, base: World, g: Group)
    requires env.cls.Gid(g.gid) == Managed && env.host.viewsKnown
    requires g.name in base.groups ==> base.groups[g.name].gid == g.gid
    ensures var acts := ReadersFor(ro, Collect(env.host, base, env.cls), env.cls)(g);
            acts == if Due(ro, base, g) then [SetReaders(ro, g)] else []
  {
    var st := Collect(env.host, base, env.cls);
    WantReadersExact(ro, g);
    var want := Fits.WantedReaders(ro, g);
    assert |NamesOf(want)| == |want|;
    SortedEmpty(DeclaredReaders(ro, g));
    if g.name in base.groups {
      assert st.groups[g.name] == CollectGroup(env.host, base, g.name);
    }
  }

  lemma ReaderOnly(ro: Roster, st: State, cls: Classifier, a: Action)
    requires a in Plan(ro, st, cls) && a.kind == SetGroupReaders
    ensures a in ReaderPart(ro, st, cls)
  {
    Parts(ro, st, cls, a);
    if a in FolderPart(ro, st, cls) {
      FolderPlanned(ro, st, cls, a);
      var g :| g in ro.groups && a in GroupActions(st, cls)(g);
      GroupKinds(st, cls, g, a);
    } else if a in UserPart(ro, st, cls) {
      UserPlanned(ro, st, cls, a);
      var u :| u in ro.users && a in ActionsFor(ro, st, cls)(u);
      UserKinds(ro, st, cls, u, a);
    } else if a in OrphanGroupPart(ro, st, cls) {
      GroupsOnlyNoticed(ro, st, cls, a);
    } else {
      LateReaders(ro, st, cls, a);
    }
  }

  lemma LateReaders(ro: Roster, st: State, cls: Classifier, a: Action)
    requires a.kind == SetGroupReaders
    ensures a !in OwnerPart(ro, st, cls) && a !in OrphanUserPart(ro, st, cls)
  {
    OwnerPlanned(ro, st, cls, a);
    OrphanPlanned(ro, st, cls, a);
    forall g, n
      ensures a in OwnerActions(st, cls)(g) ==> a.kind == SetGroupAdmins
      ensures a in OrphansFor(ro, st, cls)(n) ==> a.kind != SetGroupReaders
    {
      Kinds(ro, st, cls, g, n, a);
    }
  }

  /** The plan sets exactly the teams that are due, each to its declared readers. */
  lemma SetsDue(env: Env, ro: Roster, base: World, a: Action)
    requires Ready(ro, env.cls) && NoRefusal(PlanOf(env, ro, base)) && env.host.viewsKnown
    requires a in PlanOf(env, ro, base) && a.kind == SetGroupReaders
    ensures exists g :: g in ro.groups && Due(ro, base, g) && a == SetReaders(ro, g)
  {
    var st := Collect(env.host, base, env.cls);
    ReaderOnly(ro, st, env.cls, a);
    ReaderPlanned(ro, st, env.cls, a);
    var g :| g in ro.groups && a in ReadersFor(ro, st, env.cls)(g);
    GroupClear(env, ro, base, g);
    DueOne(env, ro, base, g, a);
  }

  lemma DueOne(env: Env, ro: Roster, base: World, g: Group, a: Action)
    requires env.cls.Gid(g.gid) == Managed && env.host.viewsKnown
    requires g.name in base.groups ==> base.groups[g.name].gid == g.gid
    requires a in ReadersFor(ro, Collect(env.host, base, env.cls), env.cls)(g)
    ensures Due(ro, base, g) && a == SetReaders(ro, g)
  {
    ReaderCases(env, ro, base, g);
  }

  lemma DueSets(env: Env, ro: Roster, base: World, g: Group)
    requires Ready(ro, env.cls) && NoRefusal(PlanOf(env, ro, base)) && env.host.viewsKnown
    requires g in ro.groups && Due(ro, base, g)
    ensures SetReaders(ro, g) in PlanOf(env, ro, base)
  {
    var st := Collect(env.host, base, env.cls);
    GroupClear(env, ro, base, g);
    ReaderCases(env, ro, base, g);
    var a := SetReaders(ro, g);
    assert a in ReadersFor(ro, st, env.cls)(g);
    ReaderPlanned(ro, st, env.cls, a);
    Parts(ro, st, env.cls, a);
  }

  /** The directories granted by the plan are those of the due teams' declared readers. */
  lemma GrantsNow(env: Env, ro: Roster, base: World, a: Action, r: Name)
    requires Ready(ro, env.cls) && NoRefusal(PlanOf(env, ro, base)) && env.host.viewsKnown
    requires a in PlanOf(env, ro, base) && Grants(a, r)
    ensures GrantedNow(ro, base, r)
  {
    SetsDue(env, ro, base, a);
    var g :| g in ro.groups && Due(ro, base, g) && a == SetReaders(ro, g);
    WantedDistinct(ro, g);
  }

  // --- teams that are due end settled ---

  lemma {:induction false} SettledFrom(env: Env, ro: Roster, base: World, acts: seq<Action>, faults: nat -> set<nat>,
                                       i: nat, n: nat, g: Group)
    requires Ready(ro, env.cls) && AllFit(env, ro, base, acts) && Granting(ro, acts) && i <= n <= |acts|
             && g in ro.groups
    requires Views.Wf(base.ns) && Apply(env, base, acts, faults).ok
    requires forall j :: i <= j < n ==> acts[j].kind != CreateGroup
    requires TeamSettled(env, ro, Before(env, base, acts, faults, i), g)
    ensures TeamSettled(env, ro, Before(env, base, acts, faults, n), g)
    decreases n - i
  {
    if i < n {
      SettledNext(env, ro, base, acts, faults, i, g);
      SettledFrom(env, ro, base, acts, faults, i + 1, n, g);
    }
  }

  lemma SettledNext(env: Env, ro: Roster, base: World, acts: seq<Action>, faults: nat -> set<nat>, i: nat, g: Group)
    requires Ready(ro, env.cls) && AllFit(env, ro, base, acts) && Granting(ro, acts) && i < |acts| && g in ro.groups
    requires Views.Wf(base.ns) && Apply(env, base, acts, faults).ok && acts[i].kind != CreateGroup
    requires TeamSettled(env, ro, Before(env, base, acts, faults, i), g) || Sets(acts[i], g.name)
    ensures TeamSettled(env, ro, Before(env, base, acts, faults, i + 1), g)
  {
    var w, a := Before(env, base, acts, faults, i), acts[i];
    assert a in acts;
    ApplyStep(env, base, acts, faults, i);
    assert acts[..|acts|] == acts;
    StepOk(env, base, acts, faults, i, |acts|);
    WfBefore(env, base, acts, faults, i);
    if Sets(a, g.name) {
      SetsSettles(env, ro, base, w, a, faults(i), g);
    } else {
      SettledStep(env, ro, w, acts, a, faults(i), g);
    }
  }

  /** No group or folder is made once the reader views are being set. */
  lemma ViewsAfterFolders(ro: Roster, st: State, cls: Classifier, i: nat, j: nat)
    requires i <= j < |Plan(ro, st, cls)| && Plan(ro, st, cls)[i].kind == SetGroupReaders
    ensures Plan(ro, st, cls)[j].kind != CreateGroup
  {
    if i < |FolderPart(ro, st, cls)| { FolderKinds(ro, st, cls, i); }
    if j >= |FolderPart(ro, st, cls)| { NoLateGroups(ro, st, cls, j); }
  }

  lemma SetEnds(env: Env, ro: Roster, base: World, acts: seq<Action>, faults: nat -> set<nat>, i: nat, g: Group)
    requires Ready(ro, env.cls) && AllFit(env, ro, base, acts) && i < |acts| && g in ro.groups
    requires Views.Wf(base.ns) && Apply(env, base, acts, faults).ok
    requires Sets(acts[i], g.name)
    requires forall j :: i <= j < |acts| ==> acts[j].kind != CreateGroup
    ensures TeamSettled(env, ro, Apply(env, base, acts, faults).w, g)
  {
    GrantingFits(env, ro, base, acts);
    SettledNext(env, ro, base, acts, faults, i, g);
    SettledFrom(env, ro, base, acts, faults, i + 1, |acts|, g);
    assert acts[..|acts|] == acts;
  }

  lemma DueEnds(env: Env, ro: Roster, base: World, faults: nat -> set<nat>, g: Group)
    requires Clean(env, ro, base, faults) && env.host.viewsKnown && g in ro.groups && Due(ro, base, g)
    ensures TeamSettled(env, ro, End(env, ro, base, faults), g)
  {
    var acts := PlanOf(env, ro, base);
    DueSets(env, ro, base, g);
    var i :| 0 <= i < |acts| && acts[i] == SetReaders(ro, g);
    PlanAllFits(env, ro, base);
    forall j | i <= j < |acts| ensures acts[j].kind != CreateGroup {
      ViewsAfterFolders(ro, Collect(env.host, base, env.cls), env.cls, i, j);
    }
    SetEnds(env, ro, base, acts, faults, i, g);
  }

  lemma DueObserved(env: Env, ro: Roster, base: World, faults: nat -> set<nat>, g: Group)
    requires Clean(env, ro, base, faults) && env.host.viewsKnown && g in ro.groups && Due(ro, base, g)
    ensures ViewsInSync(env.host, ro, End(env, ro, base, faults), g)
  {
    var w := End(env, ro, base, faults);
    DueEnds(env, ro, base, faults, g);
    WantedDistinct(ro, g);
    Views.SettledObserved(w.ns, w.folders, g.name, Fits.WantedReaders(ro, g));
  }

  // --- the other teams are re-observed ---

  /** The views as they were, with the directories a round grants at their declared gids. */
  ghost function Regranted(ro: Roster, base: World): Views.Ns {
    var gidOf := GidTable(ro.groups);
    base.ns.(readers :=
      map r | r in base.ns.readers.Keys + gidOf.Keys && (r in base.ns.readers || GrantedNow(ro, base, r)) ::
        if r in gidOf && GrantedNow(ro, base, r) then gidOf[r]
        else if r in base.ns.readers then base.ns.readers[r] else 0)
  }

  /** A team that is not due keeps its declared readers when the round's grants and its own folder's
      gid are taken into account. */
  ghost predicate ViewsKept(ro: Roster, base: World, g: Group) {
    Views.Observed(Regranted(ro, base), map[g.name := Dir(0, 0, g.gid)], g.name) == SortedNames(DeclaredReaders(ro, g))
  }

  lemma DueGranted(env: Env, ro: Roster, base: World, faults: nat -> set<nat>, h: Group)
    requires Clean(env, ro, base, faults) && env.host.viewsKnown
    requires h in ro.groups && GrantedNow(ro, base, h.name)
    ensures var ns := End(env, ro, base, faults).ns; h.name in ns.readers && ns.readers[h.name] == h.gid
  {
    var g :| g in ro.groups && Due(ro, base, g) && h.name in DeclaredReaders(ro, g);
    var w, rs := End(env, ro, base, faults), Fits.WantedReaders(ro, g);
    DueEnds(env, ro, base, faults, g);
    WantedDistinct(ro, g);
    assert Views.SettledAt(w.ns, w.folders, g.name, rs, h.name);
    var r :| r in rs && r.name == h.name && w.ns.readers[h.name] == r.gid;
    WantedReader(ro, g, r);
    var k :| k in ro.groups && k.name == r.name && k.gid == r.gid;
    Goals.SameGroup(ro, env.cls, h, k);
  }

  lemma DirsEnd(env: Env, ro: Roster, base: World, faults: nat -> set<nat>, r: Name)
    requires Clean(env, ro, base, faults) && env.host.viewsKnown
    ensures Views.SameDir(End(env, ro, base, faults).ns, Regranted(ro, base), r)
  {
    GidTableExact(ro.groups, r);
    if GrantedNow(ro, base, r) {
      var g :| g in ro.groups && Due(ro, base, g) && r in DeclaredReaders(ro, g);
      var h :| h in ro.groups && h.name == r && h.gid == GidTable(ro.groups)[r];
      DueGranted(env, ro, base, faults, h);
    } else {
      DirsKept(env, ro, base, faults, r);
    }
  }

  lemma DirsKept(env: Env, ro: Roster, base: World, faults: nat -> set<nat>, r: Name)
    requires Clean(env, ro, base, faults) && env.host.viewsKnown && !GrantedNow(ro, base, r)
    ensures Views.SameDir(base.ns, End(env, ro, base, faults).ns, r)
  {
    var acts := PlanOf(env, ro, base);
    forall a | a in acts ensures !Grants(a, r) {
      if Grants(a, r) { GrantsNow(env, ro, base, a, r); }
    }
    Untouched(env, base, acts, faults, Views.Point(r, r), r);
  }

  lemma NotSet(env: Env, ro: Roster, base: World, g: Group, a: Action)
    requires Ready(ro, env.cls) && NoRefusal(PlanOf(env, ro, base)) && env.host.viewsKnown
    requires g in ro.groups && !Due(ro, base, g) && a in PlanOf(env, ro, base)
    ensures !Sets(a, g.name)
  {
    if Sets(a, g.name) {
      SetsDue(env, ro, base, a);
      var h :| h in ro.groups && Due(ro, base, h) && a == SetReaders(ro, h);
      Goals.SameGroup(ro, env.cls, g, h);
    }
  }

  lemma PointsEnd(env: Env, ro: Roster, base: World, faults: nat -> set<nat>, g: Group, p: Views.Point)
    requires Clean(env, ro, base, faults) && env.host.viewsKnown
    requires g in ro.groups && !Due(ro, base, g) && p.team == g.name
    ensures Views.SameAt(base.ns, End(env, ro, base, faults).ns, p)
  {
    var acts := PlanOf(env, ro, base);
    forall a | a in acts ensures !Sets(a, p.team) { NotSet(env, ro, base, g, a); }
    Untouched(env, base, acts, faults, p, p.team);
  }

  /** A team that was not due is in sync afterwards exactly when its views are kept. */
  lemma NotDueObserved(env: Env, ro: Roster, base: World, faults: nat -> set<nat>, g: Group)
    requires Clean(env, ro, base, faults) && env.host.viewsKnown && g in ro.groups && !Due(ro, base, g)
    ensures ViewsInSync(env.host, ro, End(env, ro, base, faults), g) <==> ViewsKept(ro, base, g)
  {
    var w, again := End(env, ro, base, faults), Regranted(ro, base);
    forall r: Name
      ensures Views.SameAt(w.ns, again, Views.Point(r, g.name)) && Views.SameDir(w.ns, again, r)
    {
      PointsEnd(env, ro, base, faults, g, Views.Point(r, g.name));
      DirsEnd(env, ro, base, faults, r);
    }
    FolderEnds(env, ro, base, faults, g);
    Views.ObservedDepends(w.ns, again, w.folders, map[g.name := Dir(0, 0, g.gid)], g.name);
  }

  /** A host that cannot show its mounts is only converged for rosters without readers. */
  lemma NoViews(env: Env, ro: Roster, base: World, faults: nat -> set<nat>, g: Group)
    requires Clean(env, ro, base, faults) && !env.host.viewsKnown && g in ro.groups
    ensures DeclaredReaders(ro, g) == {}
  {
    WantedDistinct(ro, g);
    if Fits.WantedReaders(ro, g) != [] {
      UnknownAction(ro, Collect(env.host, base, env.cls), env.cls, g);
      NoneUnable(env, base, PlanOf(env, ro, base), faults, SetReaders(ro, g));
    }
  }

  lemma NoneUnable(env: Env, base: World, acts: seq<Action>, faults: nat -> set<nat>, a: Action)
    requires a in acts && a.kind == SetGroupReaders && !env.host.viewsKnown
    ensures !Apply(env, base, acts, faults).ok
  {
    var i :| 0 <= i < |acts| && acts[i] == a;
    if Apply(env, base, acts, faults).ok {
      assert acts[..|acts|] == acts;
      StepOk(env, base, acts, faults, i, |acts|);
    }
  }

  lemma UnknownAction(ro: Roster, st: State, cls: Classifier, g: Group)
    requires g in ro.groups && cls.Gid(g.gid) == Managed && Fits.WantedReaders(ro, g) != []
    requires forall n :: n in st.groups ==> !st.groups[n].readerViewsKnown
    ensures SetReaders(ro, g) in Plan(ro, st, cls)
  {
    var a := SetReaders(ro, g);
    assert a in ReadersFor(ro, st, cls)(g);
    ReaderPlanned(ro, st, cls, a);
    Parts(ro, st, cls, a);
  }

}
