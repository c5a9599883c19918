/** With one stale directory two clean rounds may be too few: a host that two do not bring in sync, though
    three always would.

    Teams a and b are read by r. The directory of r carries a stale gid, 7, and both teams' views show
    7, so both look right; but the folder of a has a wrong gid too. The first round corrects the folder,
    which spoils a's view; the second replaces it and corrects r's directory, which spoils b's. */
module Sharpness {
  import opened Common
  import opened Names
  import opened IdRange
  import opened Roster
  import opened System
  import opened Reconcile
  import opened Executor
  import opened Agreement
  import opened Runs
  import opened Phases
  import opened Achieved
  import opened ViewEnds
  import opened Convergence
  import opened Executable
  import Executability
  import Refusals
  import Rounds
  import Fits
  import Goals
  import ViewRounds
  import Views

  function Team(name: Name, gid: Id, readers: seq<Name>): Group {
    Group(name, gid, "", [], readers, AnonNone, [], All(false, ""), false, false)
  }

  const A := Team("a", 20001, ["r"])

  const B := Team("b", 20002, ["r"])

  const R := Team("r", 20003, [])

  /** The roster of the example, as far as its plans depend on it. */
  ghost predicate Setup(env: Env, ro: Roster) {
    && Ready(ro, env.cls) && Windows(env.cls)
    && env.host == Host(true, false, true) && env.deps == Deps(false, true)
    && ro.users == [] && (forall g :: g in ro.groups <==> g == A || g == B || g == R)
    && (forall g :: g in ro.groups ==> DeclaredReaders(ro, g) == if g == R then {} else {"r"})
  }

  /** The views and directories of the example. */
  ghost predicate StaleViews(ns: Views.Ns) {
    && (forall p: Views.Point :: p in ns.mounts <==> p == Views.Point("r", "a") || p == Views.Point("r", "b"))
    && (forall p: Views.Point :: p in ns.spots <==> p in ns.mounts)
    && (forall p :: p in ns.spots ==> ns.spots[p] == Views.Ours)
    && (forall r: Name :: r in ns.readers <==> r == "r") && ns.readers["r"] == 7
    && ns.mounts[Views.Point("r", "a")] == Views.View(9, 7) && ns.mounts[Views.Point("r", "b")] == Views.View(20002, 7)
  }

  ghost predicate Like(ro: Roster, w: World) {
    && (forall g :: g in ro.groups ==>
      g.name in w.groups && w.groups[g.name].gid == g.gid && w.groups[g.name].admins == [])
    && StaleViews(w.ns)
    && "b" in w.folders && w.folders["b"].gid == 20002
  }

  ghost predicate FolderOfA(w: World, gid: Id) {
    "a" in w.folders && w.folders["a"].gid == gid
  }

  /** Only r's views are wanted, at its declared gid. */
  lemma WantedOf(env: Env, ro: Roster, g: Group, r: Views.Reader)
    requires Setup(env, ro) && g in ro.groups && r in Fits.WantedReaders(ro, g)
    ensures r == Views.Reader("r", 20003) && g != R
  {
    ViewRounds.WantedDistinct(ro, g);
    assert r.name in Views.ReaderNames(Fits.WantedReaders(ro, g));
    WantedReader(ro, g, r);
  }

  /** With every group there and no users nothing is refused. */
  lemma NothingRefused(env: Env, ro: Roster, w: World)
    requires Setup(env, ro)
    requires forall g :: g in ro.groups ==> g.name in w.groups && w.groups[g.name].gid == g.gid
    ensures NoRefusal(PlanOf(env, ro, w))
  {
    Refusals.RefusalFree(env, ro, w);
  }

  lemma LikeReaders(env: Env, ro: Roster, w: World, g: Group)
    requires Setup(env, ro) && Like(ro, w) && g in ro.groups
    ensures ReadersPossible(env, ro, w, g)
  {
    forall r | r in Fits.WantedReaders(ro, g) ensures Views.PointClear(w.ns, g.name, g.gid, r) {
      WantedOf(env, ro, g, r);
    }
  }

  lemma LikeAble(env: Env, ro: Roster, w: World)
    requires Setup(env, ro) && Like(ro, w)
    ensures Able(env, ro, w)
  {
    forall g | g in ro.groups ensures ReadersPossible(env, ro, w, g) && OwnersExist(env, ro, w, g) {
      LikeReaders(env, ro, w, g);
    }
  }

  lemma LikeClean(env: Env, ro: Roster, w: World)
    requires Setup(env, ro) && Like(ro, w)
    ensures Clean(env, ro, w, NoFaults())
  {
    NothingRefused(env, ro, w);
    StaleWf(w.ns);
    LikeAble(env, ro, w);
    Executability.PlanExecutable(env, ro, w);
  }

  lemma StaleWf(ns: Views.Ns)
    requires StaleViews(ns)
    ensures Views.Wf(ns)
  {
  }

  /** A view that works is observed. */
  lemma Sees(ns: Views.Ns, folders: map<Name, Dir>, team: Name)
    requires StaleViews(ns) && Views.Working(ns, folders, Views.Point("r", team))
    ensures Views.Observed(ns, folders, team) == SortedNames({"r"})
  {
    Views.ObservedIs(ns, folders, team, {"r"});
  }

  lemma SeesNone(ns: Views.Ns, folders: map<Name, Dir>)
    requires StaleViews(ns)
    ensures Views.Observed(ns, folders, "r") == SortedNames({})
  {
    Views.ObservedIs(ns, folders, "r", {});
  }

  /** Where the view does not present the directory's gid, r is not observed. */
  lemma NotSeen(ns: Views.Ns, folders: map<Name, Dir>, team: Name)
    requires !Views.Working(ns, folders, Views.Point("r", team))
    ensures Views.Observed(ns, folders, team) != SortedNames({"r"})
  {
    if Views.Observed(ns, folders, team) == SortedNames({"r"}) {
      assert "r" in SetOf(Views.Observed(ns, folders, team));
      assert "r" in Views.ObservedSet(ns, folders, team);
    }
    forall x: Name ensures x + Views.LEFTOVER_TAG != "r" { assert |x + Views.LEFTOVER_TAG| >= 9; }
    forall p: Views.Point | p.reader == "r" && p.team == team ensures p == Views.Point("r", team) {}
  }

  // --- the first round ---

  lemma StartDueless(env: Env, ro: Roster, w: World, g: Group)
    requires Setup(env, ro) && Like(ro, w) && FolderOfA(w, 9) && g in ro.groups
    ensures !Due(ro, w, g)
  {
    if g == R {
      SeesNone(w.ns, w.folders);
    } else {
      Sees(w.ns, w.folders, g.name);
    }
  }

  /** Nothing is due, so the first round leaves every view and directory as it is. */
  lemma FirstViews(env: Env, ro: Roster, w: World, p: Views.Point, r: Name)
    requires Setup(env, ro) && Like(ro, w) && FolderOfA(w, 9)
    ensures var next := End(env, ro, w, NoFaults()); Views.SameAt(w.ns, next.ns, p) && Views.SameDir(w.ns, next.ns, r)
  {
    var acts := PlanOf(env, ro, w);
    LikeClean(env, ro, w);
    forall a | a in acts ensures a.kind != SetGroupReaders {
      if a.kind == SetGroupReaders {
        SetsDue(env, ro, w, a);
        var g :| g in ro.groups && Due(ro, w, g) && a == SetReaders(ro, g);
        StartDueless(env, ro, w, g);
      }
    }
    ViewRounds.Untouched(env, w, acts, NoFaults(), p, r);
  }

  lemma FirstGroup(env: Env, ro: Roster, w: World, g: Group)
    requires Setup(env, ro) && Like(ro, w) && g in ro.groups
    ensures var next := End(env, ro, w, NoFaults());
            && g.name in next.groups && next.groups[g.name].gid == g.gid && next.groups[g.name].admins == []
            && g.name in next.folders && next.folders[g.name].gid == g.gid
  {
    LikeClean(env, ro, w);
    FolderEnds(env, ro, w, NoFaults(), g);
    AdminsEnd(env, ro, w, NoFaults(), g);
    assert multiset(End(env, ro, w, NoFaults()).groups[g.name].admins) == multiset{};
  }

  lemma StaleStays(a: Views.Ns, b: Views.Ns)
    requires StaleViews(a)
    requires (forall p: Views.Point :: Views.SameAt(a, b, p)) && forall r: Name :: Views.SameDir(a, b, r)
    ensures StaleViews(b)
  {
    forall p: Views.Point
      ensures (p in b.mounts <==> p in a.mounts) && (p in b.spots <==> p in a.spots)
      ensures (p in b.mounts ==> b.mounts[p] == a.mounts[p]) && (p in b.spots ==> b.spots[p] == a.spots[p])
    {
      assert Views.SameAt(a, b, p);
    }
    forall r: Name ensures r in b.readers <==> r in a.readers { assert Views.SameDir(a, b, r); }
    assert Views.SameDir(a, b, "r");
  }

  lemma FirstStale(env: Env, ro: Roster, w: World)
    requires Setup(env, ro) && Like(ro, w) && FolderOfA(w, 9)
    ensures StaleViews(End(env, ro, w, NoFaults()).ns)
  {
    var ns := End(env, ro, w, NoFaults()).ns;
    forall p: Views.Point ensures Views.SameAt(w.ns, ns, p) { FirstViews(env, ro, w, p, ""); }
    forall r: Name ensures Views.SameDir(w.ns, ns, r) { FirstViews(env, ro, w, Views.Point("", ""), r); }
    StaleStays(w.ns, ns);
  }

  /** The first round corrects a's folder and nothing else that matters. */
  lemma First(env: Env, ro: Roster, w: World)
    requires Setup(env, ro) && Like(ro, w) && FolderOfA(w, 9)
    ensures var next := End(env, ro, w, NoFaults()); Like(ro, next) && FolderOfA(next, 20001)
  {
    FirstStale(env, ro, w);
    forall g | g in ro.groups
      ensures var next := End(env, ro, w, NoFaults());
              g.name in next.groups && next.groups[g.name].gid == g.gid && next.groups[g.name].admins == []
    {
      FirstGroup(env, ro, w, g);
    }
    FirstGroup(env, ro, w, A);
    FirstGroup(env, ro, w, B);
  }

  // --- the second round ---

  lemma SecondDue(env: Env, ro: Roster, w: World)
    requires Setup(env, ro) && Like(ro, w) && FolderOfA(w, 20001)
    ensures GrantedNow(ro, w, "r") && !Due(ro, w, B)
  {
    assert A in ro.groups && B in ro.groups;
    NotSeen(w.ns, w.folders, "a");
    assert Due(ro, w, A) && "r" in DeclaredReaders(ro, A);
    Sees(w.ns, w.folders, "b");
  }

  lemma Regiven(env: Env, ro: Roster, w: World)
    requires Setup(env, ro) && Like(ro, w) && GrantedNow(ro, w, "r")
    ensures "r" in Regranted(ro, w).readers && Regranted(ro, w).readers["r"] == 20003
  {
    assert R in ro.groups;
    GidTableExact(ro.groups, "r");
  }

  /** a is due, which grants r; b is not due, and is not kept. */
  lemma SecondResidue(env: Env, ro: Roster, w: World)
    requires Setup(env, ro) && Like(ro, w) && FolderOfA(w, 20001)
    ensures !NoResidue(env, ro, w)
  {
    SecondDue(env, ro, w);
    Regiven(env, ro, w);
    BSpoilt(ro, w);
    assert B in ro.groups && !ViewsKept(ro, w, B);
  }

  lemma BSpoilt(ro: Roster, w: World)
    requires StaleViews(w.ns) && B in ro.groups && DeclaredReaders(ro, B) == {"r"}
    requires "r" in Regranted(ro, w).readers && Regranted(ro, w).readers["r"] == 20003
    ensures !ViewsKept(ro, w, B)
  {
    NotSeen(Regranted(ro, w), map["b" := Dir(0, 0, 20002)], "b");
  }

  lemma OneStale(env: Env, ro: Roster, w: World)
    requires Setup(env, ro) && Like(ro, w)
    ensures Rounds.Stale(ro, w) == {"r"} && Rounds.PrimariesClear(ro, w)
  {
    assert R in ro.groups;
    GidTableExact(ro.groups, "r");
  }

  /** One stale directory and no primary group in the way: two clean rounds are not enough. */
  lemma TwoRoundsTooFew(env: Env, ro: Roster, w: World)
    requires Setup(env, ro) && Like(ro, w) && FolderOfA(w, 9)
    ensures |Rounds.Stale(ro, w)| == 1 && Rounds.PrimariesClear(ro, w)
    ensures var fs := [NoFaults(), NoFaults()];
            Rounds.AllClean(env, ro, w, fs) && !InSync(env.host, env.cls, ro, Rounds.AfterRounds(env, ro, w, fs))
  {
    var fs, next := [NoFaults(), NoFaults()], End(env, ro, w, NoFaults());
    OneStale(env, ro, w);
    LikeClean(env, ro, w);
    First(env, ro, w);
    LikeClean(env, ro, next);
    SecondResidue(env, ro, next);
    OneRound(env, ro, next, NoFaults());
    TwoRounds(env, ro, w);
  }

  lemma TwoRounds(env: Env, ro: Roster, w: World)
    ensures var fs, next := [NoFaults(), NoFaults()], End(env, ro, w, NoFaults());
            && Rounds.AfterRounds(env, ro, w, fs) == End(env, ro, next, NoFaults())
            && (Rounds.AllClean(env, ro, w, fs) <==> Clean(env, ro, w, NoFaults()) && Clean(env, ro, next, NoFaults()))
  {
    var fs, next := [NoFaults(), NoFaults()], End(env, ro, w, NoFaults());
    assert fs[1..] == [NoFaults()] && fs[1..][1..] == [];
    assert Rounds.AfterRounds(env, ro, next, fs[1..])
           == Rounds.AfterRounds(env, ro, End(env, ro, next, NoFaults()), []);
    assert Rounds.AllClean(env, ro, End(env, ro, next, NoFaults()), []);
  }

  // --- such a host exists ---

  const CLS := Classifier(1000, IdSet(Range(10000, 19999), []), IdSet(Range(20000, 29999), []))

  const ENV := Env(Host(true, false, true), Deps(false, true), CLS)

  const RO := Roster({}, [A, B, R], [])

  const START := World(
    map[],
    map["a" := GroupEntry(20001, {}, []), "b" := GroupEntry(20002, {}, []), "r" := GroupEntry(20003, {}, [])],
    map[], map[],
    map["a" := Dir(1528, 0, 9), "b" := Dir(1528, 0, 20002), "r" := Dir(1528, 0, 20003)],
    map[],
    Views.Ns(
      map["r" := 7],
      map[Views.Point("r", "a") := Views.Ours, Views.Point("r", "b") := Views.Ours],
      map[Views.Point("r", "a") := Views.View(9, 7), Views.Point("r", "b") := Views.View(20002, 7)]))

  lemma RosterOf(g: Group)
    ensures g in RO.groups <==> g == A || g == B || g == R
  {
    var gs := RO.groups;
    assert gs == [A, B, R] && gs[0] == A && gs[1] == B && gs[2] == R;
  }

  lemma RosterReaders(g: Group)
    requires g in RO.groups
    ensures DeclaredReaders(RO, g) == if g == R then {} else {"r"}
  {
    RosterOf(g);
    forall n ensures n in DeclaredReaders(RO, g) <==> n == "r" && g != R {
      if n == "r" && g != R {
        RosterOf(R);
        assert R in RO.groups && Reads(RO.groups, "r", g);
      }
    }
  }

  lemma RosterReady()
    ensures Ready(RO, CLS) && Windows(CLS)
  {
    var gs := RO.groups;
    assert gs == [A, B, R] && GroupKey(A) == "a" && GroupKey(B) == "b" && GroupKey(R) == "r";
  }

  lemma Exists()
    ensures Setup(ENV, RO) && Like(RO, START) && FolderOfA(START, 9)
  {
    RosterReady();
    forall g ensures g in RO.groups <==> g == A || g == B || g == R { RosterOf(g); }
    forall g | g in RO.groups ensures DeclaredReaders(RO, g) == if g == R then {} else {"r"} { RosterReaders(g); }
  }
}
