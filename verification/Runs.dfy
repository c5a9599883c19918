/** From calls to scripts to whole runs: a successful run reaches every goal some action is after,
    and loses none it started with. */
module Runs {
  import opened Common
  import opened Names
  import opened IdRange
  import opened Roster
  import opened System
  import opened Reconcile
  import opened Executor
  import opened Agreement
  import opened Goals
  import Fits
  import Views

  // --- every call of a planned action carries the roster's values ---

  lemma WantedReader(ro: Roster, g: Group, r: Views.Reader)
    requires r in Fits.WantedReaders(ro, g)
    ensures exists h :: h in ro.groups && h.name == r.name && h.gid == r.gid
  {
    var gs := SortBy(GroupKey, ro.groups);
    SortByMembers(GroupKey, ro.groups);
    var gidOf, names := GidTable(gs), GroupReaders(ro.groups, g);
    var known := SortedNames(set n | n in names && n in gidOf);
    assert forall n :: n in known ==> n in SetOf(known);
    PairUpMember(known, gidOf, r);
    GidTableExact(gs, r.name);
  }

  lemma ViewCallsFit(env: Env, ro: Roster, base: World, w: World, g: Group, a: Action, c: Call)
    requires a.readers == Fits.WantedReaders(ro, g)
    requires c in ViewCalls(Views.Plan(w.ns, w.folders, a.name, a.id, a.readers))
    ensures CallFits(env, ro, base, c)
  {
    assert c.view in Views.Plan(w.ns, w.folders, a.name, a.id, a.readers);
    Views.PlanTouches(w.ns, w.folders, a.name, a.id, a.readers, c.view);
    if c.view.ChgrpReader? {
      WantedReader(ro, g, Views.Reader(c.view.name, c.view.gid));
    }
  }

  lemma GroupScriptFits(env: Env, ro: Roster, base: World, w: World, a: Action, c: Call)
    requires a.kind in {CreateGroup, SetGroupAdmins, SetGroupReaders}
    requires Fits.ActFits(env, ro, base, a) && c in Script(env, w, a)
    ensures CallFits(env, ro, base, c)
  {
    if a.kind == SetGroupReaders {
      var g :| g in ro.groups && Fits.ForGroup(g, a) && a.readers == Fits.WantedReaders(ro, g);
      if env.host.viewsKnown { ViewCallsFit(env, ro, base, w, g, a, c); }
    } else {
      var g :| g in ro.groups && Fits.GroupFits(env, base, g, a);
      SortByMultiset(Self, a.groups);
    }
  }

  lemma CreateScriptFits(env: Env, ro: Roster, base: World, w: World, u: User, a: Action, c: Call)
    requires Ready(ro, env.cls)
    requires a.kind in {CreateUser, CreateUserDisabled}
    requires u in ro.users && Fits.UserFits(env, ro, base, u, a) && c in Script(env, w, a)
    ensures CallFits(env, ro, base, c)
  {
    assert Live(env, base, u, a.name);
    if c == OnSmb(SmbDisable(a.name)) {
      forall v | v in ro.users && v.name == a.name ensures v == u { SameUser(ro, env.cls, u, v); }
    }
  }

  lemma AccountScriptFits(env: Env, ro: Roster, base: World, w: World, a: Action, c: Call)
    requires Ready(ro, env.cls)
    requires Fits.ActFits(env, ro, base, a) && c in Script(env, w, a)
    requires a.kind !in {CreateGroup, SetGroupAdmins, SetGroupReaders}
    ensures CallFits(env, ro, base, c)
  {
    if !Fits.OrphanFits(env, ro, base, a) {
      var u :| u in ro.users && Fits.UserFits(env, ro, base, u, a);
      if a.kind in {CreateUser, CreateUserDisabled} {
        CreateScriptFits(env, ro, base, w, u, a, c);
      } else if a.kind in {SetUserQuota, ClearUserQuota} {
        assert LimitedTo(u, a.id, u.quota);
      } else {
        assert u.status != Reserved ==> Live(env, base, u, a.name);
        forall v | v in ro.users && v.name == a.name ensures v == u { SameUser(ro, env.cls, u, v); }
      }
    }
  }

  lemma ScriptFits(env: Env, ro: Roster, base: World, w: World, a: Action)
    requires Ready(ro, env.cls) && Fits.ActFits(env, ro, base, a)
    ensures forall c :: c in Script(env, w, a) ==> CallFits(env, ro, base, c)
  {
    forall c | c in Script(env, w, a) ensures CallFits(env, ro, base, c) {
      if a.kind in {CreateGroup, SetGroupAdmins, SetGroupReaders} {
        GroupScriptFits(env, ro, base, w, a, c);
      } else {
        AccountScriptFits(env, ro, base, w, a, c);
      }
    }
  }

  // --- goals through a run of calls ---

  ghost predicate Inv(env: Env, ro: Roster, base: World, w: World) {
    Grows(base, w) && Born(env, ro, base, w)
  }

  ghost predicate FolderPhase(c: Call) {
    c.OnFolders? || (c.OnGroups? && c.group.EnsureGroup?)
  }

  /** Either the declared groups are all there, or only groups and folders are being made. */
  ghost predicate Phase(ro: Roster, w: World, cs: seq<Call>) {
    AllGroups(ro, w) || (GidsRight(ro, w) && forall c :: c in cs ==> FolderPhase(c))
  }

  lemma GroupGoalStep(env: Env, ro: Roster, base: World, w: World, c: Call, goal: Goal)
    requires Ready(ro, env.cls) && CallFits(env, ro, base, c) && Exec(w, c).Some?
    requires Phase(ro, w, [c])
    requires (goal.Entry? || goal.AdminsAre? || goal.FolderGid? || goal.FolderMode?) && About(env, ro, base, goal)
    requires Holds(env, ro, w, goal) || Makes(env, c, goal)
    ensures Holds(env, ro, Exec(w, c).value, goal)
  {
    match goal
    case Entry(_) => EntryStep(env, ro, w, c, goal);
    case AdminsAre(_) => AdminsStep(env, ro, base, w, c, goal);
    case _ => FolderStep(env, ro, base, w, c, goal);
  }

  lemma JoinedStep(env: Env, ro: Roster, base: World, w: World, c: Call, goal: Goal)
    requires Ready(ro, env.cls) && Windows(env.cls) && CallFits(env, ro, base, c) && Exec(w, c).Some?
    requires Inv(env, ro, base, w) && Phase(ro, w, [c])
    requires goal.Joined? && About(env, ro, base, goal)
    requires Holds(env, ro, w, goal) || Makes(env, c, goal)
    ensures Holds(env, ro, Exec(w, c).value, goal)
  {
    assert c in [c];
    if Makes(env, c, goal) {
      JoinedMade(env, ro, base, w, c, goal.u);
    } else {
      JoinedKept(env, ro, w, c, goal.u);
    }
  }

  lemma CallStep(env: Env, ro: Roster, base: World, w: World, c: Call, goal: Goal)
    requires Ready(ro, env.cls) && Windows(env.cls) && CallFits(env, ro, base, c) && Exec(w, c).Some?
    requires Inv(env, ro, base, w) && Phase(ro, w, [c])
    requires About(env, ro, base, goal) && !Undoes(c, goal)
    requires Holds(env, ro, w, goal) || Makes(env, c, goal)
    ensures Holds(env, ro, Exec(w, c).value, goal)
  {
    match goal
    case Entry(_) => GroupGoalStep(env, ro, base, w, c, goal);
    case AdminsAre(_) => GroupGoalStep(env, ro, base, w, c, goal);
    case FolderGid(_) => GroupGoalStep(env, ro, base, w, c, goal);
    case FolderMode(_) => GroupGoalStep(env, ro, base, w, c, goal);
    case Account(_) => AccountStep(env, ro, base, w, c, goal);
    case Absent(_) => AccountStep(env, ro, base, w, c, goal);
    case Locked(_) => LockedStep(env, ro, w, c, goal);
    case HomeOwned(_) => HomeStep(env, ro, base, w, c, goal);
    case HomeMode(_) => HomeStep(env, ro, base, w, c, goal);
    case SmbIs(_, _) => SmbStep(env, ro, base, w, c, goal);
    case Limit(_) => LimitStep(env, ro, base, w, c, goal);
    case Joined(_) => JoinedStep(env, ro, base, w, c, goal);
  }

  lemma GidsRightStep(env: Env, ro: Roster, base: World, w: World, c: Call)
    requires Ready(ro, env.cls) && CallFits(env, ro, base, c) && Exec(w, c).Some?
    requires GidsRight(ro, w) && FolderPhase(c)
    ensures GidsRight(ro, Exec(w, c).value)
  {
    if c.OnGroups? {
      var h :| h in ro.groups && h.name == c.group.name && h.gid == c.group.gid;
      forall g | g in ro.groups && g.name == h.name ensures g == h { SameGroup(ro, env.cls, g, h); }
    }
  }

  lemma InvStep(env: Env, ro: Roster, base: World, w: World, c: Call)
    requires Ready(ro, env.cls) && CallFits(env, ro, base, c) && Exec(w, c).Some?
    requires Inv(env, ro, base, w)
    ensures Inv(env, ro, base, Exec(w, c).value)
    ensures AllGroups(ro, w) ==> AllGroups(ro, Exec(w, c).value)
    ensures GidsRight(ro, w) && FolderPhase(c) ==> GidsRight(ro, Exec(w, c).value)
  {
    ExecGrows(w, c);
    BornStep(env, ro, base, w, c);
    GrowsTransitive(base, w, Exec(w, c).value);
    if GidsRight(ro, w) && FolderPhase(c) { GidsRightStep(env, ro, base, w, c); }
  }

  lemma {:induction false} InvRun(env: Env, ro: Roster, base: World, w: World, cs: seq<Call>, faults: set<nat>, at: nat)
    requires Ready(ro, env.cls) && forall c :: c in cs ==> CallFits(env, ro, base, c)
    requires Inv(env, ro, base, w)
    ensures Inv(env, ro, base, RunCalls(w, cs, faults, at).w)
    ensures AllGroups(ro, w) ==> AllGroups(ro, RunCalls(w, cs, faults, at).w)
    ensures GidsRight(ro, w) && (forall c :: c in cs ==> FolderPhase(c)) ==>
              GidsRight(ro, RunCalls(w, cs, faults, at).w)
    decreases |cs|
  {
    if cs != [] {
      assert cs[0] in cs && forall c :: c in cs[1..] ==> c in cs;
      if at in faults {
        if Ignored(cs[0]) { InvRun(env, ro, base, w, cs[1..], faults, at + 1); }
      } else if Exec(w, cs[0]).Some? {
        InvStep(env, ro, base, w, cs[0]);
        InvRun(env, ro, base, Exec(w, cs[0]).value, cs[1..], faults, at + 1);
      }
    }
  }

  lemma {:induction false} RunReaches(env: Env, ro: Roster, base: World, w: World, cs: seq<Call>,
                                      faults: set<nat>, at: nat, goal: Goal)
    requires Ready(ro, env.cls) && Windows(env.cls)
    requires forall c :: c in cs ==> CallFits(env, ro, base, c) && !Undoes(c, goal)
    requires Inv(env, ro, base, w) && Phase(ro, w, cs) && About(env, ro, base, goal)
    requires RunCalls(w, cs, faults, at).ok
    requires Holds(env, ro, w, goal) || exists c :: c in cs && Makes(env, c, goal)
    ensures Holds(env, ro, RunCalls(w, cs, faults, at).w, goal)
    decreases |cs|
  {
    if cs != [] {
      assert cs == [cs[0]] + cs[1..];
      assert cs[0] in cs && forall c :: c in cs[1..] ==> c in cs;
      if at in faults {
        RunReaches(env, ro, base, w, cs[1..], faults, at + 1, goal);
      } else {
        var next := Exec(w, cs[0]).value;
        InvStep(env, ro, base, w, cs[0]);
        if Holds(env, ro, w, goal) || Makes(env, cs[0], goal) { CallStep(env, ro, base, w, cs[0], goal); }
        RunReaches(env, ro, base, next, cs[1..], faults, at + 1, goal);
      }
    }
  }

  lemma {:induction false} RunEnds(env: Env, ro: Roster, base: World, w: World, cs: seq<Call>,
                                   faults: set<nat>, at: nat, goal: Goal)
    requires Ready(ro, env.cls) && Windows(env.cls)
    requires forall c :: c in cs ==> CallFits(env, ro, base, c)
    requires Inv(env, ro, base, w) && AllGroups(ro, w) && About(env, ro, base, goal)
    requires RunCalls(w, cs, faults, at).ok
    requires cs != [] && Makes(env, cs[|cs| - 1], goal)
    ensures Holds(env, ro, RunCalls(w, cs, faults, at).w, goal)
    decreases |cs|
  {
    assert cs[0] in cs && forall c :: c in cs[1..] ==> c in cs;
    if |cs| == 1 {
      assert cs[1..] == [];
      CallStep(env, ro, base, w, cs[0], goal);
    } else if at in faults {
      RunEnds(env, ro, base, w, cs[1..], faults, at + 1, goal);
    } else {
      InvStep(env, ro, base, w, cs[0]);
      RunEnds(env, ro, base, Exec(w, cs[0]).value, cs[1..], faults, at + 1, goal);
    }
  }

  // --- goals through actions ---

  ghost predicate ActionMakes(env: Env, w: World, a: Action, goal: Goal) {
    exists c :: c in Script(env, w, a) && Makes(env, c, goal)
  }

  ghost predicate ActionPhase(ro: Roster, w: World, a: Action) {
    AllGroups(ro, w) || (GidsRight(ro, w) && a.kind in {CreateGroup, RefuseGroup})
  }

  /** A script that registers an account is a creation, or adds SMB to an active user's account. */
  lemma Registers(env: Env, w: World, a: Action, c: Call)
    requires c in Script(env, w, a) && c.OnSmb? && c.smb.SmbCreate?
    ensures c.smb.name == a.name && a.kind in {CreateUser, CreateUserDisabled, AddSmb}
    ensures a.kind != AddSmb ==> !env.deps.posixOnly
  {
  }

  /** The one script with a step back in it ends where it should: registered, then switched off. */
  lemma UndoneScript(env: Env, ro: Roster, base: World, w: World, a: Action, goal: Goal, c: Call)
    requires Ready(ro, env.cls) && Fits.ActFits(env, ro, base, a)
    requires About(env, ro, base, goal) && c in Script(env, w, a) && Undoes(c, goal)
    ensures var cs := Script(env, w, a); cs != [] && Makes(env, cs[|cs| - 1], goal)
  {
    Registers(env, w, a, c);
    var u :| u in ro.users && Fits.UserFits(env, ro, base, u, a);
    assert a.kind == CreateUserDisabled;
  }

  lemma OneRedoes(env: Env, ro: Roster, base: World, w: World, a: Action, faults: set<nat>, goal: Goal, c: Call)
    requires Ready(ro, env.cls) && Windows(env.cls) && Fits.ActFits(env, ro, base, a)
    requires Inv(env, ro, base, w) && ActionPhase(ro, w, a) && About(env, ro, base, goal)
    requires One(env, w, a, faults).ok && c in Script(env, w, a) && Undoes(c, goal)
    ensures Holds(env, ro, One(env, w, a, faults).w, goal)
  {
    ScriptFits(env, ro, base, w, a);
    UndoneScript(env, ro, base, w, a, goal, c);
    RunEnds(env, ro, base, w, Script(env, w, a), faults, 0, goal);
  }

  lemma OneReaches(env: Env, ro: Roster, base: World, w: World, a: Action, faults: set<nat>, goal: Goal)
    requires Ready(ro, env.cls) && Windows(env.cls) && Fits.ActFits(env, ro, base, a)
    requires Inv(env, ro, base, w) && ActionPhase(ro, w, a) && About(env, ro, base, goal)
    requires One(env, w, a, faults).ok
    requires Holds(env, ro, w, goal) || ActionMakes(env, w, a, goal)
    ensures Holds(env, ro, One(env, w, a, faults).w, goal)
  {
    var cs := Script(env, w, a);
    ScriptFits(env, ro, base, w, a);
    if c :| c in cs && Undoes(c, goal) {
      OneRedoes(env, ro, base, w, a, faults, goal, c);
    } else {
      RunReaches(env, ro, base, w, cs, faults, 0, goal);
    }
  }

  lemma OneInv(env: Env, ro: Roster, base: World, w: World, a: Action, faults: set<nat>)
    requires Ready(ro, env.cls) && Fits.ActFits(env, ro, base, a) && Inv(env, ro, base, w)
    ensures Inv(env, ro, base, One(env, w, a, faults).w)
    ensures AllGroups(ro, w) ==> AllGroups(ro, One(env, w, a, faults).w)
    ensures GidsRight(ro, w) && a.kind in {CreateGroup, RefuseGroup} ==> GidsRight(ro, One(env, w, a, faults).w)
  {
    var cs := Script(env, w, a);
    ScriptFits(env, ro, base, w, a);
    InvRun(env, ro, base, w, cs, faults, 0);
    RunCallsGrows(w, cs, faults, 0);
  }

  // --- goals through a run of actions ---

  ghost predicate AllFit(env: Env, ro: Roster, base: World, acts: seq<Action>) {
    forall a :: a in acts ==> Fits.ActFits(env, ro, base, a)
  }

  /** Each of the first n actions runs in its phase. */
  ghost predicate Phased(env: Env, ro: Roster, base: World, acts: seq<Action>, faults: nat -> set<nat>, n: nat)
    requires n <= |acts|
  {
    forall i :: 0 <= i < n ==> ActionPhase(ro, Before(env, base, acts, faults, i), acts[i])
  }

  lemma {:induction false} InvApply(env: Env, ro: Roster, base: World, acts: seq<Action>, faults: nat -> set<nat>)
    requires Ready(ro, env.cls) && AllFit(env, ro, base, acts)
    ensures Inv(env, ro, base, Apply(env, base, acts, faults).w)
    decreases |acts|
  {
    if acts != [] {
      var n := |acts| - 1;
      assert acts[n] in acts && forall a :: a in acts[..n] ==> a in acts;
      InvApply(env, ro, base, acts[..n], faults);
      OneInv(env, ro, base, Apply(env, base, acts[..n], faults).w, acts[n], faults(n));
    }
  }

  lemma InvBefore(env: Env, ro: Roster, base: World, acts: seq<Action>, faults: nat -> set<nat>, n: nat)
    requires Ready(ro, env.cls) && AllFit(env, ro, base, acts) && n <= |acts|
    ensures Inv(env, ro, base, Before(env, base, acts, faults, n))
  {
    assert forall a :: a in acts[..n] ==> a in acts;
    InvApply(env, ro, base, acts[..n], faults);
  }

  lemma ReachesStep(env: Env, ro: Roster, base: World, acts: seq<Action>, faults: nat -> set<nat>, i: nat, goal: Goal)
    requires Ready(ro, env.cls) && Windows(env.cls) && AllFit(env, ro, base, acts) && i < |acts|
    requires ActionPhase(ro, Before(env, base, acts, faults, i), acts[i]) && About(env, ro, base, goal)
    requires One(env, Before(env, base, acts, faults, i), acts[i], faults(i)).ok
    requires var w := Before(env, base, acts, faults, i);
             Holds(env, ro, w, goal) || ActionMakes(env, w, acts[i], goal)
    ensures Holds(env, ro, Before(env, base, acts, faults, i + 1), goal)
  {
    var a, w := acts[i], Before(env, base, acts, faults, i);
    ApplyStep(env, base, acts, faults, i);
    InvBefore(env, ro, base, acts, faults, i);
    assert a in acts;
    OneReaches(env, ro, base, w, a, faults(i), goal);
  }

  lemma StepOk(env: Env, base: World, acts: seq<Action>, faults: nat -> set<nat>, i: nat, n: nat)
    requires i < n <= |acts| && Apply(env, base, acts[..n], faults).ok
    ensures One(env, Before(env, base, acts, faults, i), acts[i], faults(i)).ok
  {
    ApplyPrefixOk(env, base, acts[..n], faults, i + 1);
    assert acts[..n][..i + 1] == acts[..i + 1];
    ApplyStep(env, base, acts, faults, i);
  }

  /** A goal reached before action i still holds before action n. */
  lemma {:induction false} Persists(env: Env, ro: Roster, base: World, acts: seq<Action>, faults: nat -> set<nat>,
                                    i: nat, n: nat, goal: Goal)
    requires Ready(ro, env.cls) && Windows(env.cls) && AllFit(env, ro, base, acts) && i <= n <= |acts|
    requires Phased(env, ro, base, acts, faults, n) && About(env, ro, base, goal)
    requires Apply(env, base, acts[..n], faults).ok
    requires Holds(env, ro, Before(env, base, acts, faults, i), goal)
    ensures Holds(env, ro, Before(env, base, acts, faults, n), goal)
    decreases n - i
  {
    if i < n {
      StepOk(env, base, acts, faults, i, n);
      ReachesStep(env, ro, base, acts, faults, i, goal);
      Persists(env, ro, base, acts, faults, i + 1, n, goal);
    }
  }

  /** What action i is after holds before every later action n. */
  lemma Reaches(env: Env, ro: Roster, base: World, acts: seq<Action>, faults: nat -> set<nat>, i: nat, n: nat,
                goal: Goal)
    requires Ready(ro, env.cls) && Windows(env.cls) && AllFit(env, ro, base, acts) && i < n <= |acts|
    requires Phased(env, ro, base, acts, faults, n) && About(env, ro, base, goal)
    requires Apply(env, base, acts[..n], faults).ok
    requires ActionMakes(env, Before(env, base, acts, faults, i), acts[i], goal)
    ensures Holds(env, ro, Before(env, base, acts, faults, n), goal)
  {
    StepOk(env, base, acts, faults, i, n);
    ReachesStep(env, ro, base, acts, faults, i, goal);
    Persists(env, ro, base, acts, faults, i + 1, n, goal);
  }

  /** A clean run ends with every goal that held at its start, or that one of its actions is after. */
  lemma Achieves(env: Env, ro: Roster, base: World, acts: seq<Action>, faults: nat -> set<nat>, goal: Goal)
    requires Ready(ro, env.cls) && Windows(env.cls) && AllFit(env, ro, base, acts)
    requires Phased(env, ro, base, acts, faults, |acts|) && About(env, ro, base, goal)
    requires Apply(env, base, acts, faults).ok
    requires Holds(env, ro, base, goal) || exists a :: a in acts && AlwaysMakes(env, a, goal)
    ensures Holds(env, ro, Apply(env, base, acts, faults).w, goal)
  {
    assert acts[..|acts|] == acts;
    if Holds(env, ro, base, goal) {
      assert Before(env, base, acts, faults, 0) == base;
      Persists(env, ro, base, acts, faults, 0, |acts|, goal);
    } else {
      var a :| a in acts && AlwaysMakes(env, a, goal);
      var i :| 0 <= i < |acts| && acts[i] == a;
      Reaches(env, ro, base, acts, faults, i, |acts|, goal);
    }
  }

  /** Some call of the action is after the goal, whatever the host looks like. */
  ghost predicate AlwaysMakes(env: Env, a: Action, goal: Goal) {
    forall w :: ActionMakes(env, w, a, goal)
  }
}
