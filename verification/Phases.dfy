/** The order of a plan at work: groups and folders first, then everything that needs them. */
module Phases {
  import opened Common
  import opened Names
  import opened IdRange
  import opened Roster
  import opened System
  import opened Reconcile
  import opened Executor
  import opened Agreement
  import opened Goals
  import opened Runs
  import Fits
  import Views

  ghost function PlanOf(env: Env, ro: Roster, w: World): seq<Action> {
    Plan(ro, Collect(env.host, w, env.cls), env.cls)
  }

  // --- what is planned ---

  lemma Parts(ro: Roster, st: State, cls: Classifier, a: Action)
    ensures a in Plan(ro, st, cls) <==>
              a in FolderPart(ro, st, cls) || a in ReaderPart(ro, st, cls) || a in UserPart(ro, st, cls)
              || a in OwnerPart(ro, st, cls) || a in OrphanGroupPart(ro, st, cls) || a in OrphanUserPart(ro, st, cls)
  {
  }

  lemma FolderPlanned(ro: Roster, st: State, cls: Classifier, a: Action)
    ensures a in FolderPart(ro, st, cls) <==> exists g :: g in ro.groups && a in GroupActions(st, cls)(g)
  {
    SortByMembers(GroupKey, ro.groups);
    FlatMember(GroupActions(st, cls), SortBy(GroupKey, ro.groups), a);
  }

  lemma OwnerPlanned(ro: Roster, st: State, cls: Classifier, a: Action)
    ensures a in OwnerPart(ro, st, cls) <==> exists g :: g in ro.groups && a in OwnerActions(st, cls)(g)
  {
    SortByMembers(GroupKey, ro.groups);
    FlatMember(OwnerActions(st, cls), SortBy(GroupKey, ro.groups), a);
  }

  ghost function ReadersFor(ro: Roster, st: State, cls: Classifier): Group -> seq<Action> {
    ReaderActions(ro.groups, GidTable(SortBy(GroupKey, ro.groups)), st, cls)
  }

  lemma ReaderPlanned(ro: Roster, st: State, cls: Classifier, a: Action)
    ensures a in ReaderPart(ro, st, cls) <==> exists g :: g in ro.groups && a in ReadersFor(ro, st, cls)(g)
  {
    SortByMembers(GroupKey, ro.groups);
    FlatMember(ReadersFor(ro, st, cls), SortBy(GroupKey, ro.groups), a);
  }

  ghost function ActionsFor(ro: Roster, st: State, cls: Classifier): User -> seq<Action> {
    UserActions(SortBy(GroupKey, ro.groups), ro.users, st, cls)
  }

  lemma UserPlanned(ro: Roster, st: State, cls: Classifier, a: Action)
    ensures a in UserPart(ro, st, cls) <==> exists u :: u in ro.users && a in ActionsFor(ro, st, cls)(u)
  {
    SortByMembers(UserKey, ro.users);
    FlatMember(ActionsFor(ro, st, cls), SortBy(UserKey, ro.users), a);
  }

  ghost function OrphansFor(ro: Roster, st: State, cls: Classifier): Name -> seq<Action> {
    OrphanUserActions(st, cls, KeysOf(UserKey, ro.users))
  }

  lemma OrphanPlanned(ro: Roster, st: State, cls: Classifier, a: Action)
    ensures a in OrphanUserPart(ro, st, cls) <==> exists n :: n in st.users && a in OrphansFor(ro, st, cls)(n)
  {
    var names := SortedNames(st.users.Keys);
    FlatMember(OrphansFor(ro, st, cls), names, a);
    assert forall n :: n in names <==> n in SetOf(names);
  }

  lemma GroupsOnlyNoticed(ro: Roster, st: State, cls: Classifier, a: Action)
    requires a in OrphanGroupPart(ro, st, cls)
    ensures a.kind == OrphanGroup
  {
    FlatMember(OrphanGroupActions(st, cls, KeysOf(GroupKey, ro.groups)), SortedNames(st.groups.Keys), a);
  }

  lemma Kinds(ro: Roster, st: State, cls: Classifier, g: Group, n: Name, a: Action)
    ensures a in ReadersFor(ro, st, cls)(g) ==> a.kind == SetGroupReaders
    ensures a in OwnerActions(st, cls)(g) ==> a.kind == SetGroupAdmins
    ensures a in OrphansFor(ro, st, cls)(n) ==> a.kind in {OrphanUser, DisableUser}
  {
  }

  lemma AccountKinds(u: User, groups: seq<Name>, st: State, cls: Classifier, a: Action)
    requires a in AccountActions(u, groups, st, cls)
    ensures a.kind != CreateGroup && a.kind != SetGroupReaders
    ensures a.kind !in {SetUserQuota, ClearUserQuota}
  {
    if u.name in st.users && u.status != Reserved {
      assert a in PresentUserActions(u, groups, st.users[u.name]) ==> a.kind in {UpdateUserGroups, EnsureHome};
    }
  }

  lemma UserKinds(ro: Roster, st: State, cls: Classifier, u: User, a: Action)
    requires a in ActionsFor(ro, st, cls)(u)
    ensures a.kind != CreateGroup && a.kind != SetGroupReaders
  {
    var groups := UserGroups(SortBy(GroupKey, ro.groups), ro.users, u.name);
    if a in AccountActions(u, groups, st, cls) {
      AccountKinds(u, groups, st, cls, a);
    }
  }

  /** After the first part of a plan no group is made. */
  lemma NoLateGroups(ro: Roster, st: State, cls: Classifier, i: nat)
    requires |FolderPart(ro, st, cls)| <= i < |Plan(ro, st, cls)|
    ensures Plan(ro, st, cls)[i].kind != CreateGroup
  {
    var a := Plan(ro, st, cls)[i];
    if a in UserPart(ro, st, cls) {
      UserPlanned(ro, st, cls, a);
      var u :| u in ro.users && a in ActionsFor(ro, st, cls)(u);
      UserKinds(ro, st, cls, u, a);
    } else if a in OrphanGroupPart(ro, st, cls) {
      GroupsOnlyNoticed(ro, st, cls, a);
    } else {
      LateKinds(ro, st, cls, a);
    }
  }

  lemma LateKinds(ro: Roster, st: State, cls: Classifier, a: Action)
    requires a in ReaderPart(ro, st, cls) || a in OwnerPart(ro, st, cls) || a in OrphanUserPart(ro, st, cls)
    ensures a.kind != CreateGroup
  {
    ReaderPlanned(ro, st, cls, a);
    OwnerPlanned(ro, st, cls, a);
    OrphanPlanned(ro, st, cls, a);
    forall g, n
      ensures a in ReadersFor(ro, st, cls)(g) ==> a.kind == SetGroupReaders
      ensures a in OwnerActions(st, cls)(g) ==> a.kind == SetGroupAdmins
      ensures a in OrphansFor(ro, st, cls)(n) ==> a.kind in {OrphanUser, DisableUser}
    {
      Kinds(ro, st, cls, g, n, a);
    }
  }

  lemma NotAdmins(u: User, groups: seq<Name>, st: State, cls: Classifier, a: Action)
    requires a in AccountActions(u, groups, st, cls)
    ensures a.kind != SetGroupAdmins
  {
    if u.name in st.users && u.status != Reserved {
      assert a in PresentUserActions(u, groups, st.users[u.name]) ==> a.kind in {UpdateUserGroups, EnsureHome};
    }
  }

  /** Administrators are set only after every account has been dealt with. */
  lemma AdminsLast(ro: Roster, st: State, cls: Classifier, a: Action)
    requires a.kind == SetGroupAdmins
    ensures a !in FolderPart(ro, st, cls) && a !in ReaderPart(ro, st, cls) && a !in UserPart(ro, st, cls)
  {
    FolderPlanned(ro, st, cls, a);
    ReaderPlanned(ro, st, cls, a);
    UserPlanned(ro, st, cls, a);
    forall g
      ensures a !in ReadersFor(ro, st, cls)(g)
      ensures a !in GroupActions(st, cls)(g)
    {
      Kinds(ro, st, cls, g, "", a);
      if a in GroupActions(st, cls)(g) { GroupKinds(st, cls, g, a); }
    }
    forall u ensures a !in ActionsFor(ro, st, cls)(u) {
      var groups := UserGroups(SortBy(GroupKey, ro.groups), ro.users, u.name);
      if a in AccountActions(u, groups, st, cls) { NotAdmins(u, groups, st, cls, a); }
    }
  }

  lemma PlanStarts(ro: Roster, st: State, cls: Classifier)
    ensures FolderPart(ro, st, cls) <= Plan(ro, st, cls)
  {
  }

  lemma FolderKinds(ro: Roster, st: State, cls: Classifier, i: nat)
    requires i < |FolderPart(ro, st, cls)|
    ensures i < |Plan(ro, st, cls)| && Plan(ro, st, cls)[i] == FolderPart(ro, st, cls)[i]
    ensures Plan(ro, st, cls)[i].kind in {CreateGroup, RefuseGroup}
  {
    var a := FolderPart(ro, st, cls)[i];
    PlanStarts(ro, st, cls);
    FolderPlanned(ro, st, cls, a);
    var g :| g in ro.groups && a in GroupActions(st, cls)(g);
    GroupKinds(st, cls, g, a);
  }

  lemma GroupKinds(st: State, cls: Classifier, g: Group, a: Action)
    requires a in GroupActions(st, cls)(g)
    ensures a.kind in {CreateGroup, RefuseGroup}
  {
  }

  lemma PlanAllFits(env: Env, ro: Roster, base: World)
    ensures AllFit(env, ro, base, PlanOf(env, ro, base))
  {
    forall a | a in PlanOf(env, ro, base) ensures Fits.ActFits(env, ro, base, a) {
      Fits.PlanFits(env, ro, base, a);
    }
  }

  // --- refusals, read off the host ---

  lemma FolderAllowed(env: Env, ro: Roster, base: World, g: Group)
    requires NoRefusal(PlanOf(env, ro, base)) && g in ro.groups
    ensures forall a :: a in GroupActions(Collect(env.host, base, env.cls), env.cls)(g) ==>
              ClassOf(a.kind) != Refuse && a in FolderPart(ro, Collect(env.host, base, env.cls), env.cls)
  {
    var st := Collect(env.host, base, env.cls);
    forall a | a in GroupActions(st, env.cls)(g)
      ensures ClassOf(a.kind) != Refuse && a in FolderPart(ro, st, env.cls)
    {
      FolderPlanned(ro, st, env.cls, a);
      Parts(ro, st, env.cls, a);
    }
  }

  lemma NoGroupRefused(st: State, cls: Classifier, g: Group)
    requires cls.Gid(g.gid) == Managed && g.name in st.allGroups
    requires forall a :: a in GroupActions(st, cls)(g) ==> ClassOf(a.kind) != Refuse
    ensures g.name in st.groups && st.groups[g.name].gid == g.gid
  {
    var acts := GroupActions(st, cls)(g);
    assert acts != [] ==> acts[0] in acts;
  }

  /** A group nobody refused is absent, or there with its declared gid. */
  lemma GroupClear(env: Env, ro: Roster, base: World, g: Group)
    requires Ready(ro, env.cls) && NoRefusal(PlanOf(env, ro, base)) && g in ro.groups
    ensures g.name in base.groups ==> base.groups[g.name].gid == g.gid
  {
    if g.name in base.groups {
      FolderAllowed(env, ro, base, g);
      CollectSees(env, base, g.name);
      NoGroupRefused(Collect(env.host, base, env.cls), env.cls, g);
      assert Collect(env.host, base, env.cls).groups[g.name] == CollectGroup(env.host, base, g.name);
    }
  }

  lemma RefusalPlanned(ro: Roster, st: State, cls: Classifier, u: User, a: Action)
    requires u in ro.users && a.kind == RefuseUser
    requires a in AccountActions(u, UserGroups(SortBy(GroupKey, ro.groups), ro.users, u.name), st, cls)
    ensures a in UserPart(ro, st, cls)
  {
    assert Refused(AccountActions(u, UserGroups(SortBy(GroupKey, ro.groups), ro.users, u.name), st, cls));
    assert a in ActionsFor(ro, st, cls)(u);
    UserPlanned(ro, st, cls, a);
  }

  lemma NobodyRefused(ro: Roster, st: State, cls: Classifier, u: User)
    requires NoRefusal(UserPart(ro, st, cls)) && u in ro.users
    ensures !Refused(AccountActions(u, UserGroups(SortBy(GroupKey, ro.groups), ro.users, u.name), st, cls))
  {
    var acts := AccountActions(u, UserGroups(SortBy(GroupKey, ro.groups), ro.users, u.name), st, cls);
    forall a | a in acts ensures a.kind != RefuseUser {
      if a.kind == RefuseUser { RefusalPlanned(ro, st, cls, u, a); }
    }
  }

  /** A user nobody refused is absent, or there with its declared uid. */
  lemma UserClear(env: Env, ro: Roster, base: World, u: User)
    requires Ready(ro, env.cls) && NoRefusal(PlanOf(env, ro, base)) && u in ro.users
    ensures !Refused(AccountActions(u, UserGroups(SortBy(GroupKey, ro.groups), ro.users, u.name),
                                    Collect(env.host, base, env.cls), env.cls))
    ensures u.name in base.users && (u.status != Reserved || env.cls.Uid(base.users[u.name].uid) == Managed) ==>
              base.users[u.name].uid == u.uid
  {
    NobodyRefused(ro, Collect(env.host, base, env.cls), env.cls, u);
    CollectSees(env, base, u.name);
    NotRefused(u, UserGroups(SortBy(GroupKey, ro.groups), ro.users, u.name), Collect(env.host, base, env.cls), env.cls);
  }

  lemma NotRefused(u: User, groups: seq<Name>, st: State, cls: Classifier)
    requires !Refused(AccountActions(u, groups, st, cls))
    ensures u.name in st.users ==> st.users[u.name].uid == u.uid
    ensures u.name !in st.users && u.status != Reserved ==> CreateRefusal(u, st) == NoCause
  {
    var acts := AccountActions(u, groups, st, cls);
    assert |acts| == 1 ==> acts[0] in acts;
  }

  // --- phases ---

  lemma GidsRightStart(env: Env, ro: Roster, base: World)
    requires Ready(ro, env.cls) && NoRefusal(PlanOf(env, ro, base))
    ensures GidsRight(ro, base)
  {
    forall g | g in ro.groups && g.name in base.groups ensures base.groups[g.name].gid == g.gid {
      GroupClear(env, ro, base, g);
    }
  }

  lemma {:induction false} GidsRightFrom(env: Env, ro: Roster, base: World, acts: seq<Action>, faults: nat -> set<nat>,
                                         m: nat, n: nat)
    requires Ready(ro, env.cls) && AllFit(env, ro, base, acts) && m <= n <= |acts|
    requires forall i :: m <= i < n ==> acts[i].kind in {CreateGroup, RefuseGroup}
    requires GidsRight(ro, Before(env, base, acts, faults, m))
    ensures GidsRight(ro, Before(env, base, acts, faults, n))
    decreases n - m
  {
    if m < n {
      OneStep(env, ro, base, acts, faults, m);
      GidsRightFrom(env, ro, base, acts, faults, m + 1, n);
    }
  }

  lemma GidsRightBefore(env: Env, ro: Roster, base: World, faults: nat -> set<nat>, n: nat)
    requires Ready(ro, env.cls) && NoRefusal(PlanOf(env, ro, base))
    requires n <= |FolderPart(ro, Collect(env.host, base, env.cls), env.cls)| <= |PlanOf(env, ro, base)|
    ensures GidsRight(ro, Before(env, base, PlanOf(env, ro, base), faults, n))
  {
    var acts, st := PlanOf(env, ro, base), Collect(env.host, base, env.cls);
    GidsRightStart(env, ro, base);
    PlanAllFits(env, ro, base);
    forall i | 0 <= i < n ensures acts[i].kind in {CreateGroup, RefuseGroup} { FolderKinds(ro, st, env.cls, i); }
    GidsRightFrom(env, ro, base, acts, faults, 0, n);
  }

  /** One action of a run, between the worlds around it. */
  lemma OneStep(env: Env, ro: Roster, base: World, acts: seq<Action>, faults: nat -> set<nat>, i: nat)
    requires Ready(ro, env.cls) && AllFit(env, ro, base, acts) && i < |acts|
    ensures var w, next := Before(env, base, acts, faults, i), Before(env, base, acts, faults, i + 1);
            && next == One(env, w, acts[i], faults(i)).w
            && (AllGroups(ro, w) ==> AllGroups(ro, next))
            && (GidsRight(ro, w) && acts[i].kind in {CreateGroup, RefuseGroup} ==> GidsRight(ro, next))
  {
    InvBefore(env, ro, base, acts, faults, i);
    ApplyStep(env, base, acts, faults, i);
    assert acts[i] in acts;
    OneInv(env, ro, base, Before(env, base, acts, faults, i), acts[i], faults(i));
  }

  lemma {:induction false} GroupsStay(env: Env, ro: Roster, base: World, acts: seq<Action>, faults: nat -> set<nat>,
                                      m: nat, n: nat)
    requires Ready(ro, env.cls) && AllFit(env, ro, base, acts) && m <= n <= |acts|
    requires AllGroups(ro, Before(env, base, acts, faults, m))
    ensures AllGroups(ro, Before(env, base, acts, faults, n))
    decreases n - m
  {
    if m < n {
      OneStep(env, ro, base, acts, faults, m);
      GroupsStay(env, ro, base, acts, faults, m + 1, n);
    }
  }

  lemma FoldersPhased(env: Env, ro: Roster, base: World, faults: nat -> set<nat>)
    requires Ready(ro, env.cls) && NoRefusal(PlanOf(env, ro, base))
    ensures Phased(env, ro, base, PlanOf(env, ro, base), faults,
                   |FolderPart(ro, Collect(env.host, base, env.cls), env.cls)|)
  {
    var acts, st := PlanOf(env, ro, base), Collect(env.host, base, env.cls);
    PlanStarts(ro, st, env.cls);
    forall i | 0 <= i < |FolderPart(ro, st, env.cls)|
      ensures ActionPhase(ro, Before(env, base, acts, faults, i), acts[i])
    {
      GidsRightBefore(env, ro, base, faults, i);
      FolderKinds(ro, st, env.cls, i);
    }
  }

  lemma EntryPlanned(env: Env, base: World, g: Group)
    requires env.cls.Gid(g.gid) == Managed && g.name !in base.groups
    ensures var acts := GroupActions(Collect(env.host, base, env.cls), env.cls)(g);
            GroupAction(g, CreateGroup) in acts || exists a :: a in acts && ClassOf(a.kind) == Refuse
  {
    var acts := GroupActions(Collect(env.host, base, env.cls), env.cls)(g);
    CollectSees(env, base, g.name);
    assert |acts| == 1 && acts[0] in acts;
  }

  lemma EntryMade(env: Env, ro: Roster, base: World, g: Group)
    requires Ready(ro, env.cls) && NoRefusal(PlanOf(env, ro, base)) && g in ro.groups
    ensures g.name in base.groups ||
            GroupAction(g, CreateGroup) in FolderPart(ro, Collect(env.host, base, env.cls), env.cls)
  {
    FolderAllowed(env, ro, base, g);
    if g.name !in base.groups { EntryPlanned(env, base, g); }
  }

  /** Once the first part has run, every declared group is there with its declared gid. */
  lemma GroupsMade(env: Env, ro: Roster, base: World, faults: nat -> set<nat>)
    requires Ready(ro, env.cls) && Windows(env.cls) && NoRefusal(PlanOf(env, ro, base))
    requires Apply(env, base, PlanOf(env, ro, base), faults).ok
    ensures AllGroups(ro, Before(env, base, PlanOf(env, ro, base), faults,
                                 |FolderPart(ro, Collect(env.host, base, env.cls), env.cls)|))
  {
    var acts, st := PlanOf(env, ro, base), Collect(env.host, base, env.cls);
    var n := |FolderPart(ro, st, env.cls)|;
    FoldersPhased(env, ro, base, faults);
    PlanAllFits(env, ro, base);
    PlanStarts(ro, st, env.cls);
    ApplyPrefixOk(env, base, acts, faults, n);
    forall g | g in ro.groups
      ensures var w := Before(env, base, acts, faults, n); g.name in w.groups && w.groups[g.name].gid == g.gid
    {
      GroupMade(env, ro, base, faults, n, g);
    }
  }

  lemma GroupMade(env: Env, ro: Roster, base: World, faults: nat -> set<nat>, n: nat, g: Group)
    requires Ready(ro, env.cls) && Windows(env.cls) && NoRefusal(PlanOf(env, ro, base)) && g in ro.groups
    requires n == |FolderPart(ro, Collect(env.host, base, env.cls), env.cls)| && n <= |PlanOf(env, ro, base)|
    requires Phased(env, ro, base, PlanOf(env, ro, base), faults, n) && AllFit(env, ro, base, PlanOf(env, ro, base))
    requires Apply(env, base, PlanOf(env, ro, base)[..n], faults).ok
    ensures Holds(env, ro, Before(env, base, PlanOf(env, ro, base), faults, n), Entry(g))
  {
    var acts, st := PlanOf(env, ro, base), Collect(env.host, base, env.cls);
    EntryMade(env, ro, base, g);
    if g.name in base.groups {
      GroupClear(env, ro, base, g);
      EntryThere(env, ro, base, acts, faults, n, g);
    } else {
      var i := FolderIndex(ro, st, env.cls, GroupAction(g, CreateGroup));
      EntryReached(env, ro, base, acts, faults, i, n, g);
    }
  }

  lemma FolderIndex(ro: Roster, st: State, cls: Classifier, a: Action) returns (i: nat)
    requires a in FolderPart(ro, st, cls)
    ensures i < |FolderPart(ro, st, cls)| && i < |Plan(ro, st, cls)| && Plan(ro, st, cls)[i] == a
  {
    i :| 0 <= i < |FolderPart(ro, st, cls)| && FolderPart(ro, st, cls)[i] == a;
    PlanStarts(ro, st, cls);
  }

  lemma EntryThere(env: Env, ro: Roster, base: World, acts: seq<Action>, faults: nat -> set<nat>, n: nat, g: Group)
    requires Ready(ro, env.cls) && Windows(env.cls) && AllFit(env, ro, base, acts) && n <= |acts| && g in ro.groups
    requires Phased(env, ro, base, acts, faults, n) && Apply(env, base, acts[..n], faults).ok
    requires Holds(env, ro, base, Entry(g))
    ensures Holds(env, ro, Before(env, base, acts, faults, n), Entry(g))
  {
    assert Before(env, base, acts, faults, 0) == base;
    Persists(env, ro, base, acts, faults, 0, n, Entry(g));
  }

  lemma EntryReached(env: Env, ro: Roster, base: World, acts: seq<Action>, faults: nat -> set<nat>, i: nat, n: nat,
                     g: Group)
    requires Ready(ro, env.cls) && Windows(env.cls) && AllFit(env, ro, base, acts) && i < n <= |acts| && g in ro.groups
    requires Phased(env, ro, base, acts, faults, n) && Apply(env, base, acts[..n], faults).ok
    requires acts[i] == GroupAction(g, CreateGroup)
    ensures Holds(env, ro, Before(env, base, acts, faults, n), Entry(g))
  {
    MakesEntry(env, Before(env, base, acts, faults, i), g);
    Reaches(env, ro, base, acts, faults, i, n, Entry(g));
  }

  lemma MakesEntry(env: Env, w: World, g: Group)
    ensures ActionMakes(env, w, GroupAction(g, CreateGroup), Entry(g))
  {
    var c := OnGroups(EnsureGroup(g.name, g.gid));
    assert Script(env, w, GroupAction(g, CreateGroup))[0] == c;
    assert Makes(env, c, Entry(g));
  }

  /** Every action of a clean run runs in its phase. */
  lemma AllPhased(env: Env, ro: Roster, base: World, faults: nat -> set<nat>)
    requires Ready(ro, env.cls) && Windows(env.cls) && NoRefusal(PlanOf(env, ro, base))
    requires Apply(env, base, PlanOf(env, ro, base), faults).ok
    ensures Phased(env, ro, base, PlanOf(env, ro, base), faults, |PlanOf(env, ro, base)|)
    ensures AllGroups(ro, Apply(env, base, PlanOf(env, ro, base), faults).w)
  {
    var acts, st := PlanOf(env, ro, base), Collect(env.host, base, env.cls);
    var m := |FolderPart(ro, st, env.cls)|;
    FoldersPhased(env, ro, base, faults);
    GroupsMade(env, ro, base, faults);
    PlanAllFits(env, ro, base);
    forall i | 0 <= i < |acts| ensures ActionPhase(ro, Before(env, base, acts, faults, i), acts[i]) {
      if i >= m { GroupsStay(env, ro, base, acts, faults, m, i); }
    }
    GroupsStay(env, ro, base, acts, faults, m, |acts|);
    assert acts[..|acts|] == acts;
  }
}
