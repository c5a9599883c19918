/** Entry by entry: what one clean run leaves of each declared group and user. */
module Achieved {
  import opened Common
  import opened Names
  import opened IdRange
  import opened Roster
  import opened Validation
  import opened System
  import opened Reconcile
  import opened Executor
  import opened Agreement
  import opened Goals
  import opened Runs
  import opened Phases
  import Fits
  import Views

  /** A run that refuses nothing and in which every action succeeds. */
  ghost predicate Clean(env: Env, ro: Roster, base: World, faults: nat -> set<nat>) {
    && Ready(ro, env.cls) && Windows(env.cls) && !env.deps.posixOnly
    && Views.Wf(base.ns)
    && NoRefusal(PlanOf(env, ro, base))
    && Apply(env, base, PlanOf(env, ro, base), faults).ok
  }

  ghost function End(env: Env, ro: Roster, base: World, faults: nat -> set<nat>): World {
    Apply(env, base, PlanOf(env, ro, base), faults).w
  }

  lemma Ends(env: Env, ro: Roster, base: World, faults: nat -> set<nat>, goal: Goal)
    requires Clean(env, ro, base, faults) && About(env, ro, base, goal)
    requires Holds(env, ro, base, goal) || exists a :: a in PlanOf(env, ro, base) && AlwaysMakes(env, a, goal)
    ensures Holds(env, ro, End(env, ro, base, faults), goal)
  {
    AllPhased(env, ro, base, faults);
    PlanAllFits(env, ro, base);
    Achieves(env, ro, base, PlanOf(env, ro, base), faults, goal);
  }

  lemma EndGrows(env: Env, ro: Roster, base: World, faults: nat -> set<nat>)
    requires Ready(ro, env.cls)
    ensures Inv(env, ro, base, End(env, ro, base, faults))
  {
    var acts := PlanOf(env, ro, base);
    PlanAllFits(env, ro, base);
    InvBefore(env, ro, base, acts, faults, |acts|);
    assert acts[..|acts|] == acts;
  }

  // --- what each kind of action is after ---

  lemma MakesAt(env: Env, a: Action, goal: Goal, c: Call)
    requires Makes(env, c, goal) && forall w :: c in Script(env, w, a)
    ensures AlwaysMakes(env, a, goal)
  {
    forall w ensures ActionMakes(env, w, a, goal) { assert c in Script(env, w, a); }
  }

  lemma FolderMakes(env: Env, g: Group)
    requires !env.deps.posixOnly
    ensures AlwaysMakes(env, GroupAction(g, CreateGroup), FolderGid(g))
    ensures AlwaysMakes(env, GroupAction(g, CreateGroup), FolderMode(g))
  {
    var a := GroupAction(g, CreateGroup);
    var c, d := OnFolders(ChgrpFolder(g.name, g.gid)), OnFolders(ChmodFolder(g.name, g.anonymous.FolderPerm()));
    forall w ensures c in Script(env, w, a) && d in Script(env, w, a) {
      assert Script(env, w, a)[2] == c && Script(env, w, a)[3] == d;
    }
    MakesAt(env, a, FolderGid(g), c);
    MakesAt(env, a, FolderMode(g), d);
  }

  lemma AdminsMakes(env: Env, a: Action, g: Group)
    requires env.host.gshadow && a.kind == SetGroupAdmins && a.name == g.name
    ensures AlwaysMakes(env, a, AdminsAre(g))
  {
    var c := OnGroups(SetAdmins(a.name, SortBy(Self, a.groups)));
    forall w ensures c in Script(env, w, a) { assert Script(env, w, a)[0] == c; }
    MakesAt(env, a, AdminsAre(g), c);
  }

  lemma OneCallMakes(env: Env, a: Action, goal: Goal, c: Call)
    requires Makes(env, c, goal)
    requires a.kind in {UpdateUserGroups, EnableUser, DisableUser, AddSmb, SetUserQuota, ClearUserQuota}
    requires a.kind == UpdateUserGroups ==> c == OnGroups(SetGroups(a.name, SetOf(a.groups)))
    requires a.kind in {EnableUser, AddSmb} ==> c == OnSmb(SmbEnable(a.name))
    requires a.kind == DisableUser ==> c == OnSmb(SmbDisable(a.name))
    requires a.kind == SetUserQuota ==> c == OnQuotas(QuotaSet(a.id, a.quota)) && env.host.quotaEnforced
    requires a.kind == ClearUserQuota ==> c == OnQuotas(QuotaClear(a.id)) && env.host.quotaEnforced
    ensures AlwaysMakes(env, a, goal)
  {
    MakesAt(env, a, goal, c);
  }

  lemma HomeMakes(env: Env, a: Action, u: User)
    requires a.kind == EnsureHome && a.name == u.name && a.id == u.uid
    ensures AlwaysMakes(env, a, HomeOwned(u)) && AlwaysMakes(env, a, HomeMode(u))
  {
    MakesAt(env, a, HomeOwned(u), OnHomes(ChownHome(u.name, u.uid)));
    MakesAt(env, a, HomeMode(u), OnHomes(ChmodHome(u.name)));
  }

  /** Creating an account is after everything the account needs. */
  lemma CreateMakes(env: Env, a: Action, u: User)
    requires !env.deps.posixOnly && a.kind in {CreateUser, CreateUserDisabled} && a.name == u.name && a.id == u.uid
    ensures AlwaysMakes(env, a, Goal.Account(u)) && AlwaysMakes(env, a, Joined(u))
    ensures AlwaysMakes(env, a, SmbIs(u.name, a.kind == CreateUser)) && AlwaysMakes(env, a, Locked(u.name))
  {
    MakesAt(env, a, Goal.Account(u), OnUsers(EnsureAccount(a.name, a.id, a.fullName)));
    MakesAt(env, a, Locked(u.name), OnUsers(LockPassword(a.name)));
    MakesAt(env, a, Joined(u), OnGroups(SetGroups(a.name, SetOf(a.groups))));
    MakesAt(env, a, SmbIs(u.name, a.kind == CreateUser),
            OnSmb(if a.kind == CreateUser then SmbEnable(a.name) else SmbDisable(a.name)));
  }

  lemma CreateMakesHome(env: Env, a: Action, u: User)
    requires !env.deps.posixOnly && a.kind in {CreateUser, CreateUserDisabled} && a.name == u.name && a.id == u.uid
    requires a.home
    ensures AlwaysMakes(env, a, HomeOwned(u)) && AlwaysMakes(env, a, HomeMode(u))
  {
    MakesAt(env, a, HomeOwned(u), OnHomes(ChownHome(u.name, u.uid)));
    MakesAt(env, a, HomeMode(u), OnHomes(ChmodHome(u.name)));
  }

  // --- groups ---

  lemma FolderCases(env: Env, base: World, g: Group)
    requires env.cls.Gid(g.gid) == Managed
    ensures var acts := GroupActions(Collect(env.host, base, env.cls), env.cls)(g);
            || (exists a :: a in acts && ClassOf(a.kind) == Refuse)
            || GroupAction(g, CreateGroup) in acts
            || (acts == [] && g.name in base.folders && base.folders[g.name].gid == g.gid
                && base.folders[g.name].perm == g.anonymous.FolderPerm())
  {
    var st := Collect(env.host, base, env.cls);
    var acts := GroupActions(st, env.cls)(g);
    if acts == [] {
      assert st.groups[g.name] == CollectGroup(env.host, base, g.name);
    } else {
      assert acts[0] in acts;
    }
  }

  lemma FolderEnds(env: Env, ro: Roster, base: World, faults: nat -> set<nat>, g: Group)
    requires Clean(env, ro, base, faults) && g in ro.groups
    ensures var w := End(env, ro, base, faults);
            && g.name in w.groups && w.groups[g.name].gid == g.gid
            && g.name in w.folders && w.folders[g.name].gid == g.gid
            && w.folders[g.name].perm == g.anonymous.FolderPerm()
  {
    AllPhased(env, ro, base, faults);
    FolderAllowed(env, ro, base, g);
    FolderCases(env, base, g);
    var st := Collect(env.host, base, env.cls);
    if GroupAction(g, CreateGroup) in GroupActions(st, env.cls)(g) {
      Parts(ro, st, env.cls, GroupAction(g, CreateGroup));
      FolderMakes(env, g);
    }
    Ends(env, ro, base, faults, FolderGid(g));
    Ends(env, ro, base, faults, FolderMode(g));
  }

  lemma OwnerCases(env: Env, base: World, g: Group)
    requires env.cls.Gid(g.gid) == Managed && env.host.gshadow
    requires g.name in base.groups ==> base.groups[g.name].gid == g.gid
    ensures var acts := OwnerActions(Collect(env.host, base, env.cls), env.cls)(g);
            || Action(SetGroupAdmins, g.name, g.gid, groups := g.owners) in acts
            || multiset(if g.name in base.groups then base.groups[g.name].admins else []) == multiset(g.owners)
  {
    var st := Collect(env.host, base, env.cls);
    if g.name in base.groups {
      assert st.groups[g.name] == CollectGroup(env.host, base, g.name);
    }
  }

  lemma AdminsEnd(env: Env, ro: Roster, base: World, faults: nat -> set<nat>, g: Group)
    requires Clean(env, ro, base, faults) && g in ro.groups && env.host.gshadow
    ensures Holds(env, ro, End(env, ro, base, faults), AdminsAre(g))
  {
    var st := Collect(env.host, base, env.cls);
    GroupClear(env, ro, base, g);
    OwnerCases(env, base, g);
    var a := Action(SetGroupAdmins, g.name, g.gid, groups := g.owners);
    if a in OwnerActions(st, env.cls)(g) {
      OwnerPlanned(ro, st, env.cls, a);
      Parts(ro, st, env.cls, a);
      AdminsMakes(env, a, g);
    }
    Ends(env, ro, base, faults, AdminsAre(g));
  }

  // --- users ---

  lemma Planned(env: Env, ro: Roster, base: World, u: User, a: Action)
    requires u in ro.users && a in ActionsFor(ro, Collect(env.host, base, env.cls), env.cls)(u)
    ensures a in PlanOf(env, ro, base)
  {
    var st := Collect(env.host, base, env.cls);
    UserPlanned(ro, st, env.cls, a);
    Parts(ro, st, env.cls, a);
  }

  /** The account actions planned for a user, when nothing is refused. */
  ghost function AccountPlan(env: Env, ro: Roster, base: World, u: User): seq<Action> {
    AccountActions(u, UserGroups(SortBy(GroupKey, ro.groups), ro.users, u.name),
                   Collect(env.host, base, env.cls), env.cls)
  }

  lemma AccountPlanned(env: Env, ro: Roster, base: World, u: User, a: Action)
    requires u in ro.users && a in AccountPlan(env, ro, base, u)
    ensures a in PlanOf(env, ro, base)
  {
    assert a in ActionsFor(ro, Collect(env.host, base, env.cls), env.cls)(u);
    Planned(env, ro, base, u, a);
  }

  lemma AbsentPlan(u: User, groups: seq<Name>, st: State, cls: Classifier)
    requires cls.Uid(u.uid) == Managed && !Refused(AccountActions(u, groups, st, cls))
    requires u.status != Reserved && u.name !in st.users
    ensures CreateAction(u, groups, st) in AccountActions(u, groups, st, cls)
  {
    NotRefused(u, groups, st, cls);
  }

  /** A user with no account: its creation is planned. */
  lemma NewUserPlan(env: Env, ro: Roster, base: World, faults: nat -> set<nat>, u: User) returns (a: Action)
    requires Clean(env, ro, base, faults) && u in ro.users && u.status != Reserved && u.name !in base.users
    ensures a in PlanOf(env, ro, base) && a.name == u.name && a.id == u.uid && a.home == u.WantsHome()
    ensures a.kind == if u.status == Active then CreateUser else CreateUserDisabled
  {
    var st, groups := Collect(env.host, base, env.cls), UserGroups(SortBy(GroupKey, ro.groups), ro.users, u.name);
    UserClear(env, ro, base, u);
    AbsentPlan(u, groups, st, env.cls);
    a := CreateAction(u, groups, st);
    AccountPlanned(env, ro, base, u, a);
  }

  /** And brings everything. */
  lemma NewUserEnds(env: Env, ro: Roster, base: World, faults: nat -> set<nat>, u: User)
    requires Clean(env, ro, base, faults) && u in ro.users && u.status != Reserved && u.name !in base.users
    ensures var w := End(env, ro, base, faults);
            && Holds(env, ro, w, Goal.Account(u)) && Holds(env, ro, w, Joined(u))
            && Holds(env, ro, w, SmbIs(u.name, u.status == Active)) && Holds(env, ro, w, Locked(u.name))
            && (u.WantsHome() ==> Holds(env, ro, w, HomeOwned(u)) && Holds(env, ro, w, HomeMode(u)))
  {
    var a := NewUserPlan(env, ro, base, faults, u);
    CreateMakes(env, a, u);
    Ends(env, ro, base, faults, Goal.Account(u));
    Ends(env, ro, base, faults, Joined(u));
    Ends(env, ro, base, faults, Locked(u.name));
    SmbAbout(env, ro, base, u);
    Ends(env, ro, base, faults, SmbIs(u.name, u.status == Active));
    if u.WantsHome() { NewHomeEnds(env, ro, base, faults, u); }
  }

  lemma NewHomeEnds(env: Env, ro: Roster, base: World, faults: nat -> set<nat>, u: User)
    requires Clean(env, ro, base, faults) && u in ro.users && u.status != Reserved && u.name !in base.users
    requires u.WantsHome()
    ensures var w := End(env, ro, base, faults); Holds(env, ro, w, HomeOwned(u)) && Holds(env, ro, w, HomeMode(u))
  {
    var a := NewUserPlan(env, ro, base, faults, u);
    CreateMakesHome(env, a, u);
    Ends(env, ro, base, faults, HomeOwned(u));
    Ends(env, ro, base, faults, HomeMode(u));
  }

  lemma SmbAbout(env: Env, ro: Roster, base: World, u: User)
    requires Ready(ro, env.cls) && u in ro.users
    ensures About(env, ro, base, SmbIs(u.name, u.status == Active))
  {
    if v :| v in ro.users && v.name == u.name && v.status == Active { SameUser(ro, env.cls, u, v); }
  }

  lemma PresentPlan(u: User, groups: seq<Name>, st: State, cls: Classifier, a: Action)
    requires cls.Uid(u.uid) == Managed && u.name in st.users && st.users[u.name].uid == u.uid
    requires a in SmbActions(u, st) || (u.status != Reserved && a in PresentUserActions(u, groups, st.users[u.name]))
    ensures a in AccountActions(u, groups, st, cls)
  {
  }

  lemma SmbCases(env: Env, base: World, u: User)
    ensures var acts := SmbActions(u, Collect(env.host, base, env.cls));
            || SmbOn(base, u.name) == (u.status == Active)
            || (u.status == Active && (UserAction(u, AddSmb) in acts || UserAction(u, EnableUser) in acts))
            || (u.status != Active && UserAction(u, DisableUser) in acts)
  {
    CollectSees(env, base, u.name);
  }

  /** An account that is there: SMB on exactly for active users. */
  lemma SmbEnds(env: Env, ro: Roster, base: World, faults: nat -> set<nat>, u: User)
    requires Clean(env, ro, base, faults) && u in ro.users
    requires u.name in base.users && env.cls.Uid(base.users[u.name].uid) == Managed
    ensures Holds(env, ro, End(env, ro, base, faults), SmbIs(u.name, u.status == Active))
  {
    var st, goal := Collect(env.host, base, env.cls), SmbIs(u.name, u.status == Active);
    UserClear(env, ro, base, u);
    CollectSees(env, base, u.name);
    SmbCases(env, base, u);
    SmbAbout(env, ro, base, u);
    if !Holds(env, ro, base, goal) {
      var kind := if u.status != Active then DisableUser
                  else if UserAction(u, AddSmb) in SmbActions(u, st) then AddSmb else EnableUser;
      var a := UserAction(u, kind);
      PresentPlan(u, UserGroups(SortBy(GroupKey, ro.groups), ro.users, u.name), st, env.cls, a);
      AccountPlanned(env, ro, base, u, a);
      OneCallMakes(env, a, goal, OnSmb(if u.status == Active then SmbEnable(u.name) else SmbDisable(u.name)));
    }
    Ends(env, ro, base, faults, goal);
  }

  ghost predicate LiveHere(env: Env, ro: Roster, base: World, u: User) {
    u in ro.users && u.status != Reserved && u.name in base.users && env.cls.Uid(u.uid) == Managed
    && base.users[u.name].uid == u.uid
  }

  lemma JoinedPlan(env: Env, ro: Roster, base: World, u: User)
    requires LiveHere(env, ro, base, u) && !Holds(env, ro, base, Joined(u))
    ensures exists a :: a in PlanOf(env, ro, base) && a.kind == UpdateUserGroups && a.name == u.name
  {
    var st := Collect(env.host, base, env.cls);
    var groups := UserGroups(SortBy(GroupKey, ro.groups), ro.users, u.name);
    UserGroupsExact(ro, u.name);
    CollectSees(env, base, u.name);
    var a := UserAction(u, UpdateUserGroups).(groups := MergeGroups(groups, st.users[u.name].extraGroups));
    assert a in PresentUserActions(u, groups, st.users[u.name]);
    PresentPlan(u, groups, st, env.cls, a);
    AccountPlanned(env, ro, base, u, a);
  }

  lemma JoinedEnds(env: Env, ro: Roster, base: World, faults: nat -> set<nat>, u: User)
    requires Clean(env, ro, base, faults) && LiveHere(env, ro, base, u) && PrimaryClear(ro, base, u)
    ensures Holds(env, ro, End(env, ro, base, faults), Joined(u))
  {
    if !Holds(env, ro, base, Joined(u)) {
      JoinedPlan(env, ro, base, u);
      var a :| a in PlanOf(env, ro, base) && a.kind == UpdateUserGroups && a.name == u.name;
      OneCallMakes(env, a, Joined(u), OnGroups(SetGroups(a.name, SetOf(a.groups))));
    }
    Ends(env, ro, base, faults, Joined(u));
  }

  lemma HomeEnds(env: Env, ro: Roster, base: World, faults: nat -> set<nat>, u: User)
    requires Clean(env, ro, base, faults) && LiveHere(env, ro, base, u) && u.WantsHome()
    ensures Holds(env, ro, End(env, ro, base, faults), HomeOwned(u))
    ensures Holds(env, ro, End(env, ro, base, faults), HomeMode(u))
  {
    var st := Collect(env.host, base, env.cls);
    var groups := UserGroups(SortBy(GroupKey, ro.groups), ro.users, u.name);
    CollectSees(env, base, u.name);
    if HomeDrifted(u, st.users[u.name]) {
      var a := UserAction(u, EnsureHome);
      assert a in PresentUserActions(u, groups, st.users[u.name]);
      PresentPlan(u, groups, st, env.cls, a);
      AccountPlanned(env, ro, base, u, a);
      HomeMakes(env, a, u);
    }
    Ends(env, ro, base, faults, HomeOwned(u));
    Ends(env, ro, base, faults, HomeMode(u));
  }

  // --- quotas ---

  /** A limit nobody will look at: the user has no account yet, declares no quota, and its uid has one. */
  ghost predicate QuotaResidue(env: Env, ro: Roster, base: World, u: User) {
    env.host.quotaEnforced && u in ro.users && u.status != Reserved && u.name !in base.users
    && u.quota == None && QuotaOf(base, env.host, u.uid) != 0
  }

  lemma QuotaCases(env: Env, ro: Roster, base: World, u: User)
    requires env.host.quotaEnforced && u in ro.users && u.status != Reserved && env.cls.Uid(u.uid) == Managed
    requires u.name in base.users ==> base.users[u.name].uid == u.uid
    ensures var acts := QuotaActions(u, Collect(env.host, base, env.cls));
            || QuotaResidue(env, ro, base, u)
            || QuotaOf(base, env.host, u.uid) == DeclaredLimit(u)
            || (u.quota == None && UserAction(u, ClearUserQuota) in acts)
            || (u.quota.Some? && UserAction(u, SetUserQuota).(quota := u.quota.value) in acts)
  {
    CollectSees(env, base, u.name);
  }

  lemma LimitEnds(env: Env, ro: Roster, base: World, faults: nat -> set<nat>, u: User)
    requires Clean(env, ro, base, faults) && u in ro.users && u.status != Reserved && env.host.quotaEnforced
    requires !QuotaResidue(env, ro, base, u)
    ensures Holds(env, ro, End(env, ro, base, faults), Limit(u))
  {
    var st := Collect(env.host, base, env.cls);
    UserClear(env, ro, base, u);
    QuotaCases(env, ro, base, u);
    if !Holds(env, ro, base, Limit(u)) {
      var a := if u.quota.None? then UserAction(u, ClearUserQuota)
               else UserAction(u, SetUserQuota).(quota := u.quota.value);
      assert a in ActionsFor(ro, st, env.cls)(u);
      Planned(env, ro, base, u, a);
      OneCallMakes(env, a, Limit(u), OnQuotas(if u.quota.None? then QuotaClear(u.uid) else QuotaSet(u.uid, a.quota)));
    }
    Ends(env, ro, base, faults, Limit(u));
  }

  // --- reserved and orphaned accounts ---

  lemma AbsentStays(env: Env, ro: Roster, base: World, faults: nat -> set<nat>, u: User)
    requires Clean(env, ro, base, faults) && u in ro.users && u.status == Reserved && u.name !in base.users
    ensures u.name !in End(env, ro, base, faults).users
  {
    forall v | v in ro.users && v.name == u.name ensures v.status == Reserved { SameUser(ro, env.cls, u, v); }
    Ends(env, ro, base, faults, Absent(u.name));
  }

  lemma OrphanEnds(env: Env, ro: Roster, base: World, faults: nat -> set<nat>, n: Name)
    requires Clean(env, ro, base, faults)
    requires n in base.users && env.cls.Uid(base.users[n].uid) == Managed && ValidName(n)
    requires forall u :: u in ro.users ==> u.name != n
    ensures !SmbOn(End(env, ro, base, faults), n)
  {
    var st, goal := Collect(env.host, base, env.cls), SmbIs(n, false);
    CollectSees(env, base, n);
    KeysOfExact(UserKey, ro.users, n);
    if SmbOn(base, n) {
      var a := Action(DisableUser, n, st.users[n].uid);
      assert a in OrphansFor(ro, st, env.cls)(n);
      OrphanPlanned(ro, st, env.cls, a);
      Parts(ro, st, env.cls, a);
      OneCallMakes(env, a, goal, OnSmb(SmbDisable(n)));
    }
    Ends(env, ro, base, faults, goal);
  }
}
