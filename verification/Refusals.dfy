/** What a plan refuses, read off the host and the roster. */
module Refusals {
  import opened Common
  import opened Names
  import opened IdRange
  import opened Roster
  import opened System
  import opened Reconcile
  import opened Executor
  import opened Agreement
  import opened Goals
  import opened Phases
  import opened Executable
  import opened Convergence

  /** The name is there under another gid, or is free with the gid held. */
  ghost predicate GroupRefused(base: World, h: Group) {
    if h.name in base.groups then base.groups[h.name].gid != h.gid else GidInUse(base.groups, h.gid)
  }

  /** A declared user whose account can be created: the name and the uid are free, and a group of that name,
      if there is one, has the uid for its gid. */
  ghost predicate Created(base: World, u: User) {
    && u.status != Reserved && u.name !in base.users && !UidInUse(base.users, u.uid)
    && (u.name in base.groups ==> base.groups[u.name].gid == u.uid)
  }

  /** A managed account has another uid; or, unless the user is reserved, an unmanaged one has its name, or
      there is none and it cannot be created. */
  ghost predicate UserRefused(env: Env, base: World, u: User) {
    if u.name in base.users && (u.status != Reserved || env.cls.Uid(base.users[u.name].uid) == Managed)
    then base.users[u.name].uid != u.uid
    else u.status != Reserved && !Created(base, u)
  }

  ghost predicate Refuses(acts: seq<Action>, kind: Kind, n: Name) {
    exists a :: a in acts && a.kind == kind && a.name == n
  }

  // --- where refusals come from ---

  lemma PresentNames(u: User, groups: seq<Name>, cur: UserState, a: Action)
    requires a in PresentUserActions(u, groups, cur)
    ensures a.name == u.name && a.kind in {UpdateUserGroups, EnsureHome}
  {
  }

  lemma AccountNames(u: User, groups: seq<Name>, st: State, cls: Classifier, a: Action)
    requires a in AccountActions(u, groups, st, cls)
    ensures a.name == u.name && a.kind != RefuseGroup
  {
    if u.name in st.users && u.status != Reserved && a in PresentUserActions(u, groups, st.users[u.name]) {
      PresentNames(u, groups, st.users[u.name], a);
    }
  }

  lemma QuotaNames(u: User, st: State, a: Action)
    requires a in QuotaActions(u, st)
    ensures a.name == u.name && a.kind in {SetUserQuota, ClearUserQuota}
  {
  }

  lemma UserNames(ro: Roster, st: State, cls: Classifier, u: User, a: Action)
    requires a in ActionsFor(ro, st, cls)(u)
    ensures a.name == u.name && a.kind != RefuseGroup
  {
    var groups := UserGroups(SortBy(GroupKey, ro.groups), ro.users, u.name);
    if a in AccountActions(u, groups, st, cls) {
      AccountNames(u, groups, st, cls, a);
    } else {
      QuotaNames(u, st, a);
    }
  }

  lemma UsersNoGroup(ro: Roster, st: State, cls: Classifier, a: Action)
    requires a in UserPart(ro, st, cls)
    ensures a.kind != RefuseGroup
  {
    UserPlanned(ro, st, cls, a);
    var u :| u in ro.users && a in ActionsFor(ro, st, cls)(u);
    UserNames(ro, st, cls, u, a);
  }

  lemma FolderNames(st: State, cls: Classifier, g: Group, a: Action)
    requires a in GroupActions(st, cls)(g)
    ensures a.name == g.name && a.kind in {CreateGroup, RefuseGroup}
  {
  }

  /** Refusals of groups are in the first part, those of users in the third. */
  lemma RefusalParts(ro: Roster, st: State, cls: Classifier, a: Action)
    ensures a in Plan(ro, st, cls) && a.kind == RefuseGroup <==> a in FolderPart(ro, st, cls) && a.kind == RefuseGroup
    ensures a in Plan(ro, st, cls) && a.kind == RefuseUser <==> a in UserPart(ro, st, cls) && a.kind == RefuseUser
  {
    Parts(ro, st, cls, a);
    FolderPlanned(ro, st, cls, a);
    if g :| g in ro.groups && a in GroupActions(st, cls)(g) { FolderNames(st, cls, g, a); }
    if a in UserPart(ro, st, cls) { UsersNoGroup(ro, st, cls, a); }
    if a in ReaderPart(ro, st, cls) || a in OwnerPart(ro, st, cls) || a in OrphanUserPart(ro, st, cls) {
      LateOnly(ro, st, cls, a);
    }
    if a in OrphanGroupPart(ro, st, cls) { GroupsOnlyNoticed(ro, st, cls, a); }
  }

  // --- groups ---

  lemma GroupTurnedDown(env: Env, base: World, h: Group)
    requires env.cls.Gid(h.gid) == Managed
    ensures (exists a :: a in GroupActions(Collect(env.host, base, env.cls), env.cls)(h) && a.kind == RefuseGroup)
            <==> GroupRefused(base, h)
  {
    var st := Collect(env.host, base, env.cls);
    var acts := GroupActions(st, env.cls)(h);
    CollectSees(env, base, h.name);
    HeldSeen(env, base, h.gid, h.name);
    if h.name in st.groups { assert st.groups[h.name] == CollectGroup(env.host, base, h.name); }
    assert |acts| <= 1 && (acts != [] ==> acts[0] in acts);
  }

  /** A declared group is refused exactly if its name is there under another gid, or free with the gid held. */
  lemma GroupRefusedExactly(env: Env, ro: Roster, base: World, h: Group)
    requires Ready(ro, env.cls) && h in ro.groups
    ensures Refuses(PlanOf(env, ro, base), RefuseGroup, h.name) <==> GroupRefused(base, h)
  {
    var st := Collect(env.host, base, env.cls);
    GroupTurnedDown(env, base, h);
    forall a
      ensures a in PlanOf(env, ro, base) && a.kind == RefuseGroup && a.name == h.name
              <==> a in GroupActions(st, env.cls)(h) && a.kind == RefuseGroup
    {
      RefusalParts(ro, st, env.cls, a);
      FolderPlanned(ro, st, env.cls, a);
      forall g | g in ro.groups && a in GroupActions(st, env.cls)(g)
        ensures a.name == g.name && (g.name == h.name ==> g == h)
      {
        FolderNames(st, env.cls, g, a);
        if g.name == h.name { SameGroup(ro, env.cls, g, h); }
      }
    }
  }

  // --- users ---

  lemma OneRefusal(u: User, groups: seq<Name>, st: State, cls: Classifier)
    requires cls.Uid(u.uid) == Managed
    ensures (exists a :: a in AccountActions(u, groups, st, cls) && a.kind == RefuseUser)
            <==> if u.name in st.users then st.users[u.name].uid != u.uid
                 else u.status != Reserved && CreateRefusal(u, st) != NoCause
  {
    var acts := AccountActions(u, groups, st, cls);
    if u.name in st.users && st.users[u.name].uid == u.uid {
      assert forall a :: a in PresentUserActions(u, groups, st.users[u.name]) ==> a.kind != RefuseUser;
      assert forall a :: a in SmbActions(u, st) ==> a.kind != RefuseUser;
    } else if |acts| == 1 {
      assert acts[0] in acts;
    }
  }

  lemma CreateRefused(env: Env, base: World, u: User)
    requires env.cls.Uid(u.uid) == Managed && Windows(env.cls) && u.status != Reserved && u.name !in base.users
    ensures CreateRefusal(u, Collect(env.host, base, env.cls)) == NoCause <==> Created(base, u)
  {
    CollectSees(env, base, u.name);
    HeldSeen(env, base, u.uid, u.name);
    WindowsDisjoint(env.cls, u.uid);
  }

  lemma UserTurnedDown(env: Env, base: World, u: User, groups: seq<Name>)
    requires env.cls.Uid(u.uid) == Managed && Windows(env.cls)
    ensures (exists a ::
              a in AccountActions(u, groups, Collect(env.host, base, env.cls), env.cls) && a.kind == RefuseUser)
            <==> UserRefused(env, base, u)
  {
    CollectSees(env, base, u.name);
    OneRefusal(u, groups, Collect(env.host, base, env.cls), env.cls);
    if u.status != Reserved && u.name !in base.users { CreateRefused(env, base, u); }
  }

  lemma RefusesOwn(ro: Roster, st: State, cls: Classifier, u: User, a: Action)
    requires a.kind == RefuseUser
    ensures a in ActionsFor(ro, st, cls)(u)
            <==> a in AccountActions(u, UserGroups(SortBy(GroupKey, ro.groups), ro.users, u.name), st, cls)
  {
    if a in QuotaActions(u, st) { QuotaNames(u, st, a); }
  }

  lemma OwnRefusal(ro: Roster, st: State, cls: Classifier, u: User, a: Action)
    requires Ready(ro, cls) && u in ro.users && a.kind == RefuseUser
    ensures a in UserPart(ro, st, cls) && a.name == u.name
            <==> a in AccountActions(u, UserGroups(SortBy(GroupKey, ro.groups), ro.users, u.name), st, cls)
  {
    UserPlanned(ro, st, cls, a);
    RefusesOwn(ro, st, cls, u, a);
    if v :| v in ro.users && a in ActionsFor(ro, st, cls)(v) {
      UserNames(ro, st, cls, v, a);
      if v.name == u.name { SameUser(ro, cls, v, u); }
    }
    if a in ActionsFor(ro, st, cls)(u) { UserNames(ro, st, cls, u, a); }
  }

  lemma UserRefusals(ro: Roster, st: State, cls: Classifier, u: User)
    requires Ready(ro, cls) && u in ro.users
    ensures var acts := AccountActions(u, UserGroups(SortBy(GroupKey, ro.groups), ro.users, u.name), st, cls);
            Refuses(Plan(ro, st, cls), RefuseUser, u.name) <==> exists a :: a in acts && a.kind == RefuseUser
  {
    var acts := AccountActions(u, UserGroups(SortBy(GroupKey, ro.groups), ro.users, u.name), st, cls);
    if a :| a in Plan(ro, st, cls) && a.kind == RefuseUser && a.name == u.name {
      RefusalParts(ro, st, cls, a);
      OwnRefusal(ro, st, cls, u, a);
    }
    if a :| a in acts && a.kind == RefuseUser {
      RefusalParts(ro, st, cls, a);
      OwnRefusal(ro, st, cls, u, a);
    }
  }

  /** A declared user is refused exactly as UserRefused says. */
  lemma UserRefusedExactly(env: Env, ro: Roster, base: World, u: User)
    requires Ready(ro, env.cls) && Windows(env.cls) && u in ro.users
    ensures Refuses(PlanOf(env, ro, base), RefuseUser, u.name) <==> UserRefused(env, base, u)
  {
    UserTurnedDown(env, base, u, UserGroups(SortBy(GroupKey, ro.groups), ro.users, u.name));
    UserRefusals(ro, Collect(env.host, base, env.cls), env.cls, u);
  }

  ghost predicate UserNamed(ro: Roster, n: Name) {
    exists u :: u in ro.users && u.name == n
  }

  /** Every refusal names a declared group or a declared user. */
  lemma Whose(ro: Roster, st: State, cls: Classifier, a: Action)
    requires a in Plan(ro, st, cls) && ClassOf(a.kind) == Refuse
    ensures (a.kind == RefuseGroup && GroupNamed(ro, a.name)) || (a.kind == RefuseUser && UserNamed(ro, a.name))
  {
    RefusalParts(ro, st, cls, a);
    FolderPlanned(ro, st, cls, a);
    UserPlanned(ro, st, cls, a);
    if g :| g in ro.groups && a in GroupActions(st, cls)(g) {
      FolderNames(st, cls, g, a);
    } else if u :| u in ro.users && a in ActionsFor(ro, st, cls)(u) {
      UserNames(ro, st, cls, u, a);
    }
  }

  /** Where refusals of a kind name entries of a list only, there are none exactly if no entry is refused. */
  lemma NoneOf<T(!new)>(acts: seq<Action>, kind: Kind, s: seq<T>, key: T -> Name, bad: T -> bool)
    requires forall x :: x in s ==> (Refuses(acts, kind, key(x)) <==> bad(x))
    requires forall a :: a in acts && a.kind == kind ==> exists x :: x in s && key(x) == a.name
    ensures (forall a :: a in acts ==> a.kind != kind) <==> forall x :: x in s ==> !bad(x)
  {
    if a :| a in acts && a.kind == kind {
      var x :| x in s && key(x) == a.name;
      assert Refuses(acts, kind, key(x));
    }
  }

  lemma NoGroupRefused(env: Env, ro: Roster, base: World)
    requires Ready(ro, env.cls)
    ensures (forall a :: a in PlanOf(env, ro, base) ==> a.kind != RefuseGroup)
            <==> forall h :: h in ro.groups ==> !GroupRefused(base, h)
  {
    var bad := (h: Group) => GroupRefused(base, h);
    forall h | h in ro.groups ensures Refuses(PlanOf(env, ro, base), RefuseGroup, GroupKey(h)) <==> bad(h) {
      GroupRefusedExactly(env, ro, base, h);
    }
    forall a | a in PlanOf(env, ro, base) && a.kind == RefuseGroup
      ensures exists h :: h in ro.groups && GroupKey(h) == a.name
    {
      Whose(ro, Collect(env.host, base, env.cls), env.cls, a);
    }
    NoneOf(PlanOf(env, ro, base), RefuseGroup, ro.groups, GroupKey, bad);
  }

  lemma UsersNamed(env: Env, ro: Roster, base: World)
    ensures forall a :: a in PlanOf(env, ro, base) && a.kind == RefuseUser ==>
              exists u :: u in ro.users && UserKey(u) == a.name
  {
    forall a | a in PlanOf(env, ro, base) && a.kind == RefuseUser
      ensures exists u :: u in ro.users && UserKey(u) == a.name
    {
      Whose(ro, Collect(env.host, base, env.cls), env.cls, a);
    }
  }

  lemma UsersRefused(env: Env, ro: Roster, base: World)
    requires Ready(ro, env.cls) && Windows(env.cls)
    ensures forall u :: u in ro.users ==>
              (Refuses(PlanOf(env, ro, base), RefuseUser, UserKey(u)) <==> UserRefused(env, base, u))
  {
    forall u | u in ro.users
      ensures Refuses(PlanOf(env, ro, base), RefuseUser, UserKey(u)) <==> UserRefused(env, base, u)
    {
      UserRefusedExactly(env, ro, base, u);
    }
  }

  lemma NoUserRefused(env: Env, ro: Roster, base: World)
    requires Ready(ro, env.cls) && Windows(env.cls)
    ensures (forall a :: a in PlanOf(env, ro, base) ==> a.kind != RefuseUser)
            <==> forall u :: u in ro.users ==> !UserRefused(env, base, u)
  {
    UsersNamed(env, ro, base);
    UsersRefused(env, ro, base);
    NoneOf(PlanOf(env, ro, base), RefuseUser, ro.users, UserKey, (u: User) => UserRefused(env, base, u));
  }

  lemma TwoKinds(acts: seq<Action>)
    ensures NoRefusal(acts) <==>
              (forall a :: a in acts ==> a.kind != RefuseGroup) && forall a :: a in acts ==> a.kind != RefuseUser
  {
  }

  /** A plan refuses nothing exactly if no declared group and no declared user is refused. */
  lemma RefusalFree(env: Env, ro: Roster, base: World)
    requires Ready(ro, env.cls) && Windows(env.cls)
    ensures NoRefusal(PlanOf(env, ro, base))
            <==> (forall h :: h in ro.groups ==> !GroupRefused(base, h))
                 && forall u :: u in ro.users ==> !UserRefused(env, base, u)
  {
    NoGroupRefused(env, ro, base);
    NoUserRefused(env, ro, base);
    TwoKinds(PlanOf(env, ro, base));
  }
}
