/** Where each planned action comes from: the roster entry it serves and what held of the host. */
module Fits {
  import opened Common
  import opened Names
  import opened IdRange
  import opened Roster
  import opened Validation
  import opened System
  import opened Reconcile
  import opened Executor
  import opened Agreement
  import Views

  ghost function WantedReaders(ro: Roster, g: Group): seq<Views.Reader> {
    WantReaders(ro.groups, GidTable(SortBy(GroupKey, ro.groups)), g)
  }

  /** The account is there and managed, under the uid the action names. */
  ghost predicate Present(env: Env, base: World, a: Action) {
    a.name in base.users && base.users[a.name].uid == a.id && env.cls.Uid(a.id) == Managed
  }

  ghost predicate ForGroup(g: Group, a: Action) {
    g.name == a.name && g.gid == a.id
  }

  ghost predicate ForUser(u: User, a: Action) {
    u.name == a.name && u.uid == a.id
  }

  /** The group an action names is managed: new, or there with that gid. */
  ghost predicate GroupFits(env: Env, base: World, g: Group, a: Action) {
    && ForGroup(g, a) && env.cls.Gid(g.gid) == Managed
    && (a.kind == CreateGroup ==>
        && a.dirPerm == g.anonymous.FolderPerm()
        && (a.name in base.groups ==> base.groups[a.name].gid == a.id))
    && (a.kind == SetGroupAdmins ==> a.groups == g.owners)
  }

  /** The declared user an account action serves, and the state it was decided in. */
  ghost predicate UserFits(env: Env, ro: Roster, base: World, u: User, a: Action) {
    && ForUser(u, a) && env.cls.Uid(u.uid) == Managed
    && match a.kind
       case CreateUser => u.status == Active && CreateFits(ro, base, u, a)
       case CreateUserDisabled => u.status == Disabled && CreateFits(ro, base, u, a)
       case UpdateUserGroups =>
         u.status != Reserved && Present(env, base, a)
         && SetOf(a.groups) == DeclaredGroups(ro, a.name) + ExtraMemberships(base, env.cls, a.name)
       case AddSmb => u.status == Active && Present(env, base, a) && a.name !in base.smb
       case EnableUser => u.status == Active && Present(env, base, a) && a.name in base.smb
       case DisableUser => u.status != Active && Present(env, base, a) && a.name in base.smb
       case EnsureHome => u.status != Reserved && Present(env, base, a) && u.WantsHome()
       case SetUserQuota => u.status != Reserved && u.quota == Some(a.quota)
       case ClearUserQuota => u.status != Reserved && u.quota == None
       case _ => false
  }

  ghost predicate CreateFits(ro: Roster, base: World, u: User, a: Action) {
    && a.name !in base.users && a.hasSmb == (a.name in base.smb) && a.home == u.WantsHome() && a.fullName == u.fullName
    && SetOf(a.groups) == DeclaredGroups(ro, a.name)
    && (a.name in base.groups ==> base.groups[a.name].gid == a.id)
  }

  ghost predicate OrphanFits(env: Env, ro: Roster, base: World, a: Action) {
    a.kind == DisableUser && Present(env, base, a) && a.name in base.smb
    && forall u :: u in ro.users ==> u.name != a.name
  }

  ghost predicate ActFits(env: Env, ro: Roster, base: World, a: Action) {
    if a.kind in {CreateGroup, SetGroupAdmins} then exists g :: g in ro.groups && GroupFits(env, base, g, a)
    else if a.kind == SetGroupReaders then
      exists g :: g in ro.groups && ForGroup(g, a) && env.cls.Gid(g.gid) == Managed && a.readers == WantedReaders(ro, g)
    else if ClassOf(a.kind) == Change then
      OrphanFits(env, ro, base, a) || exists u :: u in ro.users && UserFits(env, ro, base, u, a)
    else true
  }

  lemma GroupActionFits(env: Env, ro: Roster, base: World, g: Group, a: Action)
    requires g in ro.groups && a in GroupActions(Collect(env.host, base, env.cls), env.cls)(g)
    ensures ActFits(env, ro, base, a)
  {
    if a.kind == CreateGroup {
      CollectSees(env, base, g.name);
      assert GroupFits(env, base, g, a);
    }
  }

  lemma ReaderActionFits(env: Env, ro: Roster, base: World, g: Group, a: Action)
    requires g in ro.groups
    requires a in ReaderActions(ro.groups, GidTable(SortBy(GroupKey, ro.groups)),
                                Collect(env.host, base, env.cls), env.cls)(g)
    ensures ActFits(env, ro, base, a)
  {
    assert ForGroup(g, a) && a.readers == WantedReaders(ro, g);
  }

  lemma UserActionFits(env: Env, ro: Roster, base: World, u: User, a: Action)
    requires u in ro.users
    requires a in UserActions(SortBy(GroupKey, ro.groups), ro.users, Collect(env.host, base, env.cls), env.cls)(u)
    ensures ActFits(env, ro, base, a)
  {
    var st, gs := Collect(env.host, base, env.cls), SortBy(GroupKey, ro.groups);
    var groups := UserGroups(gs, ro.users, u.name);
    UserGroupsExact(ro, u.name);
    CollectSees(env, base, u.name);
    if a in AccountActions(u, groups, st, env.cls) {
      AccountActionFits(env, ro, base, u, groups, st, a);
    } else {
      assert a in QuotaActions(u, st);
      assert !Refused(AccountActions(u, groups, st, env.cls));
      assert UserFits(env, ro, base, u, a);
    }
  }

  lemma CreateActionFits(env: Env, ro: Roster, base: World, u: User, groups: seq<Name>, st: State, a: Action)
    requires u in ro.users && SetOf(groups) == DeclaredGroups(ro, u.name) && Seen(env, base, st, u.name)
    requires a in AccountActions(u, groups, st, env.cls) && ClassOf(a.kind) == Change && u.name !in st.users
    ensures ActFits(env, ro, base, a)
  {
    assert a == CreateAction(u, groups, st);
    assert UserFits(env, ro, base, u, a);
  }

  lemma PresentActionFits(env: Env, ro: Roster, base: World, u: User, groups: seq<Name>, st: State, a: Action)
    requires u in ro.users && SetOf(groups) == DeclaredGroups(ro, u.name) && Seen(env, base, st, u.name)
    requires a in AccountActions(u, groups, st, env.cls) && ClassOf(a.kind) == Change && u.name in st.users
    ensures ActFits(env, ro, base, a)
  {
    assert a in SmbActions(u, st) || a in PresentUserActions(u, groups, st.users[u.name]);
    assert SetOf(MergeGroups(groups, st.users[u.name].extraGroups)) == SetOf(groups) + st.users[u.name].extraGroups;
    assert UserFits(env, ro, base, u, a);
  }

  lemma AccountActionFits(env: Env, ro: Roster, base: World, u: User, groups: seq<Name>, st: State, a: Action)
    requires u in ro.users && SetOf(groups) == DeclaredGroups(ro, u.name)
    requires Seen(env, base, st, u.name)
    requires a in AccountActions(u, groups, st, env.cls)
    ensures ActFits(env, ro, base, a)
  {
    if ClassOf(a.kind) == Change {
      if u.name in st.users {
        PresentActionFits(env, ro, base, u, groups, st, a);
      } else {
        CreateActionFits(env, ro, base, u, groups, st, a);
      }
    }
  }

  lemma OrphanActionFits(env: Env, ro: Roster, base: World, n: Name, a: Action)
    requires a in OrphanUserActions(Collect(env.host, base, env.cls), env.cls, KeysOf(UserKey, ro.users))(n)
    ensures ActFits(env, ro, base, a)
  {
    CollectSees(env, base, n);
    KeysOfExact(UserKey, ro.users, n);
    if a.kind == DisableUser { assert OrphanFits(env, ro, base, a); }
  }

  lemma PartsFit(env: Env, ro: Roster, base: World, a: Action)
    ensures var st := Collect(env.host, base, env.cls);
            a in FolderPart(ro, st, env.cls) || a in ReaderPart(ro, st, env.cls) || a in OwnerPart(ro, st, env.cls)
            ==> ActFits(env, ro, base, a)
  {
    var st, gs := Collect(env.host, base, env.cls), SortBy(GroupKey, ro.groups);
    SortByMembers(GroupKey, ro.groups);
    var fa, fd := GroupActions(st, env.cls), OwnerActions(st, env.cls);
    var fb := ReaderActions(ro.groups, GidTable(gs), st, env.cls);
    FlatMember(fa, gs, a);
    FlatMember(fb, gs, a);
    FlatMember(fd, gs, a);
    if g :| g in gs && a in fa(g) {
      GroupActionFits(env, ro, base, g, a);
    } else if g :| g in gs && a in fb(g) {
      ReaderActionFits(env, ro, base, g, a);
    }
  }

  lemma UserPartFits(env: Env, ro: Roster, base: World, a: Action)
    requires a in UserPart(ro, Collect(env.host, base, env.cls), env.cls)
    ensures ActFits(env, ro, base, a)
  {
    var st, us := Collect(env.host, base, env.cls), SortBy(UserKey, ro.users);
    SortByMembers(UserKey, ro.users);
    var fc := UserActions(SortBy(GroupKey, ro.groups), ro.users, st, env.cls);
    FlatMember(fc, us, a);
    var u :| u in us && a in fc(u);
    UserActionFits(env, ro, base, u, a);
  }

  lemma OrphanUserPartFits(env: Env, ro: Roster, base: World, a: Action)
    requires a in OrphanUserPart(ro, Collect(env.host, base, env.cls), env.cls)
    ensures ActFits(env, ro, base, a)
  {
    var st := Collect(env.host, base, env.cls);
    var ff := OrphanUserActions(st, env.cls, KeysOf(UserKey, ro.users));
    FlatMember(ff, SortedNames(st.users.Keys), a);
    var n :| n in SortedNames(st.users.Keys) && a in ff(n);
    OrphanActionFits(env, ro, base, n, a);
  }

  lemma OrphanGroupPartFits(env: Env, ro: Roster, base: World, st: State, a: Action)
    requires a in OrphanGroupPart(ro, st, env.cls)
    ensures ActFits(env, ro, base, a)
  {
    FlatMember(OrphanGroupActions(st, env.cls, KeysOf(GroupKey, ro.groups)), SortedNames(st.groups.Keys), a);
  }

  /** Every planned action fits the roster and the host it was planned on. */
  lemma PlanFits(env: Env, ro: Roster, base: World, a: Action)
    requires a in Plan(ro, Collect(env.host, base, env.cls), env.cls)
    ensures ActFits(env, ro, base, a)
  {
    var st := Collect(env.host, base, env.cls);
    PartsFit(env, ro, base, a);
    if a in UserPart(ro, st, env.cls) {
      UserPartFits(env, ro, base, a);
    } else if a in OrphanUserPart(ro, st, env.cls) {
      OrphanUserPartFits(env, ro, base, a);
    } else if a in OrphanGroupPart(ro, st, env.cls) {
      OrphanGroupPartFits(env, ro, base, st, a);
    }
  }
}
