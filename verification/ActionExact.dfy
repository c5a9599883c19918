/** What one action does to the world when the environment fails no call of it, field by field
    (internal/executor/executor.go, one and createUser). */
module ActionExact {
  import opened Common
  import opened Names
  import opened System
  import opened Reconcile
  import opened Executor
  import opened Calls

  // --- the actions on what is there ---

  ghost function Failed(w: World): Run { Run(w, false) }

  ghost function Done(w: World): Run { Run(w, true) }

  /** The user is in exactly these groups, and nobody else's memberships change. */
  ghost function Rejoined(groups: map<Name, GroupEntry>, user: Name, joined: set<Name>): map<Name, GroupEntry> {
    map g | g in groups ::
      GroupEntry(groups[g].gid, (if g in joined then {user} else {}) + (groups[g].members - {user}), groups[g].admins)
  }

  lemma RejoinedIs(groups: map<Name, GroupEntry>, user: Name, joined: set<Name>)
    ensures Rejoined(groups, user, joined) == ReplaceMemberships(groups, user, joined)
  {
    var a, b := Rejoined(groups, user, joined), ReplaceMemberships(groups, user, joined);
    forall g | g in groups ensures a[g] == b[g] {
      assert a[g].members == b[g].members;
    }
  }

  /** SMB switched on or off, the password left alone. */
  ghost function Switched(w: World, n: Name, on: bool): Run {
    if n in w.smb then Done(w.(smb := w.smb[n := SmbAccount(w.smb[n].password, on)])) else Failed(w)
  }

  ghost predicate Simple(k: Kind) {
    k !in {CreateGroup, CreateUser, CreateUserDisabled, SetGroupReaders}
  }

  ghost function Effect(env: Env, w: World, a: Action): Run
    requires Simple(a.kind)
  {
    match a.kind
    case UpdateUserGroups =>
      if a.name in w.users && SetOf(a.groups) <= w.groups.Keys
      then Done(w.(groups := Rejoined(w.groups, a.name, SetOf(a.groups)))) else Failed(w)
    case SetGroupAdmins =>
      if !env.host.gshadow then Done(w)
      else if a.name in w.groups && SetOf(a.groups) <= w.users.Keys
      then
        var g := w.groups[a.name];
        Done(w.(groups := w.groups[a.name := GroupEntry(g.gid, g.members, SortBy(Self, a.groups))]))
      else Failed(w)
    case AddSmb =>
      if env.deps.seed && a.name in w.users
      then Done(w.(smb := w.smb[a.name := SmbAccount(Derived(a.name), true)])) else Failed(w)
    case EnableUser => Switched(w, a.name, true)
    case DisableUser => Switched(w, a.name, false)
    case EnsureHome => Done(w.(homes := w.homes[a.name := Dir(64 * 7, a.id, a.id)]))
    case SetUserQuota =>
      if env.host.quotaEnforced
      then Done(w.(quotas := w.quotas[a.id := if a.quota == 0 then 1 else a.quota])) else Failed(w)
    case ClearUserQuota => if env.host.quotaEnforced then Done(w.(quotas := w.quotas - {a.id})) else Failed(w)
    case _ => Done(w)
  }

  lemma RegisterExact(env: Env, w: World, a: Action)
    requires a.kind == AddSmb
    ensures One(env, w, a, {}) == Effect(env, w, a)
  {
    var first, last := RegisterCalls(env.deps, a.name), OnSmb(SmbEnable(a.name));
    CallsSplit(w, first, [last], {}, 0);
    OneCall(w, first[0], 0);
    if env.deps.seed && a.name in w.users {
      var v := Exec(w, first[0]).value;
      OneCall(v, last, 1);
      assert Exec(v, last).value.smb == w.smb[a.name := SmbAccount(Derived(a.name), true)];
    }
  }

  lemma GroupCallExact(env: Env, w: World, a: Action)
    requires a.kind in {UpdateUserGroups, SetGroupAdmins}
    ensures One(env, w, a, {}) == Effect(env, w, a)
  {
    if a.kind == UpdateUserGroups {
      OneCall(w, OnGroups(SetGroups(a.name, SetOf(a.groups))), 0);
      RejoinedIs(w.groups, a.name, SetOf(a.groups));
    } else if env.host.gshadow {
      SortByMembers(Self, a.groups);
      assert SetOf(SortBy(Self, a.groups)) == SetOf(a.groups);
      OneCall(w, OnGroups(SetAdmins(a.name, SortBy(Self, a.groups))), 0);
    }
  }

  lemma OtherCallExact(env: Env, w: World, a: Action)
    requires a.kind in {EnableUser, DisableUser, SetUserQuota, ClearUserQuota}
    ensures One(env, w, a, {}) == Effect(env, w, a)
  {
    OneCall(w, Script(env, w, a)[0], 0);
  }

  /** Each action on what is there does this, and fails exactly so, without effect. */
  lemma EffectExact(env: Env, w: World, a: Action)
    requires Simple(a.kind)
    ensures One(env, w, a, {}) == Effect(env, w, a)
  {
    match a.kind
    case UpdateUserGroups => GroupCallExact(env, w, a);
    case SetGroupAdmins => GroupCallExact(env, w, a);
    case AddSmb => RegisterExact(env, w, a);
    case EnableUser => OtherCallExact(env, w, a);
    case DisableUser => OtherCallExact(env, w, a);
    case EnsureHome => HomeMade(w, a.name, a.id, 0);
    case SetUserQuota => OtherCallExact(env, w, a);
    case ClearUserQuota => OtherCallExact(env, w, a);
    case _ =>
  }

  // --- the creation of a group ---

  /** The group, where there is none, and unless the run owns only the POSIX half its folder. */
  lemma GroupMadeExact(env: Env, w: World, a: Action)
    requires a.kind == CreateGroup
    ensures One(env, w, a, {}) ==
              if a.name !in w.groups && GidInUse(w.groups, a.id) then Failed(w)
              else
                var groups := if a.name in w.groups then w.groups else w.groups[a.name := GroupEntry(a.id, {}, [])];
                var owner := if a.name in w.folders then w.folders[a.name].uid else 0;
                var mode := if a.dirPerm == 0 then 512 * 2 + 64 * 7 + 8 * 7 else a.dirPerm;
                var folder := Dir(mode, owner, a.id);
                Done(w.(groups := groups,
                        folders := if env.deps.posixOnly then w.folders else w.folders[a.name := folder]))
  {
    var c := OnGroups(EnsureGroup(a.name, a.id));
    var rest := if env.deps.posixOnly then [] else FolderCalls(a.name, a.id, a.dirPerm);
    CallsSplit(w, [c], rest, {}, 0);
    OneCall(w, c, 0);
    if Exec(w, c).Some? && !env.deps.posixOnly {
      FolderMade(Exec(w, c).value, a.name, a.id, a.dirPerm, 1);
    }
  }

  // --- the creation of an account ---

  /** The account as it is made, or as it was: with its password locked. */
  ghost function Locked(w: World, a: Action): System.Account {
    if a.name in w.users then w.users[a.name].(locked := true) else System.Account(a.id, a.id, a.fullName, true)
  }

  ghost function OwnGroup(w: World, a: Action): map<Name, GroupEntry> {
    if a.name in w.users || a.name in w.groups then w.groups else w.groups[a.name := GroupEntry(a.id, {}, [])]
  }

  /** An SMB account that is there keeps its password. */
  ghost function Served(w: World, a: Action): map<Name, SmbAccount>
    requires a.hasSmb ==> a.name in w.smb
  {
    w.smb[a.name := SmbAccount(if a.hasSmb then w.smb[a.name].password else Derived(a.name), a.kind == CreateUser)]
  }

  lemma AccountMade(w: World, a: Action, at: nat)
    requires AccountFree(w, a.name, a.id)
    ensures var users := if a.name in w.users then w.users
                         else w.users[a.name := System.Account(a.id, a.id, a.fullName, false)];
            RunCalls(w, AccountCalls(a), {}, at) == Done(w.(users := users, groups := OwnGroup(w, a)))
  {
    var c, d := OnGroups(EnsurePrivateGroup(a.name, a.id)), OnUsers(EnsureAccount(a.name, a.id, a.fullName));
    assert AccountCalls(a) == [c] + [d];
    CallsSplit(w, [c], [d], {}, at);
    OneCall(w, c, at);
    var w1 := Exec(w, c).value;
    OneCall(w1, d, at + 1);
    if a.name !in w.users && a.name !in w.groups { assert w1.groups[a.name].gid == a.id; }
  }

  lemma HomePartMade(deps: Deps, w: World, a: Action, at: nat)
    ensures var homes := if a.home && !deps.posixOnly then w.homes[a.name := Dir(64 * 7, a.id, a.id)] else w.homes;
            RunCalls(w, HomePart(deps, a), {}, at) == Done(w.(homes := homes))
  {
    if a.home && !deps.posixOnly { HomeMade(w, a.name, a.id, at); }
  }

  lemma JoinMade(w: World, a: Action, at: nat)
    requires a.name in w.users && SetOf(a.groups) <= w.groups.Keys
    ensures RunCalls(w, JoinCalls(a), {}, at)
            == Done(w.(users := w.users[a.name := w.users[a.name].(locked := true)],
                       groups := Rejoined(w.groups, a.name, SetOf(a.groups))))
  {
    var c, d := OnGroups(SetGroups(a.name, SetOf(a.groups))), OnUsers(LockPassword(a.name));
    assert JoinCalls(a) == [c] + [d];
    CallsSplit(w, [c], [d], {}, at);
    OneCall(w, c, at);
    OneCall(Exec(w, c).value, d, at + 1);
    RejoinedIs(w.groups, a.name, SetOf(a.groups));
  }

  lemma SmbMade(deps: Deps, w: World, a: Action, at: nat)
    requires a.name in w.users && Registrable(deps, w, a) && a.kind in {CreateUser, CreateUserDisabled}
    ensures RunCalls(w, SmbCalls(deps, a, a.kind == CreateUser), {}, at)
            == Done(w.(smb := if deps.posixOnly then w.smb else Served(w, a)))
  {
    if !deps.posixOnly {
      var last := OnSmb(if a.kind == CreateUser then SmbEnable(a.name) else SmbDisable(a.name));
      var first := if a.hasSmb then [] else RegisterCalls(deps, a.name);
      CallsSplit(w, first, [last], {}, at);
      if a.hasSmb {
        OneCall(w, last, at);
      } else {
        OneCall(w, first[0], at);
        var v := Exec(w, first[0]).value;
        OneCall(v, last, at + 1);
        assert Exec(v, last).value.smb == Served(w, a);
      }
    }
  }

  lemma RestMade(deps: Deps, w: World, a: Action, at: nat)
    requires a.name in w.users && SetOf(a.groups) <= w.groups.Keys && Registrable(deps, w, a)
    requires a.kind in {CreateUser, CreateUserDisabled}
    ensures RunCalls(w, HomePart(deps, a) + (JoinCalls(a) + SmbCalls(deps, a, a.kind == CreateUser)), {}, at)
            == Done(w.(users := w.users[a.name := w.users[a.name].(locked := true)],
                       groups := Rejoined(w.groups, a.name, SetOf(a.groups)),
                       homes := if a.home && !deps.posixOnly then w.homes[a.name := Dir(64 * 7, a.id, a.id)]
                                else w.homes,
                       smb := if deps.posixOnly then w.smb else Served(w, a)))
  {
    var homes, join, smb := HomePart(deps, a), JoinCalls(a), SmbCalls(deps, a, a.kind == CreateUser);
    CallsSplit(w, homes, join + smb, {}, at);
    HomePartMade(deps, w, a, at);
    var w2 := RunCalls(w, homes, {}, at).w;
    CallsSplit(w2, join, smb, {}, at + |homes|);
    JoinMade(w2, a, at + |homes|);
    SmbMade(deps, RunCalls(w2, join, {}, at + |homes|).w, a, at + |homes| + |join|);
  }

  /** The world once the account is there, not yet locked. */
  ghost function WithAccount(w: World, a: Action): World {
    var users := if a.name in w.users then w.users
                 else w.users[a.name := System.Account(a.id, a.id, a.fullName, false)];
    w.(users := users, groups := OwnGroup(w, a))
  }

  lemma CreateRun(env: Env, w: World, a: Action)
    requires a.kind in {CreateUser, CreateUserDisabled} && AccountFree(w, a.name, a.id)
    ensures One(env, w, a, {}) ==
              RunCalls(WithAccount(w, a),
                       HomePart(env.deps, a) + (JoinCalls(a) + SmbCalls(env.deps, a, a.kind == CreateUser)), {}, 2)
  {
    var deps, enable := env.deps, a.kind == CreateUser;
    CreateInParts(deps, a, enable);
    CallsSplit(w, AccountCalls(a), HomePart(deps, a) + (JoinCalls(a) + SmbCalls(deps, a, enable)), {}, 0);
    AccountMade(w, a, 0);
  }

  lemma LockedThen(w: World, a: Action)
    ensures var v := WithAccount(w, a);
            && a.name in v.users && v.users[a.name := v.users[a.name].(locked := true)]
                                    == w.users[a.name := Locked(w, a)]
            && v.groups == OwnGroup(w, a) && v.groups.Keys >= w.groups.Keys
            && v.homes == w.homes && v.smb == w.smb
  {
  }

  lemma CreateKeys(w: World, a: Action)
    requires AccountFree(w, a.name, a.id)
    ensures WithAccount(w, a).groups.Keys == GroupsThen(w, a.name)
  {
    AccountMade(w, a, 0);
    AccountCallsOk(w, a, 0);
  }

  /** A creation that can be done makes the account with its own group, locked, in exactly its groups; its home,
      if it wants one; and its SMB account, on or off, with the derived password unless it was there. A run that
      owns only the POSIX half leaves out home and SMB. */
  lemma CreateExact(env: Env, w: World, a: Action)
    requires a.kind in {CreateUser, CreateUserDisabled} && AccountFree(w, a.name, a.id)
    requires SetOf(a.groups) <= GroupsThen(w, a.name) && Registrable(env.deps, w, a)
    ensures One(env, w, a, {}) ==
              Done(w.(users := w.users[a.name := Locked(w, a)],
                      groups := Rejoined(OwnGroup(w, a), a.name, SetOf(a.groups)),
                      homes := if a.home && !env.deps.posixOnly then w.homes[a.name := Dir(64 * 7, a.id, a.id)]
                               else w.homes,
                      smb := if env.deps.posixOnly then w.smb else Served(w, a)))
  {
    CreateRun(env, w, a);
    LockedThen(w, a);
    CreateKeys(w, a);
    RestMade(env.deps, WithAccount(w, a), a, 2);
  }
}
