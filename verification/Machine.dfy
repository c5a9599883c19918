/** The executor as it runs: a host changed call by call, action by action (internal/executor/executor.go,
    internal/provider/shadowutils.go, internal/fsops/fsops.go, internal/samba/smbpasswd.go). */
module Machine {
  import opened Common
  import opened Names
  import opened IdRange
  import opened System
  import opened Reconcile
  import opened Executor
  import Views
  import ViewSystem

  /** What one call does: nothing when the environment fails it, else what the call means. */
  ghost predicate Did(before: World, c: Call, failed: bool, after: World, ok: bool) {
    if failed then after == before && !ok
    else match Exec(before, c)
      case None => after == before && !ok
      case Some(next) => after == next && ok
  }

  /** A run is on course: what is left of the calls, run from here, ends as the whole run does. */
  ghost predicate OnCourse(start: World, cs: seq<Call>, faults: set<nat>, here: World, at: nat) {
    at <= |cs| && RunCalls(start, cs, faults, 0) == RunCalls(here, cs[at..], faults, at)
  }

  lemma NextCall(start: World, cs: seq<Call>, faults: set<nat>, here: World, at: nat, c: Call, after: World, ok: bool)
    requires OnCourse(start, cs, faults, here, at) && at < |cs| && cs[at] == c && !Ignored(c)
    requires Did(here, c, at in faults, after, ok)
    ensures ok ==> OnCourse(start, cs, faults, after, at + 1)
    ensures !ok ==> RunCalls(start, cs, faults, 0) == Run(after, false)
  {
    assert cs[at..][1..] == cs[at + 1..];
  }

  lemma Finished(start: World, cs: seq<Call>, faults: set<nat>, here: World, at: nat)
    requires OnCourse(start, cs, faults, here, at) && at == |cs|
    ensures RunCalls(start, cs, faults, 0) == Run(here, true)
  {
    assert cs[at..] == [];
  }

  class Machine {
    var users: map<Name, Account>
    var groups: map<Name, GroupEntry>
    var smb: map<Name, SmbAccount>
    var homes: map<Name, Dir>
    var folders: map<Name, Dir>
    var quotas: map<Id, Bytes>
    const views: ViewSystem.Namespace
    var faults: set<nat>   // the calls of the current action the environment fails, by number
    var at: nat            // calls the current action has made

    constructor (w: World)
      ensures Value() == w && fresh(views)
    {
      users, groups, smb, homes, folders, quotas := w.users, w.groups, w.smb, w.homes, w.folders, w.quotas;
      views := new ViewSystem.Namespace(w.ns);
      faults, at := {}, 0;
    }

    function Value(): World
      reads this, views
    {
      World(users, groups, smb, homes, folders, quotas, views.Value())
    }

    // --- account calls ---

    /** groupadd, unless the group (or, for a private group, the account) is there. */
    method AddGroup(name: Name, gid: Id, forUser: bool) returns (ok: bool)
      modifies this`at, this`groups
      ensures at == old(at) + 1
      ensures Did(old(Value()), OnGroups(if forUser then EnsurePrivateGroup(name, gid) else EnsureGroup(name, gid)),
                  old(at) in faults, Value(), ok)
    {
      ok := at !in faults;
      at := at + 1;
      if !ok || (forUser && name in users) || name in groups { return; }
      var held := GidHeldBy(gid);
      if held { return false; }
      groups := groups[name := GroupEntry(gid, {}, [])];
    }

    /** Does some group hold gid? groupadd looks through the database. */
    method GidHeldBy(gid: Id) returns (held: bool)
      ensures held <==> GidInUse(groups, gid)
    {
      var todo := groups.Keys;
      while todo != {}
        invariant todo <= groups.Keys && forall g :: g in groups && g !in todo ==> groups[g].gid != gid
        decreases |todo|
      {
        var g :| g in todo;
        if groups[g].gid == gid { return true; }
        todo := todo - {g};
      }
      return false;
    }

    method UidHeldBy(uid: Id) returns (held: bool)
      ensures held <==> UidInUse(users, uid)
    {
      var todo := users.Keys;
      while todo != {}
        invariant todo <= users.Keys && forall n :: n in users && n !in todo ==> users[n].uid != uid
        decreases |todo|
      {
        var n :| n in todo;
        if users[n].uid == uid { return true; }
        todo := todo - {n};
      }
      return false;
    }

    /** usermod -G: the user leaves every group not listed and joins every group listed. */
    method SetSupplementaryGroups(user: Name, joined: set<Name>) returns (ok: bool)
      modifies this`at, this`groups
      ensures at == old(at) + 1
      ensures Did(old(Value()), OnGroups(SetGroups(user, joined)), old(at) in faults, Value(), ok)
    {
      ok := at !in faults && user in users && joined <= groups.Keys;
      at := at + 1;
      if !ok { return; }
      var was, todo := groups, groups.Keys;
      while todo != {}
        invariant groups.Keys == was.Keys && todo <= was.Keys
        invariant forall g :: g in was ==>
                    groups[g] == if g in todo then was[g] else ReplaceMemberships(was, user, joined)[g]
        decreases |todo|
        modifies this`groups
      {
        var g :| g in todo;
        var members := if g in joined then groups[g].members + {user} else groups[g].members - {user};
        groups := groups[g := groups[g].(members := members)];
        todo := todo - {g};
      }
      assert groups == ReplaceMemberships(was, user, joined);
    }

    /** gpasswd -A, with the names sorted. */
    method SetGroupAdmins(group: Name, admins: seq<Name>) returns (ok: bool)
      modifies this`at, this`groups
      ensures at == old(at) + 1
      ensures Did(old(Value()), OnGroups(SetAdmins(group, admins)), old(at) in faults, Value(), ok)
    {
      ok := at !in faults && group in groups && SetOf(admins) <= users.Keys;
      at := at + 1;
      if ok { groups := groups[group := groups[group].(admins := admins)]; }
    }

    /** useradd, unless the account is there. */
    method AddAccount(name: Name, uid: Id, fullName: string) returns (ok: bool)
      modifies this`at, this`users
      ensures at == old(at) + 1
      ensures Did(old(Value()), OnUsers(EnsureAccount(name, uid, fullName)), old(at) in faults, Value(), ok)
    {
      ok := at !in faults;
      at := at + 1;
      if !ok || name in users { return; }
      var held := UidHeldBy(uid);
      var primary := GidHeldBy(uid);
      if held || !primary { return false; }
      users := users[name := Account(uid, uid, fullName, false)];
    }

    method LockPassword(name: Name) returns (ok: bool)
      modifies this`at, this`users
      ensures at == old(at) + 1
      ensures Did(old(Value()), OnUsers(Executor.LockPassword(name)), old(at) in faults, Value(), ok)
    {
      ok := at !in faults && name in users;
      at := at + 1;
      if ok { users := users[name := users[name].(locked := true)]; }
    }

    // --- directories ---

    method Folder(c: FolderCall) returns (ok: bool)
      modifies this`at, this`folders
      ensures at == old(at) + 1
      ensures Did(old(Value()), OnFolders(c), old(at) in faults, Value(), ok)
    {
      ok := at !in faults && (c.MkFolder? || c.name in folders);
      at := at + 1;
      if !ok { return; }
      match c
      case MkFolder(n) => if n !in folders { folders := folders[n := NEW_DIR]; }
      case ChgrpFolder(n, gid) => folders := folders[n := folders[n].(gid := gid)];
      case ChmodFolder(n, perm) => folders := folders[n := folders[n].(perm := perm)];
    }

    method Home(c: HomeCall) returns (ok: bool)
      modifies this`at, this`homes
      ensures at == old(at) + 1
      ensures Did(old(Value()), OnHomes(c), old(at) in faults, Value(), ok)
    {
      ok := at !in faults && (c.MkHome? || c.name in homes);
      at := at + 1;
      if !ok { return; }
      match c
      case MkHome(n) => if n !in homes { homes := homes[n := NEW_DIR]; }
      case ChownHome(n, uid) => homes := homes[n := homes[n].(uid := uid, gid := uid)];
      case ChmodHome(n) => homes := homes[n := homes[n].(perm := PERM_HOME)];
    }

    // --- SMB accounts and quotas ---

    /** smbpasswd -s -a. */
    method Create(name: Name, password: Secret) returns (ok: bool)
      modifies this`at, this`smb
      ensures at == old(at) + 1
      ensures Did(old(Value()), OnSmb(SmbCreate(name, password)), old(at) in faults, Value(), ok)
    {
      ok := at !in faults && name in users;
      at := at + 1;
      if ok { smb := smb[name := SmbAccount(password, name in smb ==> smb[name].enabled)]; }
    }

    /** smbpasswd -e, smbpasswd -d. */
    method Switch(name: Name, on: bool) returns (ok: bool)
      modifies this`at, this`smb
      ensures at == old(at) + 1
      ensures Did(old(Value()), OnSmb(if on then SmbEnable(name) else SmbDisable(name)), old(at) in faults, Value(), ok)
    {
      ok := at !in faults && name in smb;
      at := at + 1;
      if ok { smb := smb[name := smb[name].(enabled := on)]; }
    }

    method Quota(c: QuotaCall) returns (ok: bool)
      modifies this`at, this`quotas
      ensures at == old(at) + 1
      ensures Did(old(Value()), OnQuotas(c), old(at) in faults, Value(), ok)
    {
      ok := at !in faults;
      at := at + 1;
      if !ok { return; }
      match c
      case QuotaSet(uid, bytes) => quotas := quotas[uid := EnforceBytes(bytes)];
      case QuotaClear(uid) => quotas := quotas - {uid};
    }

    /** An error raised before any call. */
    method Fail() returns (ok: bool)
      modifies this`at
      ensures at == old(at) + 1
      ensures Did(old(Value()), Unable, old(at) in faults, Value(), ok)
    {
      at, ok := at + 1, false;
    }

    // --- actions ---

    /** After some calls of cs: on course if all went well, else at the end of the failed run. */
    ghost predicate Progress(start: World, cs: seq<Call>, ok: bool)
      reads this, views
    {
      if ok then OnCourse(start, cs, faults, Value(), at) else RunCalls(start, cs, faults, 0) == Run(Value(), false)
    }

    /** Three calls: make the group folder, give it its group, set its mode. */
    method EnsureGroupDir(ghost start: World, ghost cs: seq<Call>, name: Name, gid: Id, perm: nat) returns (ok: bool)
      requires at + 3 <= |cs| && cs[at..at + 3] == FolderCalls(name, gid, perm) && Progress(start, cs, true)
      modifies this`at, this`folders
      ensures Progress(start, cs, ok) && (ok ==> at == old(at) + 3)
    {
      ghost var calls, first := FolderCalls(name, gid, perm), at;
      assert cs[first] == calls[0] && cs[first + 1] == calls[1] && cs[first + 2] == calls[2];
      ghost var here := Value();
      ok := Folder(MkFolder(name));
      NextCall(start, cs, faults, here, first, calls[0], Value(), ok);
      if !ok { return; }
      here := Value();
      ok := Folder(ChgrpFolder(name, gid));
      NextCall(start, cs, faults, here, first + 1, calls[1], Value(), ok);
      if !ok { return; }
      here := Value();
      ok := Folder(ChmodFolder(name, if perm == 0 then 1528 else perm));
      NextCall(start, cs, faults, here, first + 2, calls[2], Value(), ok);
    }

    method EnsureHomeDir(ghost start: World, ghost cs: seq<Call>, name: Name, uid: Id) returns (ok: bool)
      requires at + 3 <= |cs| && cs[at..at + 3] == HomeCalls(name, uid) && Progress(start, cs, true)
      modifies this`at, this`homes
      ensures Progress(start, cs, ok) && (ok ==> at == old(at) + 3)
    {
      ghost var calls, first := HomeCalls(name, uid), at;
      assert cs[first] == calls[0] && cs[first + 1] == calls[1] && cs[first + 2] == calls[2];
      ghost var here := Value();
      ok := Home(MkHome(name));
      NextCall(start, cs, faults, here, first, calls[0], Value(), ok);
      if !ok { return; }
      here := Value();
      ok := Home(ChownHome(name, uid));
      NextCall(start, cs, faults, here, first + 1, calls[1], Value(), ok);
      if !ok { return; }
      here := Value();
      ok := Home(ChmodHome(name));
      NextCall(start, cs, faults, here, first + 2, calls[2], Value(), ok);
    }

    /** EnsureUser: the private group, then the account. */
    method EnsureUser(ghost start: World, ghost cs: seq<Call>, a: Action) returns (ok: bool)
      requires at + 2 <= |cs| && Progress(start, cs, true)
      requires cs[at] == OnGroups(EnsurePrivateGroup(a.name, a.id))
               && cs[at + 1] == OnUsers(EnsureAccount(a.name, a.id, a.fullName))
      modifies this`at, this`groups, this`users
      ensures Progress(start, cs, ok) && (ok ==> at == old(at) + 2)
    {
      ghost var here, first := Value(), at;
      ok := AddGroup(a.name, a.id, true);
      NextCall(start, cs, faults, here, first, cs[first], Value(), ok);
      if !ok { return; }
      here := Value();
      ok := AddAccount(a.name, a.id, a.fullName);
      NextCall(start, cs, faults, here, first + 1, cs[first + 1], Value(), ok);
    }

    /** The memberships of a new account, and its unix password lock. */
    method JoinAndLock(ghost start: World, ghost cs: seq<Call>, a: Action) returns (ok: bool)
      requires at + 2 <= |cs| && Progress(start, cs, true)
      requires cs[at] == OnGroups(SetGroups(a.name, SetOf(a.groups)))
               && cs[at + 1] == OnUsers(Executor.LockPassword(a.name))
      modifies this`at, this`groups, this`users
      ensures Progress(start, cs, ok) && (ok ==> at == old(at) + 2)
    {
      ghost var here, first := Value(), at;
      ok := SetSupplementaryGroups(a.name, SetOf(a.groups));
      NextCall(start, cs, faults, here, first, cs[first], Value(), ok);
      if !ok { return; }
      here := Value();
      ok := LockPassword(a.name);
      NextCall(start, cs, faults, here, first + 1, cs[first + 1], Value(), ok);
    }

    /** Register the account with its derived password, if a seed is there to derive it. */
    method Register(ghost start: World, ghost cs: seq<Call>, deps: Deps, name: Name) returns (ok: bool)
      requires at + 1 <= |cs| && cs[at] == RegisterCalls(deps, name)[0] && Progress(start, cs, true)
      modifies this`at, this`smb
      ensures Progress(start, cs, ok) && (ok ==> at == old(at) + 1)
    {
      ghost var here, first := Value(), at;
      if deps.seed { ok := Create(name, Derived(name)); } else { ok := Fail(); }
      NextCall(start, cs, faults, here, first, cs[first], Value(), ok);
    }

    method SwitchSmb(ghost start: World, ghost cs: seq<Call>, name: Name, on: bool) returns (ok: bool)
      requires at + 1 <= |cs| && cs[at] == OnSmb(if on then SmbEnable(name) else SmbDisable(name))
               && Progress(start, cs, true)
      modifies this`at, this`smb
      ensures Progress(start, cs, ok) && (ok ==> at == old(at) + 1)
    {
      ghost var here, first := Value(), at;
      ok := Switch(name, on);
      NextCall(start, cs, faults, here, first, cs[first], Value(), ok);
    }

    /** createUser, in the order a later failure hurts least. */
    method CreateAccount(ghost start: World, ghost cs: seq<Call>, deps: Deps, a: Action, enable: bool)
      returns (ok: bool)
      requires at == 0 && cs == CreateUserCalls(deps, a, enable) && Progress(start, cs, true)
      modifies this`at, this`groups, this`users, this`homes, this`smb
      ensures Progress(start, cs, ok) && (ok ==> at == |cs|)
    {
      ghost var h := if a.home && !deps.posixOnly then 3 else 0;
      CreateLayout(deps, a, enable);
      ok := EnsureUser(start, cs, a);
      if !ok { return; }
      if a.home && !deps.posixOnly {
        ok := EnsureHomeDir(start, cs, a.name, a.id);
        if !ok { return; }
      }
      ok := JoinAndLock(start, cs, a);
      if !ok || deps.posixOnly { return; }
      if !a.hasSmb {
        ok := Register(start, cs, deps, a.name);
        if !ok { return; }
      }
      ok := SwitchSmb(start, cs, a.name, enable);
    }

    method CreateGroupAction(ghost start: World, ghost cs: seq<Call>, deps: Deps, a: Action) returns (ok: bool)
      requires at == 0 && Progress(start, cs, true)
      requires cs == [OnGroups(EnsureGroup(a.name, a.id))]
                     + if deps.posixOnly then [] else FolderCalls(a.name, a.id, a.dirPerm)
      modifies this`at, this`groups, this`folders
      ensures Progress(start, cs, ok) && (ok ==> at == |cs|)
    {
      ghost var here := Value();
      ok := AddGroup(a.name, a.id, false);
      NextCall(start, cs, faults, here, 0, cs[0], Value(), ok);
      if !ok || deps.posixOnly { return; }
      assert cs[1..4] == FolderCalls(a.name, a.id, a.dirPerm);
      ok := EnsureGroupDir(start, cs, a.name, a.id, a.dirPerm);
    }

    /** Actions of at most two calls. */
    method SmallAction(ghost start: World, ghost cs: seq<Call>, env: Env, a: Action) returns (ok: bool)
      requires at == 0 && Progress(start, cs, true) && cs == Script(env, start, a)
      requires a.kind !in {CreateGroup, CreateUser, CreateUserDisabled, SetGroupReaders}
      modifies this`at, this`groups, this`homes, this`smb, this`quotas
      ensures Progress(start, cs, ok) && (ok ==> at == |cs|)
    {
      ghost var here := Value();
      ok := true;
      match a.kind
      case UpdateUserGroups =>
        ok := SetSupplementaryGroups(a.name, SetOf(a.groups));
        NextCall(start, cs, faults, here, 0, cs[0], Value(), ok);
      case SetGroupAdmins =>
        if env.host.gshadow {
          ok := SetGroupAdmins(a.name, SortBy(Self, a.groups));
          NextCall(start, cs, faults, here, 0, cs[0], Value(), ok);
        }
      case EnsureHome =>
        assert cs[0..3] == HomeCalls(a.name, a.id);
        ok := EnsureHomeDir(start, cs, a.name, a.id);
      case SetUserQuota =>
        ok := Limit(start, cs, env, QuotaSet(a.id, a.quota));
      case ClearUserQuota =>
        ok := Limit(start, cs, env, QuotaClear(a.id));
      case AddSmb =>
        ok := Register(start, cs, env.deps, a.name);
        if ok { ok := SwitchSmb(start, cs, a.name, true); }
      case EnableUser => ok := SwitchSmb(start, cs, a.name, true);
      case DisableUser => ok := SwitchSmb(start, cs, a.name, false);
      case ReservedPresent | OrphanUser | RefuseUser | RefuseGroup | OrphanGroup =>
    }

    method Limit(ghost start: World, ghost cs: seq<Call>, env: Env, c: QuotaCall) returns (ok: bool)
      requires at == 0 && Progress(start, cs, true) && cs == if env.host.quotaEnforced then [OnQuotas(c)] else [Unable]
      modifies this`at, this`quotas
      ensures Progress(start, cs, ok) && (ok ==> at == 1)
    {
      ghost var here := Value();
      if env.host.quotaEnforced { ok := Quota(c); } else { ok := Fail(); }
      NextCall(start, cs, faults, here, 0, cs[0], Value(), ok);
    }

    method SetReaders(env: Env, a: Action) returns (ok: bool)
      requires a.kind == SetGroupReaders && Distinct(Views.ReaderKey, a.readers)
      modifies views
      ensures Run(Value(), ok) == Executor.One(env, old(Value()), a, faults)
    {
      ghost var was := Value();
      SetReadersRun(env, was, a, faults);
      if !env.host.viewsKnown { return false; }
      views.faults, views.at := faults, 0;
      ok := views.EnsureReaderViews(folders, a.name, a.id, a.readers);
    }

    /** one: run an action, and say whether it went through. */
    method Dispatch(env: Env, a: Action, f: set<nat>) returns (ok: bool)
      requires a.kind == SetGroupReaders ==> Distinct(Views.ReaderKey, a.readers)
      modifies this, views
      ensures Run(Value(), ok) == Executor.One(env, old(Value()), a, f)
    {
      faults, at := f, 0;
      if a.kind == SetGroupReaders {
        ok := SetReaders(env, a);
        return;
      }
      ghost var start := Value();
      ghost var cs := Script(env, start, a);
      assert cs[0..] == cs;
      if a.kind == CreateGroup { ok := CreateGroupAction(start, cs, env.deps, a); }
      else if a.kind == CreateUser { ok := CreateAccount(start, cs, env.deps, a, true); }
      else if a.kind == CreateUserDisabled { ok := CreateAccount(start, cs, env.deps, a, false); }
      else { ok := SmallAction(start, cs, env, a); }
      if ok { Finished(start, cs, f, Value(), at); }
    }

    /** Apply: every action in turn, whatever became of those before it, with one result each. */
    method Apply(env: Env, acts: seq<Action>, fs: nat -> set<nat>) returns (results: seq<bool>, ok: bool)
      requires forall a :: a in acts && a.kind == SetGroupReaders ==> Distinct(Views.ReaderKey, a.readers)
      modifies this, views
      ensures Run(Value(), ok) == Executor.Apply(env, old(Value()), acts, fs)
      ensures results == Outcomes(env, old(Value()), acts, fs)
    {
      ghost var start := Value();
      results, ok := [], true;
      for i := 0 to |acts|
        invariant Run(Value(), ok) == Executor.Apply(env, start, acts[..i], fs)
        invariant results == Outcomes(env, start, acts[..i], fs)
      {
        ApplyStep(env, start, acts, fs, i);
        OutcomesStep(env, start, acts, fs, i);
        var done := Dispatch(env, acts[i], fs(i));
        results, ok := results + [done], ok && done;
      }
      assert acts[..|acts|] == acts;
    }

    // --- collecting the state ---

    /** One account's memberships, split into those the reconciler manages and those it preserves. */
    method SplitMemberships(cls: Classifier, user: Name) returns (managed: set<Name>, extra: set<Name>)
      ensures managed == ManagedMemberships(Value(), cls, user) && extra == ExtraMemberships(Value(), cls, user)
    {
      var all := Memberships(Value(), user);
      managed, extra := {}, {};
      var todo := all;
      while todo != {}
        invariant todo <= all
        invariant managed == set g | g in all && g !in todo && ManagedGroup(Value(), cls, g)
        invariant extra == set g | g in all && g !in todo && !ManagedGroup(Value(), cls, g)
        decreases |todo|
      {
        var g :| g in todo;
        if g in groups && cls.Gid(groups[g].gid) == Managed { managed := managed + {g}; } else { extra := extra + {g}; }
        todo := todo - {g};
      }
    }

    method CollectUsers(host: Host, cls: Classifier) returns (out: map<Name, UserState>)
      ensures out == map n | n in users && cls.Uid(users[n].uid) == Managed :: CollectUser(host, Value(), cls, n)
    {
      out := map[];
      var todo := users.Keys;
      while todo != {}
        invariant todo <= users.Keys
        invariant forall n :: n in out <==> n in users && n !in todo && cls.Uid(users[n].uid) == Managed
        invariant forall n :: n in out ==> out[n] == CollectUser(host, Value(), cls, n)
        decreases |todo|
      {
        var n :| n in todo;
        if cls.Uid(users[n].uid) == Managed {
          var managed, extra := SplitMemberships(cls, n);
          var limit := if host.quotaEnforced && users[n].uid in quotas then quotas[users[n].uid] else 0;
          out := out[n := UserState(users[n].uid, users[n].gid, managed, extra, Find(homes, n), limit)];
        }
        todo := todo - {n};
      }
    }

    method CollectGroups(host: Host, cls: Classifier) returns (out: map<Name, GroupState>)
      ensures out == map n | n in groups && cls.Gid(groups[n].gid) == Managed :: CollectGroup(host, Value(), n)
    {
      out := map[];
      var todo := groups.Keys;
      while todo != {}
        invariant todo <= groups.Keys
        invariant forall n :: n in out <==> n in groups && n !in todo && cls.Gid(groups[n].gid) == Managed
        invariant forall n :: n in out ==> out[n] == CollectGroup(host, Value(), n)
        decreases |todo|
      {
        var n :| n in todo;
        if cls.Gid(groups[n].gid) == Managed {
          var shown: seq<Name> := [];
          if host.viewsKnown { shown := views.ReadReaderViews(folders, n); }
          out := out[n := GroupState(groups[n].gid, Find(folders, n), if host.gshadow then groups[n].admins else [],
                                     host.gshadow, shown, host.viewsKnown)];
        }
        todo := todo - {n};
      }
    }

    /** Collect: the whole state the reconciler works from. */
    method Collect(host: Host, cls: Classifier) returns (st: State)
      ensures st == System.Collect(host, Value(), cls)
    {
      var us := CollectUsers(host, cls);
      var gs := CollectGroups(host, cls);
      st := State(us, gs, map n | n in smb :: smb[n].enabled, map n | n in users :: users[n].uid,
                  map n | n in groups :: groups[n].gid, host.quotaEnforced);
    }
  }

  lemma SetReadersRun(env: Env, w: World, a: Action, faults: set<nat>)
    requires a.kind == SetGroupReaders
    ensures Executor.One(env, w, a, faults) ==
              if !env.host.viewsKnown then Run(w, false)
              else var r := Views.RunViews(w.ns, w.folders,
                                           Views.Plan(w.ns, w.folders, a.name, a.id, a.readers), faults, 0);
                   Run(w.(ns := r.ns), r.ok)
  {
    if env.host.viewsKnown {
      LiftViews(w, Views.Plan(w.ns, w.folders, a.name, a.id, a.readers), faults, 0);
    } else {
      assert Script(env, w, a) == [Unable];
    }
  }

  /** Where each call of a create sits. */
  lemma CreateLayout(deps: Deps, a: Action, enable: bool)
    ensures var cs := CreateUserCalls(deps, a, enable);
            var h := if a.home && !deps.posixOnly then 3 else 0;
            var s := if a.hasSmb then 0 else 1;
            && |cs| == (if deps.posixOnly then h + 4 else h + 4 + s + 1)
            && cs[0] == OnGroups(EnsurePrivateGroup(a.name, a.id))
            && cs[1] == OnUsers(EnsureAccount(a.name, a.id, a.fullName))
            && (h == 3 ==> cs[2..5] == HomeCalls(a.name, a.id))
            && cs[h + 2] == OnGroups(SetGroups(a.name, SetOf(a.groups))) && cs[h + 3] == OnUsers(LockPassword(a.name))
            && (!deps.posixOnly ==>
                && (!a.hasSmb ==> cs[h + 4] == RegisterCalls(deps, a.name)[0])
                && cs[h + 4 + s] == OnSmb(if enable then SmbEnable(a.name) else SmbDisable(a.name)))
  {
  }
}
