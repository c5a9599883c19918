/** When the calls of one action succeed, in the world they are made in. */
module Calls {
  import opened Common
  import opened Names
  import opened IdRange
  import opened System
  import opened Reconcile
  import opened Executor
  import Views

  lemma OneCall(w: World, c: Call, at: nat)
    ensures RunCalls(w, [c], {}, at) == match Exec(w, c) case None => Run(w, false) case Some(n) => Run(n, true)
  {
    assert [c][1..] == [];
  }

  lemma ThreeCalls(w: World, a: Call, b: Call, c: Call, u: World, v: World, x: World, at: nat)
    requires Exec(w, a) == Some(u) && Exec(u, b) == Some(v) && Exec(v, c) == Some(x)
    ensures RunCalls(w, [a, b, c], {}, at) == Run(x, true)
  {
    assert [a, b, c] == [a] + ([b] + [c]);
    CallsSplit(w, [a], [b] + [c], {}, at);
    CallsSplit(u, [b], [c], {}, at + 1);
    OneCall(w, a, at);
    OneCall(u, b, at + 1);
    OneCall(v, c, at + 2);
  }

  /** EnsureHome, whatever was there: the user's, closed to everybody else. */
  lemma HomeMade(w: World, name: Name, uid: Id, at: nat)
    ensures RunCalls(w, HomeCalls(name, uid), {}, at)
            == Run(w.(homes := w.homes[name := Dir(64 * 7, uid, uid)]), true)
  {
    var cs := HomeCalls(name, uid);
    var u := Exec(w, cs[0]).value;
    var v := Exec(u, cs[1]).value;
    var x := Exec(v, cs[2]).value;
    ThreeCalls(w, cs[0], cs[1], cs[2], u, v, x, at);
    assert x.homes == w.homes[name := Dir(64 * 7, uid, uid)];
  }

  /** EnsureGroupDir, whatever was there: the group's, with the mode asked for, or else set-gid and closed to
      others; a folder that was there keeps its owner, a new one is root's. */
  lemma FolderMade(w: World, name: Name, gid: Id, perm: nat, at: nat)
    ensures var owner := if name in w.folders then w.folders[name].uid else 0;
            var mode := if perm == 0 then 512 * 2 + 64 * 7 + 8 * 7 else perm;
            RunCalls(w, FolderCalls(name, gid, perm), {}, at)
            == Run(w.(folders := w.folders[name := Dir(mode, owner, gid)]), true)
  {
    var cs := FolderCalls(name, gid, perm);
    var u := Exec(w, cs[0]).value;
    var v := Exec(u, cs[1]).value;
    var x := Exec(v, cs[2]).value;
    ThreeCalls(w, cs[0], cs[1], cs[2], u, v, x, at);
    assert x.folders == w.folders[name := x.folders[name]];
  }

  lemma HomeCallsOk(w: World, name: Name, uid: Id, at: nat)
    ensures RunCalls(w, HomeCalls(name, uid), {}, at).ok
    ensures var r := RunCalls(w, HomeCalls(name, uid), {}, at).w;
            r.users == w.users && r.groups == w.groups && r.smb == w.smb
  {
    var cs := HomeCalls(name, uid);
    var w1 := Exec(w, cs[0]).value;
    var w2 := Exec(w1, cs[1]).value;
    assert cs == [cs[0]] + ([cs[1]] + [cs[2]]);
    CallsSplit(w, [cs[0]], [cs[1]] + [cs[2]], {}, at);
    CallsSplit(w1, [cs[1]], [cs[2]], {}, at + 1);
    OneCall(w, cs[0], at);
    OneCall(w1, cs[1], at + 1);
    OneCall(w2, cs[2], at + 2);
  }

  // --- creating a user ---

  function AccountCalls(a: Action): seq<Call> {
    [OnGroups(EnsurePrivateGroup(a.name, a.id)), OnUsers(EnsureAccount(a.name, a.id, a.fullName))]
  }

  function JoinCalls(a: Action): seq<Call> {
    [OnGroups(SetGroups(a.name, SetOf(a.groups))), OnUsers(LockPassword(a.name))]
  }

  function SmbCalls(deps: Deps, a: Action, enable: bool): seq<Call> {
    if deps.posixOnly then []
    else (if a.hasSmb then [] else RegisterCalls(deps, a.name))
         + [OnSmb(if enable then SmbEnable(a.name) else SmbDisable(a.name))]
  }

  function HomePart(deps: Deps, a: Action): seq<Call> {
    if a.home && !deps.posixOnly then HomeCalls(a.name, a.id) else []
  }

  /** useradd with its private group goes through: the account is there, or its uid is free and its gid
      is either free and about to be made under the account's name, or already in use by a group. */
  ghost predicate AccountFree(w: World, n: Name, uid: Id) {
    n in w.users
    || (!UidInUse(w.users, uid) && (if n in w.groups then GidInUse(w.groups, uid) else !GidInUse(w.groups, uid)))
  }

  /** The groups that exist once the account does. */
  function GroupsThen(w: World, n: Name): set<Name> {
    w.groups.Keys + if n in w.users then {} else {n}
  }

  lemma AccountCallsOk(w: World, a: Action, at: nat)
    ensures RunCalls(w, AccountCalls(a), {}, at).ok <==> AccountFree(w, a.name, a.id)
    ensures AccountFree(w, a.name, a.id) ==>
              var r := RunCalls(w, AccountCalls(a), {}, at).w;
              a.name in r.users && r.groups.Keys == GroupsThen(w, a.name) && r.smb == w.smb
  {
    var c, d := OnGroups(EnsurePrivateGroup(a.name, a.id)), OnUsers(EnsureAccount(a.name, a.id, a.fullName));
    assert AccountCalls(a) == [c] + [d];
    CallsSplit(w, [c], [d], {}, at);
    OneCall(w, c, at);
    if Exec(w, c).Some? {
      var w1 := Exec(w, c).value;
      OneCall(w1, d, at + 1);
      if a.name !in w.users && a.name !in w.groups {
        assert w1.groups[a.name].gid == a.id;
        assert GidInUse(w1.groups, a.id);
      }
    }
  }

  lemma JoinCallsOk(w: World, a: Action, at: nat)
    requires a.name in w.users
    ensures RunCalls(w, JoinCalls(a), {}, at).ok <==> SetOf(a.groups) <= w.groups.Keys
    ensures var r := RunCalls(w, JoinCalls(a), {}, at).w; a.name in r.users && r.smb == w.smb
  {
    var c, d := OnGroups(SetGroups(a.name, SetOf(a.groups))), OnUsers(LockPassword(a.name));
    assert JoinCalls(a) == [c] + [d];
    CallsSplit(w, [c], [d], {}, at);
    OneCall(w, c, at);
    if Exec(w, c).Some? { OneCall(Exec(w, c).value, d, at + 1); }
  }

  /** The SMB half can be done: there is none, the account is there, or its password can be derived. */
  ghost predicate Registrable(deps: Deps, w: World, a: Action) {
    deps.posixOnly || if a.hasSmb then a.name in w.smb else deps.seed
  }

  lemma SmbCallsOk(w: World, deps: Deps, a: Action, enable: bool, at: nat)
    requires a.name in w.users
    ensures RunCalls(w, SmbCalls(deps, a, enable), {}, at).ok <==> Registrable(deps, w, a)
  {
    if !deps.posixOnly {
      var last := OnSmb(if enable then SmbEnable(a.name) else SmbDisable(a.name));
      var first := if a.hasSmb then [] else RegisterCalls(deps, a.name);
      CallsSplit(w, first, [last], {}, at);
      if a.hasSmb {
        OneCall(w, last, at);
      } else {
        OneCall(w, first[0], at);
        if deps.seed { OneCall(Exec(w, first[0]).value, last, at + 1); }
      }
    }
  }

  lemma CreateInParts(deps: Deps, a: Action, enable: bool)
    ensures CreateUserCalls(deps, a, enable)
            == AccountCalls(a) + (HomePart(deps, a) + (JoinCalls(a) + SmbCalls(deps, a, enable)))
  {
  }

  /** What follows once the account is there. */
  lemma RestOk(deps: Deps, w: World, a: Action, enable: bool, at: nat)
    requires a.name in w.users
    ensures RunCalls(w, HomePart(deps, a) + (JoinCalls(a) + SmbCalls(deps, a, enable)), {}, at).ok
            <==> SetOf(a.groups) <= w.groups.Keys && Registrable(deps, w, a)
  {
    var homes, join, smb := HomePart(deps, a), JoinCalls(a), SmbCalls(deps, a, enable);
    CallsSplit(w, homes, join + smb, {}, at);
    if homes != [] { HomeCallsOk(w, a.name, a.id, at); }
    var w2 := RunCalls(w, homes, {}, at).w;
    CallsSplit(w2, join, smb, {}, at + |homes|);
    JoinCallsOk(w2, a, at + |homes|);
    SmbCallsOk(RunCalls(w2, join, {}, at + |homes|).w, deps, a, enable, at + |homes| + |join|);
  }

  /** A create succeeds exactly when the account can be made, its groups are there by then, and its SMB
      half can be done. */
  lemma CreateUserOk(env: Env, w: World, a: Action, enable: bool)
    ensures RunCalls(w, CreateUserCalls(env.deps, a, enable), {}, 0).ok
            <==> && AccountFree(w, a.name, a.id) && SetOf(a.groups) <= GroupsThen(w, a.name)
                 && Registrable(env.deps, w, a)
  {
    var rest := HomePart(env.deps, a) + (JoinCalls(a) + SmbCalls(env.deps, a, enable));
    CreateInParts(env.deps, a, enable);
    CallsSplit(w, AccountCalls(a), rest, {}, 0);
    AccountCallsOk(w, a, 0);
    if AccountFree(w, a.name, a.id) {
      RestOk(env.deps, RunCalls(w, AccountCalls(a), {}, 0).w, a, enable, 2);
    }
  }

  // --- the other account actions ---

  lemma AddSmbOk(env: Env, w: World, a: Action)
    requires a.kind == AddSmb && a.name in w.users
    ensures One(env, w, a, {}).ok <==> env.deps.seed
  {
    var first, last := RegisterCalls(env.deps, a.name), OnSmb(SmbEnable(a.name));
    CallsSplit(w, first, [last], {}, 0);
    OneCall(w, first[0], 0);
    if env.deps.seed { OneCall(Exec(w, first[0]).value, last, 1); }
  }

  lemma SimpleOk(env: Env, w: World, a: Action)
    requires a.kind in {UpdateUserGroups, EnableUser, DisableUser, EnsureHome, SetUserQuota, ClearUserQuota}
    requires a.kind == UpdateUserGroups ==> a.name in w.users && SetOf(a.groups) <= w.groups.Keys
    requires a.kind in {EnableUser, DisableUser} ==> a.name in w.smb
    requires a.kind in {SetUserQuota, ClearUserQuota} ==> env.host.quotaEnforced
    ensures One(env, w, a, {}).ok
  {
    if a.kind == EnsureHome {
      HomeCallsOk(w, a.name, a.id, 0);
    } else {
      var cs := Script(env, w, a);
      assert cs == [cs[0]];
      OneCall(w, cs[0], 0);
    }
  }
}
