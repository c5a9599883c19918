/** What actions do to the account and group databases when no call is failed from outside, whether or not
    they succeed. */
module Effects {
  import opened Common
  import opened Names
  import opened Roster
  import opened System
  import opened Reconcile
  import opened Executor
  import opened Calls
  import opened Executable
  import opened Safety

  // --- actions that leave accounts and groups alone ---

  predicate Idle(k: Kind) {
    k !in {CreateGroup, SetGroupAdmins, CreateUser, CreateUserDisabled, UpdateUserGroups}
  }

  ghost predicate AllIdle(acts: seq<Action>) {
    forall a :: a in acts ==> Idle(a.kind)
  }

  ghost predicate SameBooks(a: World, b: World) {
    a.groups == b.groups && a.users == b.users
  }

  lemma OtherCall(w: World, c: Call)
    requires !c.OnGroups? && !c.OnUsers? && Exec(w, c).Some?
    ensures SameBooks(w, Exec(w, c).value)
  {
  }

  lemma {:induction false} OtherCalls(w: World, cs: seq<Call>, faults: set<nat>, at: nat)
    requires forall c :: c in cs ==> !c.OnGroups? && !c.OnUsers?
    ensures SameBooks(w, RunCalls(w, cs, faults, at).w)
    decreases |cs|
  {
    if cs != [] {
      assert cs[0] in cs && forall c :: c in cs[1..] ==> c in cs;
      if at in faults {
        if Ignored(cs[0]) { OtherCalls(w, cs[1..], faults, at + 1); }
      } else if Exec(w, cs[0]).Some? {
        OtherCall(w, cs[0]);
        OtherCalls(Exec(w, cs[0]).value, cs[1..], faults, at + 1);
      }
    }
  }

  lemma IdleCall(env: Env, w: World, a: Action, c: Call)
    requires Idle(a.kind) && c in Script(env, w, a)
    ensures !c.OnGroups? && !c.OnUsers?
  {
  }

  lemma IdleOne(env: Env, w: World, a: Action)
    requires Idle(a.kind)
    ensures SameBooks(w, One(env, w, a, {}).w)
  {
    forall c | c in Script(env, w, a) ensures !c.OnGroups? && !c.OnUsers? { IdleCall(env, w, a, c); }
    OtherCalls(w, Script(env, w, a), {}, 0);
  }

  // --- the part of a plan a run keeps, run ---

  ghost function Kept(env: Env, acts: seq<Action>): seq<Action> {
    if env.deps.posixOnly then NssOnly(acts) else acts
  }

  ghost function Does(env: Env, w: World, acts: seq<Action>): World {
    Apply(env, w, Kept(env, acts), NoFaults()).w
  }

  lemma {:induction false} NssOnlyConcat(a: seq<Action>, b: seq<Action>)
    ensures NssOnly(a + b) == NssOnly(a) + NssOnly(b)
  {
    if a == [] {
      assert a + b == b;
    } else {
      var head := if NssKind(a[0].kind) then [a[0]] else [];
      NssOnlyConcat(a[1..], b);
      assert (a + b)[1..] == a[1..] + b && (a + b)[0] == a[0];
      assert NssOnly(a + b) == head + NssOnly(a[1..] + b);
    }
  }

  lemma {:induction false} ApplyConcat(env: Env, w: World, a: seq<Action>, b: seq<Action>)
    ensures Apply(env, w, a + b, NoFaults()).w == Apply(env, Apply(env, w, a, NoFaults()).w, b, NoFaults()).w
    decreases |b|
  {
    if b == [] {
      assert a + b == a;
    } else {
      var n := |b| - 1;
      ApplyConcat(env, w, a, b[..n]);
      assert (a + b)[..|a + b| - 1] == a + b[..n];
    }
  }

  lemma DoesConcat(env: Env, w: World, a: seq<Action>, b: seq<Action>)
    ensures Does(env, w, a + b) == Does(env, Does(env, w, a), b)
  {
    NssOnlyConcat(a, b);
    ApplyConcat(env, w, Kept(env, a), Kept(env, b));
  }

  lemma DoesOne(env: Env, w: World, a: Action)
    requires NssKind(a.kind)
    ensures Does(env, w, [a]) == One(env, w, a, {}).w
  {
    var acts, n := [a], 0;
    assert NssOnly(acts) == [a] + NssOnly(acts[1..]) && acts[1..] == [];
    assert Kept(env, acts) == acts && acts[..n] == [];
    assert Apply(env, w, acts[..n], NoFaults()).w == w;
    assert Does(env, w, [a]) == One(env, w, acts[n], NoFaults()(n)).w;
  }

  lemma {:induction false} IdleApply(env: Env, w: World, acts: seq<Action>)
    requires AllIdle(acts)
    ensures SameBooks(w, Apply(env, w, acts, NoFaults()).w)
    decreases |acts|
  {
    if acts != [] {
      var n := |acts| - 1;
      assert acts[n] in acts && forall a :: a in acts[..n] ==> a in acts;
      IdleApply(env, w, acts[..n]);
      IdleOne(env, Apply(env, w, acts[..n], NoFaults()).w, acts[n]);
    }
  }

  lemma DoesIdle(env: Env, w: World, acts: seq<Action>)
    requires AllIdle(acts)
    ensures SameBooks(w, Does(env, w, acts))
  {
    forall a | a in Kept(env, acts) ensures a in acts { NssOnlyMembers(acts, a); }
    IdleApply(env, w, Kept(env, acts));
  }

  lemma DoesThenIdle(env: Env, w: World, acts: seq<Action>, rest: seq<Action>)
    requires AllIdle(rest)
    ensures SameBooks(Does(env, w, acts), Does(env, w, acts + rest))
  {
    DoesConcat(env, w, acts, rest);
    DoesIdle(env, Does(env, w, acts), rest);
  }

  lemma FourParts(env: Env, w: World, a: seq<Action>, b: seq<Action>, c: seq<Action>, d: seq<Action>)
    ensures Does(env, Does(env, Does(env, Does(env, w, a), b), c), d) == Does(env, w, a + b + c + d)
  {
    DoesConcat(env, w, a, b);
    DoesConcat(env, w, a + b, c);
    DoesConcat(env, w, a + b + c, d);
  }

  lemma Associated<T>(a: seq<T>, b: seq<T>, c: seq<T>)
    ensures a + b + c == a + (b + c)
  {
  }

  lemma ThenIdle(env: Env, w: World, a: seq<Action>, e: seq<Action>, f: seq<Action>)
    requires AllIdle(e + f)
    ensures SameBooks(Does(env, w, a), Does(env, w, a + e + f))
  {
    Associated(a, e, f);
    DoesThenIdle(env, w, a, e + f);
  }

  /** A plan of six parts, the last two idle. */
  lemma SixParts(env: Env, w: World, a: seq<Action>, b: seq<Action>, c: seq<Action>, d: seq<Action>,
                 e: seq<Action>, f: seq<Action>)
    requires AllIdle(e + f)
    ensures SameBooks(Does(env, Does(env, Does(env, Does(env, w, a), b), c), d), Does(env, w, a + b + c + d + e + f))
  {
    FourParts(env, w, a, b, c, d);
    ThenIdle(env, w, a + b + c + d, e, f);
  }

  // --- a part of a plan, entry by entry ---

  lemma DoesNext<T>(env: Env, base: World, f: T -> seq<Action>, q: seq<T>, i: nat)
    requires i < |q|
    ensures Does(env, base, Flat(f, q[..i + 1])) == Does(env, Does(env, base, Flat(f, q[..i])), f(q[i]))
  {
    FlatStep(f, q, i);
    DoesConcat(env, base, Flat(f, q[..i]), f(q[i]));
  }

  lemma DoesNothing(env: Env, w: World)
    ensures Does(env, w, []) == w
  {
  }

  /** What holds at the start, and stays through each entry's actions, holds at the end of a part. */
  lemma {:induction false} Turns<T>(env: Env, base: World, f: T -> seq<Action>, q: seq<T>, k: nat,
                                    p: (nat, World) -> bool)
    requires k <= |q| && p(0, base)
    requires forall i: nat, w :: i < |q| && p(i, w) ==> p(i + 1, Does(env, w, f(q[i])))
    ensures p(k, Does(env, base, Flat(f, q[..k])))
    decreases k
  {
    if k == 0 {
      DoesNothing(env, base);
      assert q[..k] == [];
    } else {
      var i: nat := k - 1;
      Turns(env, base, f, q, i, p);
      DoesNext(env, base, f, q, i);
    }
  }

  /** Each entry of a sorted list is new to those before it, and one of the list. */
  lemma NotYet<T(!new)>(key: T -> Name, s: seq<T>, i: nat)
    requires Distinct(key, s) && i < |SortBy(key, s)|
    ensures var q := SortBy(key, s);
            && q[i] !in q[..i] && q[i] in s && (forall x :: x in q[..i] ==> x in s && Less(key(x), key(q[i])))
            && (forall x :: x in s && !Less(key(q[i]), key(x)) ==> x in q[..i] || x == q[i])
  {
    var q := SortBy(key, s);
    SortByAscending(key, s);
    SortByMembers(key, s);
    assert q[i] in q;
    forall x | x in q[..i] ensures x in s && Less(key(x), key(q[i])) && x != q[i] {
      var j :| 0 <= j < i && q[j] == x;
      assert x in q;
      LessAsymmetric(key(x), key(q[i]));
    }
    forall x | x in s && !Less(key(q[i]), key(x)) ensures x in q[..i] || x == q[i] {
      assert x in q;
      var j :| 0 <= j < |q| && q[j] == x;
      if j < i { assert q[..i][j] == x; }
    }
  }

  // --- groups ---

  lemma CreateGroupDoes(env: Env, w: World, a: Action)
    requires a.kind == CreateGroup
    ensures var next := One(env, w, a, {}).w;
            && next.users == w.users
            && next.groups == if a.name in w.groups || GidInUse(w.groups, a.id) then w.groups
                              else w.groups[a.name := GroupEntry(a.id, {}, [])]
  {
    var c := OnGroups(EnsureGroup(a.name, a.id));
    var rest := if env.deps.posixOnly then [] else FolderCalls(a.name, a.id, a.dirPerm);
    CallsSplit(w, [c], rest, {}, 0);
    OneCall(w, c, 0);
    if Exec(w, c).Some? { OtherCalls(Exec(w, c).value, rest, {}, 1); }
  }

  lemma SetAdminsDoes(env: Env, w: World, a: Action)
    requires a.kind == SetGroupAdmins
    ensures var next := One(env, w, a, {}).w;
            && next.users == w.users
            && next.groups == if env.host.gshadow && a.name in w.groups && SetOf(a.groups) <= w.users.Keys
                              then w.groups[a.name := w.groups[a.name].(admins := SortBy(Self, a.groups))] else w.groups
  {
    if env.host.gshadow {
      OneCall(w, OnGroups(SetAdmins(a.name, SortBy(Self, a.groups))), 0);
      SortByMembers(Self, a.groups);
      assert SetOf(SortBy(Self, a.groups)) == SetOf(a.groups);
    }
  }

  // --- accounts ---

  /** The groups once the account's own is there. */
  ghost function WithOwn(groups: map<Name, GroupEntry>, n: Name, gid: Id): map<Name, GroupEntry> {
    if n in groups then groups else groups[n := GroupEntry(gid, {}, [])]
  }

  /** The groups after a usermod -G that fails if one of the groups is missing. */
  ghost function Rejoin(groups: map<Name, GroupEntry>, n: Name, joined: set<Name>): map<Name, GroupEntry> {
    if joined <= groups.Keys then ReplaceMemberships(groups, n, joined) else groups
  }

  ghost predicate LateCall(c: Call) {
    !c.OnGroups? && !(c.OnUsers? && c.user.EnsureAccount?)
  }

  lemma LateStep(w: World, c: Call)
    requires LateCall(c) && Exec(w, c).Some?
    ensures Exec(w, c).value.groups == w.groups && Exec(w, c).value.users.Keys == w.users.Keys
  {
  }

  lemma {:induction false} LateCalls(w: World, cs: seq<Call>, at: nat)
    requires forall c :: c in cs ==> LateCall(c)
    ensures var next := RunCalls(w, cs, {}, at).w; next.groups == w.groups && next.users.Keys == w.users.Keys
    decreases |cs|
  {
    if cs != [] && Exec(w, cs[0]).Some? {
      assert cs[0] in cs && forall c :: c in cs[1..] ==> c in cs;
      LateStep(w, cs[0]);
      LateCalls(Exec(w, cs[0]).value, cs[1..], at + 1);
    }
  }

  lemma JoinDoes(deps: Deps, w: World, a: Action, enable: bool, at: nat)
    requires a.name in w.users
    ensures var next := RunCalls(w, JoinCalls(a) + SmbCalls(deps, a, enable), {}, at).w;
            next.users.Keys == w.users.Keys && next.groups == Rejoin(w.groups, a.name, SetOf(a.groups))
  {
    var c := OnGroups(SetGroups(a.name, SetOf(a.groups)));
    var rest := [OnUsers(LockPassword(a.name))] + SmbCalls(deps, a, enable);
    assert JoinCalls(a) + SmbCalls(deps, a, enable) == [c] + rest;
    CallsSplit(w, [c], rest, {}, at);
    OneCall(w, c, at);
    if Exec(w, c).Some? { LateCalls(Exec(w, c).value, rest, at + 1); }
  }

  lemma RestDoes(deps: Deps, w: World, a: Action, enable: bool, at: nat)
    requires a.name in w.users
    ensures var next := RunCalls(w, HomePart(deps, a) + (JoinCalls(a) + SmbCalls(deps, a, enable)), {}, at).w;
            && next.users.Keys == w.users.Keys && next.users[a.name].uid == w.users[a.name].uid
            && next.groups == Rejoin(w.groups, a.name, SetOf(a.groups))
  {
    var homes := HomePart(deps, a);
    RunCallsGrows(w, homes + (JoinCalls(a) + SmbCalls(deps, a, enable)), {}, at);
    CallsSplit(w, homes, JoinCalls(a) + SmbCalls(deps, a, enable), {}, at);
    if homes != [] { HomeCallsOk(w, a.name, a.id, at); }
    JoinDoes(deps, RunCalls(w, homes, {}, at).w, a, enable, at + |homes|);
  }

  lemma AccountDoes(w: World, a: Action)
    requires a.name !in w.users && !UidInUse(w.users, a.id)
    ensures var r := RunCalls(w, AccountCalls(a), {}, 0);
            if AccountFree(w, a.name, a.id) then
              && r.ok && r.w.groups == WithOwn(w.groups, a.name, a.id)
              && r.w.users == w.users[a.name := System.Account(a.id, a.id, a.fullName, false)]
            else !r.ok && SameBooks(w, r.w)
  {
    var c, d := OnGroups(EnsurePrivateGroup(a.name, a.id)), OnUsers(EnsureAccount(a.name, a.id, a.fullName));
    assert AccountCalls(a) == [c] + [d];
    CallsSplit(w, [c], [d], {}, 0);
    OneCall(w, c, 0);
    if Exec(w, c).Some? {
      var w1 := Exec(w, c).value;
      OneCall(w1, d, 1);
      if a.name !in w.groups {
        assert w1.groups[a.name].gid == a.id;
        assert GidInUse(w1.groups, a.id);
      }
    }
  }

  /** What a create does to accounts and groups. */
  lemma CreateDoes(env: Env, w: World, a: Action)
    requires a.kind in {CreateUser, CreateUserDisabled} && a.name !in w.users && !UidInUse(w.users, a.id)
    ensures var next := One(env, w, a, {}).w;
            if AccountFree(w, a.name, a.id) then
              && next.users.Keys == w.users.Keys + {a.name} && next.users[a.name].uid == a.id
              && next.groups == Rejoin(WithOwn(w.groups, a.name, a.id), a.name, SetOf(a.groups))
            else SameBooks(w, next)
  {
    var enable := a.kind == CreateUser;
    var rest := HomePart(env.deps, a) + (JoinCalls(a) + SmbCalls(env.deps, a, enable));
    CreateInParts(env.deps, a, enable);
    CallsSplit(w, AccountCalls(a), rest, {}, 0);
    AccountDoes(w, a);
    if AccountFree(w, a.name, a.id) { RestDoes(env.deps, RunCalls(w, AccountCalls(a), {}, 0).w, a, enable, 2); }
  }

  lemma UpdateDoes(env: Env, w: World, a: Action)
    requires a.kind == UpdateUserGroups && a.name in w.users
    ensures var next := One(env, w, a, {}).w;
            next.users == w.users && next.groups == Rejoin(w.groups, a.name, SetOf(a.groups))
  {
    OneCall(w, OnGroups(SetGroups(a.name, SetOf(a.groups))), 0);
  }
}
