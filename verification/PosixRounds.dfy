/** Runs that own only the POSIX half: exactly when a number of them leaves that half nothing to do. Round by
    round they do to accounts, groups and views what runs of both halves do. */
module PosixRounds {
  import opened Common
  import opened Names
  import opened IdRange
  import opened Roster
  import opened System
  import opened Reconcile
  import opened Executor
  import opened Agreement
  import opened Phases
  import opened Achieved
  import opened ViewEnds
  import opened Safety
  import opened Executable
  import opened Refusals
  import opened Effects
  import opened Standing
  import opened Success
  import Convergence
  import ExactRounds
  import Fits
  import Goals
  import Rounds
  import Runs
  import ViewRounds
  import Views

  // --- agreement of the POSIX half ---

  ghost predicate PosixUserInSync(ro: Roster, cls: Classifier, w: World, u: User) {
    if u.status == Reserved then
      u.name in w.users && cls.Uid(w.users[u.name].uid) == Managed ==> w.users[u.name].uid == u.uid
    else
      && u.name in w.users && w.users[u.name].uid == u.uid
      && ManagedMemberships(w, cls, u.name) == DeclaredGroups(ro, u.name)
  }

  /** Groups with their folders and views, accounts and memberships, are as declared. */
  ghost predicate PosixInSync(host: Host, cls: Classifier, ro: Roster, w: World) {
    && (forall g :: g in ro.groups ==> GroupInSync(host, ro, w, g))
    && forall u :: u in ro.users ==> PosixUserInSync(ro, cls, w, u)
  }

  ghost predicate QuietKept(acts: seq<Action>) {
    forall a :: a in acts && NssKind(a.kind) ==> ClassOf(a.kind) == Notice
  }

  lemma QuietKeptIs(acts: seq<Action>)
    ensures Quiet(NssOnly(acts)) <==> QuietKept(acts)
  {
    forall a ensures a in NssOnly(acts) <==> a in acts && NssKind(a.kind) { NssOnlyMembers(acts, a); }
  }

  lemma QuietAccountKept(u: User, groups: seq<Name>, st: State, cls: Classifier)
    requires cls.Uid(u.uid) == Managed
    ensures QuietKept(AccountActions(u, groups, st, cls)) <==>
              if u.status == Reserved then u.name in st.users ==> st.users[u.name].uid == u.uid
              else u.name in st.users && st.users[u.name].uid == u.uid && SetOf(groups) == st.users[u.name].groups
  {
    var acts := AccountActions(u, groups, st, cls);
    assert forall a :: a in SmbActions(u, st) ==> !NssKind(a.kind);
    if u.name in st.users && st.users[u.name].uid == u.uid {
      if u.status != Reserved { QuietPresentKept(u, groups, st.users[u.name], SmbActions(u, st)); }
    } else if u.name in st.users || u.status != Reserved {
      assert |acts| == 1 && acts[0] in acts;
    }
  }

  lemma QuietPresentKept(u: User, groups: seq<Name>, cur: UserState, rest: seq<Action>)
    requires forall a :: a in rest ==> !NssKind(a.kind)
    ensures QuietKept(PresentUserActions(u, groups, cur) + rest) <==> SetOf(groups) == cur.groups
  {
    var acts := PresentUserActions(u, groups, cur);
    if SetOf(groups) != cur.groups {
      assert acts[0] in acts + rest && acts[0].kind == UpdateUserGroups;
    } else {
      assert forall a :: a in acts ==> a.kind == EnsureHome;
    }
  }

  lemma QuietUserKept(env: Env, ro: Roster, w: World, u: User)
    requires Ready(ro, env.cls) && u in ro.users
    ensures QuietKept(ActionsFor(ro, Collect(env.host, w, env.cls), env.cls)(u)) <==> PosixUserInSync(ro, env.cls, w, u)
  {
    var st, groups := Collect(env.host, w, env.cls), UserGroups(SortBy(GroupKey, ro.groups), ro.users, u.name);
    CollectSees(env, w, u.name);
    UserGroupsExact(ro, u.name);
    QuietAccountKept(u, groups, st, env.cls);
    QuietQuotaKept(AccountActions(u, groups, st, env.cls), u, st);
  }

  lemma QuietQuotaKept(acts: seq<Action>, u: User, st: State)
    ensures QuietKept(acts + QuotaActions(u, st)) <==> QuietKept(acts)
  {
    assert forall a :: a in QuotaActions(u, st) ==> !NssKind(a.kind);
  }

  lemma QuietAll(acts: seq<Action>)
    requires forall a :: a in acts ==> NssKind(a.kind)
    ensures QuietKept(acts) <==> Quiet(acts)
  {
  }

  lemma GroupPartsKept(ro: Roster, st: State, cls: Classifier, a: Action)
    requires a in FolderPart(ro, st, cls) || a in ReaderPart(ro, st, cls) || a in OwnerPart(ro, st, cls)
    ensures NssKind(a.kind)
  {
    if a in FolderPart(ro, st, cls) {
      FolderPlanned(ro, st, cls, a);
      var g :| g in ro.groups && a in GroupActions(st, cls)(g);
      GroupKinds(st, cls, g, a);
    } else if a in ReaderPart(ro, st, cls) {
      ReaderPlanned(ro, st, cls, a);
      var g :| g in ro.groups && a in ReadersFor(ro, st, cls)(g);
      Kinds(ro, st, cls, g, "", a);
    } else {
      OwnerPlanned(ro, st, cls, a);
      var g :| g in ro.groups && a in OwnerActions(st, cls)(g);
      Kinds(ro, st, cls, g, "", a);
    }
  }

  lemma OrphanKind(ro: Roster, st: State, cls: Classifier, n: Name, a: Action)
    requires a in OrphansFor(ro, st, cls)(n)
    ensures a.kind in {OrphanUser, DisableUser}
  {
  }

  lemma OrphanUserKind(ro: Roster, st: State, cls: Classifier, a: Action)
    requires a in OrphanUserPart(ro, st, cls)
    ensures a.kind in {OrphanUser, DisableUser}
  {
    OrphanPlanned(ro, st, cls, a);
    var n :| n in st.users && a in OrphansFor(ro, st, cls)(n);
    OrphanKind(ro, st, cls, n, a);
  }

  lemma OrphansKept(ro: Roster, st: State, cls: Classifier, a: Action)
    requires a in OrphanGroupPart(ro, st, cls) || a in OrphanUserPart(ro, st, cls)
    ensures !NssKind(a.kind) || ClassOf(a.kind) == Notice
  {
    if a in OrphanGroupPart(ro, st, cls) {
      GroupsOnlyNoticed(ro, st, cls, a);
    } else {
      OrphanUserKind(ro, st, cls, a);
    }
  }

  lemma QuietUsersKept(env: Env, ro: Roster, w: World)
    requires Ready(ro, env.cls)
    ensures QuietKept(UserPart(ro, Collect(env.host, w, env.cls), env.cls)) <==>
              forall u :: u in ro.users ==> PosixUserInSync(ro, env.cls, w, u)
  {
    var st := Collect(env.host, w, env.cls);
    forall u | u in ro.users
      ensures QuietKept(ActionsFor(ro, st, env.cls)(u)) <==> PosixUserInSync(ro, env.cls, w, u)
    {
      QuietUserKept(env, ro, w, u);
    }
    forall a
      ensures a in UserPart(ro, st, env.cls) <==> exists u :: u in ro.users && a in ActionsFor(ro, st, env.cls)(u)
    {
      UserPlanned(ro, st, env.cls, a);
    }
  }

  /** What a posix-only run would do is nothing but notices exactly where the POSIX half agrees. */
  lemma PosixQuiet(env: Env, ro: Roster, w: World)
    requires Ready(ro, env.cls)
    ensures Quiet(NssOnly(PlanOf(env, ro, w))) <==> PosixInSync(env.host, env.cls, ro, w)
  {
    var cls, st := env.cls, Collect(env.host, w, env.cls);
    var A, B, C := FolderPart(ro, st, cls), ReaderPart(ro, st, cls), UserPart(ro, st, cls);
    var D, E, F := OwnerPart(ro, st, cls), OrphanGroupPart(ro, st, cls), OrphanUserPart(ro, st, cls);
    QuietKeptIs(PlanOf(env, ro, w));
    forall a | a in A || a in B || a in D ensures NssKind(a.kind) { GroupPartsKept(ro, st, cls, a); }
    forall a | a in E || a in F ensures !NssKind(a.kind) || ClassOf(a.kind) == Notice { OrphansKept(ro, st, cls, a); }
    QuietAll(A);
    QuietAll(B);
    QuietAll(D);
    QuietGroups(env, ro, w);
    QuietUsersKept(env, ro, w);
  }

  // --- hosts that a run of either half treats alike ---

  /** The same groups, and the same accounts under the same ids. */
  ghost predicate SameIds(v: World, x: World) {
    && v.groups == x.groups && v.users.Keys == x.users.Keys
    && forall n :: n in v.users ==> v.users[n].uid == x.users[n].uid && v.users[n].gid == x.users[n].gid
  }

  /** Every declared group's folder is as declared. */
  ghost predicate FoldersDeclared(ro: Roster, w: World) {
    forall g :: g in ro.groups ==>
                  && g.name in w.folders && w.folders[g.name].gid == g.gid
                  && w.folders[g.name].perm == g.anonymous.FolderPerm()
  }

  ghost predicate Alike(ro: Roster, v: World, x: World) {
    SameIds(v, x) && v.ns == x.ns && FoldersDeclared(ro, v) && FoldersDeclared(ro, x)
  }

  /** The same configuration, for both halves, with a seed, and without limits. */
  ghost function Whole(env: Env): Env {
    Env(env.host.(quotaEnforced := false), Deps(false, true), env.cls)
  }

  lemma MadeAlike(ro: Roster, v: World, x: World, g: Name)
    requires SameIds(v, x)
    ensures Made(ro, v, g) <==> Made(ro, x, g)
  {
    if h :| h in ro.groups && MadeBy(v, h, g) { assert MadeBy(x, h, g); }
    if h :| h in ro.groups && MadeBy(x, h, g) { assert MadeBy(v, h, g); }
  }

  lemma BornAlike(ro: Roster, v: World, x: World, u: User)
    requires SameIds(v, x)
    ensures Created(v, u) <==> Created(x, u)
    ensures BornHere(ro, v, u) <==> BornHere(ro, x, u)
  {
    MadeAlike(ro, v, x, u.name);
    assert UidInUse(v.users, u.uid) <==> UidInUse(x.users, u.uid);
  }

  lemma BornInAlike(ro: Roster, v: World, x: World, us: seq<User>, n: Name)
    requires SameIds(v, x)
    ensures BornIn(ro, v, us, n) <==> BornIn(ro, x, us, n)
  {
    forall u ensures BornHere(ro, v, u) <==> BornHere(ro, x, u) { BornAlike(ro, v, x, u); }
  }

  lemma MembershipsAlike(cls: Classifier, v: World, x: World, n: Name)
    requires SameIds(v, x)
    ensures ManagedMemberships(v, cls, n) == ManagedMemberships(x, cls, n)
    ensures ExtraMemberships(v, cls, n) == ExtraMemberships(x, cls, n)
  {
    assert Memberships(v, n) == Memberships(x, n);
  }

  lemma RejoinedAlike(env: Env, ro: Roster, v: World, x: World, u: User)
    requires SameIds(v, x)
    ensures Reworked(env, ro, v, u) <==> Reworked(Whole(env), ro, x, u)
    ensures Rejoined(env, ro, v, u) <==> Rejoined(Whole(env), ro, x, u)
  {
    BornAlike(ro, v, x, u);
    MembershipsAlike(env.cls, v, x, u.name);
    forall g ensures Available(ro, v, u, g) <==> Available(ro, x, u, g) {
      MadeAlike(ro, v, x, g);
      forall y ensures BornHere(ro, v, y) <==> BornHere(ro, x, y) { BornAlike(ro, v, x, y); }
    }
  }

  lemma MemberAlike(env: Env, ro: Roster, v: World, x: World, g: Name, m: Name)
    requires SameIds(v, x)
    ensures MemberThen(env, ro, v, ro.users, g, m) <==> MemberThen(Whole(env), ro, x, ro.users, g, m)
  {
    MembershipsAlike(env.cls, v, x, m);
    forall u ensures Rejoined(env, ro, v, u) <==> Rejoined(Whole(env), ro, x, u) { RejoinedAlike(env, ro, v, x, u); }
    assert RejoinedIn(env, ro, v, ro.users, m) <==> RejoinedIn(Whole(env), ro, x, ro.users, m);
  }

  lemma AdminsAlike(env: Env, ro: Roster, v: World, x: World, h: Group)
    requires SameIds(v, x)
    ensures AdminsSet(env, ro, v, h) <==> AdminsSet(Whole(env), ro, x, h)
  {
    forall o ensures BornIn(ro, v, ro.users, o) <==> BornIn(ro, x, ro.users, o) { BornInAlike(ro, v, x, ro.users, o); }
  }

  // --- what they do alike ---

  ghost function PosixEnd(env: Env, ro: Roster, v: World): World {
    Turn(env, ro, v, NoFaults())
  }

  ghost function WholeEnd(env: Env, ro: Roster, x: World): World {
    End(Whole(env), ro, x, NoFaults())
  }

  lemma FoundedOnce(env: Env, ro: Roster, v: World, x: World, g: Name, a: Id, b: Id)
    requires Ready(ro, env.cls) && SameIds(v, x)
    requires Founded(ro, v, ro.users, g, a) && Founded(ro, x, ro.users, g, b)
    ensures a == b
  {
    MadeAlike(ro, v, x, g);
    if Made(ro, v, g) {
      var h :| h in ro.groups && h.name == g && h.gid == a;
      var k :| k in ro.groups && k.name == g && k.gid == b;
      Goals.SameGroup(ro, env.cls, h, k);
    } else {
      var u :| u in ro.users && u.name == g && u.uid == a;
      var y :| y in ro.users && y.name == g && y.uid == b;
      Goals.SameUser(ro, env.cls, u, y);
    }
  }

  lemma KeysEndAlike(env: Env, ro: Roster, v: World, x: World, g: Name)
    requires Ready(ro, env.cls) && Windows(env.cls) && SameIds(v, x)
    ensures g in PosixEnd(env, ro, v).groups <==> g in WholeEnd(env, ro, x).groups
    ensures g in PosixEnd(env, ro, v).groups ==>
              PosixEnd(env, ro, v).groups[g].gid == WholeEnd(env, ro, x).groups[g].gid
  {
    GroupsEnd(env, ro, v, g);
    GroupsEnd(Whole(env), ro, x, g);
    MadeAlike(ro, v, x, g);
    BornInAlike(ro, v, x, ro.users, g);
    if g in PosixEnd(env, ro, v).groups && g !in v.groups {
      FoundedOnce(env, ro, v, x, g, PosixEnd(env, ro, v).groups[g].gid, WholeEnd(env, ro, x).groups[g].gid);
    }
  }

  lemma MembersEndAlike(env: Env, ro: Roster, v: World, x: World, g: Name)
    requires Ready(ro, env.cls) && Windows(env.cls) && SameIds(v, x)
    requires g in PosixEnd(env, ro, v).groups && g in WholeEnd(env, ro, x).groups
    ensures PosixEnd(env, ro, v).groups[g].members == WholeEnd(env, ro, x).groups[g].members
  {
    forall m
      ensures m in PosixEnd(env, ro, v).groups[g].members <==> m in WholeEnd(env, ro, x).groups[g].members
    {
      MembersEnd(env, ro, v, g, m);
      MembersEnd(Whole(env), ro, x, g, m);
      MemberAlike(env, ro, v, x, g, m);
    }
  }

  lemma AdminsEndAlike(env: Env, ro: Roster, v: World, x: World, g: Name)
    requires Ready(ro, env.cls) && Windows(env.cls) && SameIds(v, x)
    requires g in PosixEnd(env, ro, v).groups && g in WholeEnd(env, ro, x).groups
    ensures PosixEnd(env, ro, v).groups[g].admins == WholeEnd(env, ro, x).groups[g].admins
  {
    Standing.AdminsEnd(env, ro, v, g);
    Standing.AdminsEnd(Whole(env), ro, x, g);
    forall h ensures AdminsSet(env, ro, v, h) <==> AdminsSet(Whole(env), ro, x, h) { AdminsAlike(env, ro, v, x, h); }
    if h: Group :| h.name == g && AdminsSet(env, ro, v, h) {
      assert PosixEnd(env, ro, v).groups[g].admins == SortBy(Self, h.owners);
    }
  }

  lemma GroupsEndAlike(env: Env, ro: Roster, v: World, x: World)
    requires Ready(ro, env.cls) && Windows(env.cls) && SameIds(v, x)
    ensures PosixEnd(env, ro, v).groups == WholeEnd(env, ro, x).groups
  {
    var a, b := PosixEnd(env, ro, v).groups, WholeEnd(env, ro, x).groups;
    forall g ensures (g in a <==> g in b) && (g in a ==> a[g] == b[g]) {
      KeysEndAlike(env, ro, v, x, g);
      if g in a {
        MembersEndAlike(env, ro, v, x, g);
        AdminsEndAlike(env, ro, v, x, g);
      }
    }
  }

  lemma NewAccount(env: Env, ro: Roster, base: World, n: Name) returns (u: User)
    requires Ready(ro, env.cls)
    requires n in Turn(env, ro, base, NoFaults()).users && n !in base.users
    ensures u in ro.users && u.name == n
    ensures var acct := Turn(env, ro, base, NoFaults()).users[n]; acct.uid == u.uid && acct.gid == u.uid
  {
    TurnSafe(env, ro, base, NoFaults());
    var acct := Turn(env, ro, base, NoFaults()).users[n];
    assert Goals.BornAs(env, ro, base, n, acct);
    u :| u in ro.users && Goals.Live(env, base, u, n) && acct.uid == u.uid;
  }

  lemma UsersEndAlike(env: Env, ro: Roster, v: World, x: World, n: Name)
    requires Ready(ro, env.cls) && Windows(env.cls) && SameIds(v, x)
    ensures var a, b := PosixEnd(env, ro, v).users, WholeEnd(env, ro, x).users;
            (n in a <==> n in b) && (n in a ==> a[n].uid == b[n].uid && a[n].gid == b[n].gid)
  {
    UsersEnd(env, ro, v, n);
    UsersEnd(Whole(env), ro, x, n);
    BornInAlike(ro, v, x, ro.users, n);
    ApplyGrows(env, v, TurnActions(env, ro, v), NoFaults());
    ApplyGrows(Whole(env), x, PlanOf(Whole(env), ro, x), NoFaults());
    if n in PosixEnd(env, ro, v).users && n !in v.users {
      var u := NewAccount(env, ro, v, n);
      var y := NewAccount(Whole(env), ro, x, n);
      Goals.SameUser(ro, env.cls, u, y);
    }
  }

  lemma IdsEndAlike(env: Env, ro: Roster, v: World, x: World)
    requires Ready(ro, env.cls) && Windows(env.cls) && SameIds(v, x)
    ensures SameIds(PosixEnd(env, ro, v), WholeEnd(env, ro, x))
  {
    var a, b := PosixEnd(env, ro, v).users, WholeEnd(env, ro, x).users;
    GroupsEndAlike(env, ro, v, x);
    forall n ensures (n in a <==> n in b) && (n in a ==> a[n].uid == b[n].uid && a[n].gid == b[n].gid) {
      UsersEndAlike(env, ro, v, x, n);
    }
  }

  // --- views ---

  lemma ObservedAlike(ro: Roster, v: World, x: World, g: Group)
    requires Alike(ro, v, x) && g in ro.groups
    ensures Views.Observed(v.ns, v.folders, g.name) == Views.Observed(x.ns, x.folders, g.name)
  {
    Views.ObservedDepends(v.ns, x.ns, v.folders, x.folders, g.name);
  }

  lemma ReaderPartAlike(env: Env, ro: Roster, v: World, x: World)
    requires Ready(ro, env.cls) && Alike(ro, v, x)
    ensures ReaderPart(ro, Collect(env.host, v, env.cls), env.cls)
            == ReaderPart(ro, Collect(Whole(env).host, x, env.cls), env.cls)
  {
    var gs := SortBy(GroupKey, ro.groups);
    var f := ReadersFor(ro, Collect(env.host, v, env.cls), env.cls);
    var h := ReadersFor(ro, Collect(Whole(env).host, x, env.cls), env.cls);
    SortByMembers(GroupKey, ro.groups);
    forall g | g in gs ensures f(g) == h(g) {
      ReaderPlan(env, ro, v, g);
      ReaderPlan(Whole(env), ro, x, g);
      ObservedAlike(ro, v, x, g);
    }
    FlatPointwise(f, h, gs);
  }

  /** Only the reader views of declared groups are set, whose folders carry the same gid on both. */
  ghost predicate SetsDeclared(ro: Roster, acts: seq<Action>) {
    forall a :: a in acts ==> a.kind == SetGroupReaders && GroupNamed(ro, a.name)
  }

  ghost predicate FolderGidsAlike(ro: Roster, v: World, x: World) {
    forall g :: g in ro.groups ==>
                  g.name in v.folders && g.name in x.folders && v.folders[g.name].gid == x.folders[g.name].gid
  }

  lemma {:induction false} SetsAlike(env: Env, ro: Roster, v: World, x: World, acts: seq<Action>)
    requires v.ns == x.ns && FolderGidsAlike(ro, v, x) && SetsDeclared(ro, acts)
    ensures Apply(env, v, acts, NoFaults()).w.ns == Apply(Whole(env), x, acts, NoFaults()).w.ns
    ensures Apply(env, v, acts, NoFaults()).w.folders == v.folders
    ensures Apply(Whole(env), x, acts, NoFaults()).w.folders == x.folders
    decreases |acts|
  {
    if acts != [] {
      var n := |acts| - 1;
      assert acts[n] in acts && forall a :: a in acts[..n] ==> a in acts;
      SetsAlike(env, ro, v, x, acts[..n]);
      var w, y := Apply(env, v, acts[..n], NoFaults()).w, Apply(Whole(env), x, acts[..n], NoFaults()).w;
      SetAlike(env, ro, w, y, acts[n]);
    }
  }

  lemma SetAlike(env: Env, ro: Roster, v: World, x: World, a: Action)
    requires v.ns == x.ns && FolderGidsAlike(ro, v, x) && a.kind == SetGroupReaders && GroupNamed(ro, a.name)
    ensures One(env, v, a, {}).w.ns == One(Whole(env), x, a, {}).w.ns
    ensures One(env, v, a, {}).w.folders == v.folders && One(Whole(env), x, a, {}).w.folders == x.folders
  {
    ViewRounds.OneNs(env, v, a, {});
    ViewRounds.OneNs(Whole(env), x, a, {});
    Views.EnsuredDepends(v.ns, v.folders, x.folders, a.name, a.id, a.readers, {});
  }

  lemma ReaderPartSets(ro: Roster, st: State, cls: Classifier)
    ensures SetsDeclared(ro, ReaderPart(ro, st, cls))
  {
    forall a | a in ReaderPart(ro, st, cls) ensures a.kind == SetGroupReaders && GroupNamed(ro, a.name) {
      ReaderPlanned(ro, st, cls, a);
      var g :| g in ro.groups && a in ReadersFor(ro, st, cls)(g);
      ReaderNamed(ro, st, cls, g, a);
    }
  }

  lemma ReaderNamed(ro: Roster, st: State, cls: Classifier, g: Group, a: Action)
    requires a in ReadersFor(ro, st, cls)(g)
    ensures a.kind == SetGroupReaders && a.name == g.name
  {
  }

  lemma {:induction false} NssOnlyAll(acts: seq<Action>)
    requires forall a :: a in acts ==> NssKind(a.kind)
    ensures NssOnly(acts) == acts
  {
    if acts != [] {
      assert acts[0] in acts && forall a :: a in acts[1..] ==> a in acts;
      NssOnlyAll(acts[1..]);
      assert acts == [acts[0]] + acts[1..];
    }
  }

  lemma {:induction false} NsKept(env: Env, w: World, acts: seq<Action>)
    requires forall a :: a in acts ==> a.kind != SetGroupReaders
    ensures Apply(env, w, acts, NoFaults()).w.ns == w.ns
    decreases |acts|
  {
    if acts != [] {
      var n := |acts| - 1;
      assert acts[n] in acts && forall a :: a in acts[..n] ==> a in acts;
      NsKept(env, w, acts[..n]);
      ViewRounds.OneNs(env, Apply(env, w, acts[..n], NoFaults()).w, acts[n], {});
    }
  }

  lemma DoesKeepNs(env: Env, w: World, acts: seq<Action>)
    requires forall a :: a in acts ==> a.kind != SetGroupReaders
    ensures Does(env, w, acts).ns == w.ns
  {
    forall a | a in Kept(env, acts) ensures a in acts { NssOnlyMembers(acts, a); }
    NsKept(env, w, Kept(env, acts));
  }

  lemma AfterReaders(ro: Roster, st: State, cls: Classifier, a: Action)
    requires a.kind == SetGroupReaders
    ensures a !in UserPart(ro, st, cls) && a !in OwnerPart(ro, st, cls)
    ensures a !in OrphanGroupPart(ro, st, cls) && a !in OrphanUserPart(ro, st, cls)
  {
    LateReaders(ro, st, cls, a);
    UserPlanned(ro, st, cls, a);
    forall u ensures a !in ActionsFor(ro, st, cls)(u) {
      if a in ActionsFor(ro, st, cls)(u) { UserKinds(ro, st, cls, u, a); }
    }
    if a in OrphanGroupPart(ro, st, cls) { GroupsOnlyNoticed(ro, st, cls, a); }
  }

  lemma RestKeepsNs(env: Env, w: World, a: seq<Action>, b: seq<Action>, c: seq<Action>, d: seq<Action>,
                    e: seq<Action>, f: seq<Action>)
    requires forall x :: x in c + d + e + f ==> x.kind != SetGroupReaders
    ensures Does(env, w, a + b + c + d + e + f).ns == Does(env, Does(env, w, a), b).ns
  {
    assert a + b + c + d + e + f == (a + b) + (c + d + e + f);
    DoesConcat(env, w, a + b, c + d + e + f);
    DoesConcat(env, w, a, b);
    DoesKeepNs(env, Does(env, w, a + b), c + d + e + f);
  }

  /** The views a run leaves are those its second part leaves. */
  lemma NsOfReaders(env: Env, ro: Roster, base: World)
    ensures var st := Collect(env.host, base, env.cls);
            Turn(env, ro, base, NoFaults()).ns
            == Does(env, Does(env, base, FolderPart(ro, st, env.cls)), ReaderPart(ro, st, env.cls)).ns
  {
    var st, cls := Collect(env.host, base, env.cls), env.cls;
    var C, D := UserPart(ro, st, cls), OwnerPart(ro, st, cls);
    var E, F := OrphanGroupPart(ro, st, cls), OrphanUserPart(ro, st, cls);
    forall a: Action | a in C + D + E + F ensures a.kind != SetGroupReaders {
      if a.kind == SetGroupReaders { AfterReaders(ro, st, cls, a); }
    }
    RestKeepsNs(env, base, FolderPart(ro, st, cls), ReaderPart(ro, st, cls), C, D, E, F);
  }

  /** When the views are set every declared group's folder carries its gid, in either half. */
  lemma FoldersReady(env: Env, ro: Roster, base: World, g: Group)
    requires Ready(ro, env.cls) && FoldersDeclared(ro, base) && g in ro.groups
    ensures var w := Does(env, base, FolderPart(ro, Collect(env.host, base, env.cls), env.cls));
            w.ns == base.ns && g.name in w.folders && w.folders[g.name].gid == g.gid
  {
    FoldersOk(env, ro, base);
    SortByMembers(GroupKey, ro.groups);
    assert FolderThen(env, base, g) == Some(g.gid);
  }

  lemma NsEndAlike(env: Env, ro: Roster, v: World, x: World)
    requires Ready(ro, env.cls) && Alike(ro, v, x)
    ensures PosixEnd(env, ro, v).ns == WholeEnd(env, ro, x).ns
  {
    var st, sx := Collect(env.host, v, env.cls), Collect(Whole(env).host, x, env.cls);
    var a := Does(env, v, FolderPart(ro, st, env.cls));
    var b := Does(Whole(env), x, FolderPart(ro, sx, env.cls));
    NsOfReaders(env, ro, v);
    NsOfReaders(Whole(env), ro, x);
    ReaderPartAlike(env, ro, v, x);
    FoldersOk(env, ro, v);
    FoldersOk(Whole(env), ro, x);
    forall g | g in ro.groups
      ensures g.name in a.folders && g.name in b.folders && a.folders[g.name].gid == b.folders[g.name].gid
    {
      FoldersReady(env, ro, v, g);
      FoldersReady(Whole(env), ro, x, g);
    }
    var sets := ReaderPart(ro, st, env.cls);
    ReaderPartSets(ro, st, env.cls);
    NssOnlyAll(sets);
    SetsAlike(env, ro, a, b, sets);
  }

  // --- clean rounds ---

  /** A run of the POSIX half without a refusal and without an error. */
  ghost predicate PosixClean(env: Env, ro: Roster, v: World) {
    && Ready(ro, env.cls) && Windows(env.cls) && env.deps.posixOnly && Views.Wf(v.ns)
    && NoRefusal(PlanOf(env, ro, v)) && Apply(env, v, TurnActions(env, ro, v), NoFaults()).ok
  }

  lemma GroupRefusedAlike(v: World, x: World, h: Group)
    requires SameIds(v, x)
    ensures GroupRefused(v, h) <==> GroupRefused(x, h)
  {
  }

  lemma UserRefusedAlike(env: Env, ro: Roster, v: World, x: World, u: User)
    requires SameIds(v, x)
    ensures UserRefused(env, v, u) <==> UserRefused(Whole(env), x, u)
  {
    BornAlike(ro, v, x, u);
  }

  lemma RefusedAlike(env: Env, ro: Roster, v: World, x: World)
    requires Ready(ro, env.cls) && Windows(env.cls) && SameIds(v, x)
    ensures NoRefusal(PlanOf(env, ro, v)) <==> NoRefusal(PlanOf(Whole(env), ro, x))
  {
    RefusalFree(env, ro, v);
    RefusalFree(Whole(env), ro, x);
    forall u ensures UserRefused(env, v, u) <==> UserRefused(Whole(env), x, u) { UserRefusedAlike(env, ro, v, x, u); }
    forall h ensures GroupRefused(v, h) <==> GroupRefused(x, h) { GroupRefusedAlike(v, x, h); }
  }

  lemma ReadersAlike(env: Env, ro: Roster, v: World, x: World, g: Group)
    requires Alike(ro, v, x) && g in ro.groups
    ensures ReadersSettable(env, ro, v, g) <==> ReadersSettable(Whole(env), ro, x, g)
  {
    ObservedAlike(ro, v, x, g);
    assert FolderThen(env, v, g) == Some(g.gid) == FolderThen(Whole(env), x, g);
  }

  lemma OwnersAlike(env: Env, ro: Roster, v: World, x: World, g: Group)
    requires SameIds(v, x)
    ensures OwnersSettable(env, ro, v, g) <==> OwnersSettable(Whole(env), ro, x, g)
  {
    MadeAlike(ro, v, x, g.name);
    BornInAlike(ro, v, x, ro.users, g.name);
    forall o ensures BornIn(ro, v, ro.users, o) <==> BornIn(ro, x, ro.users, o) { BornInAlike(ro, v, x, ro.users, o); }
  }

  lemma SucceedsAlike(env: Env, ro: Roster, v: World, x: World)
    requires Alike(ro, v, x) && Succeeds(env, ro, v)
    ensures Succeeds(Whole(env), ro, x)
  {
    forall g | g in ro.groups
      ensures ReadersSettable(Whole(env), ro, x, g) && OwnersSettable(Whole(env), ro, x, g)
    {
      ReadersAlike(env, ro, v, x, g);
      OwnersAlike(env, ro, v, x, g);
    }
    forall u | u in ro.users ensures UserServed(Whole(env), ro, x, u) {
      BornAlike(ro, v, x, u);
      RejoinedAlike(env, ro, v, x, u);
    }
  }

  lemma CleanAlike(env: Env, ro: Roster, v: World, x: World)
    requires PosixClean(env, ro, v) && Alike(ro, v, x)
    ensures Clean(Whole(env), ro, x, NoFaults())
  {
    RefusedAlike(env, ro, v, x);
    SucceedsExactly(env, ro, v);
    SucceedsAlike(env, ro, v, x);
    SucceedsExactly(Whole(env), ro, x);
  }

  lemma EndAlike(env: Env, ro: Roster, v: World, x: World)
    requires PosixClean(env, ro, v) && Alike(ro, v, x)
    ensures Clean(Whole(env), ro, x, NoFaults()) && Alike(ro, PosixEnd(env, ro, v), WholeEnd(env, ro, x))
  {
    CleanAlike(env, ro, v, x);
    IdsEndAlike(env, ro, v, x);
    NsEndAlike(env, ro, v, x);
    PosixOnlySafe(env, ro, v, NoFaults());
    forall g | g in ro.groups
      ensures var w := WholeEnd(env, ro, x);
              && g.name in w.folders && w.folders[g.name].gid == g.gid
              && w.folders[g.name].perm == g.anonymous.FolderPerm()
    {
      FolderEnds(Whole(env), ro, x, NoFaults(), g);
    }
  }

  // --- any number of rounds ---

  type Round = World -> World

  /** The host after n rounds. */
  ghost function After(round: Round, v: World, n: nat): World
    decreases n
  {
    if n == 0 then v else After(round, round(v), n - 1)
  }

  /** Each of n rounds starts from a good host. */
  ghost predicate Each(good: World -> bool, round: Round, v: World, n: nat)
    decreases n
  {
    n == 0 || (good(v) && Each(good, round, round(v), n - 1))
  }

  ghost predicate Steps(good: World -> bool, round: Round, also: World -> bool, other: Round,
                        alike: (World, World) -> bool)
  {
    forall v, x :: alike(v, x) && good(v) ==> also(x) && alike(round(v), other(x))
  }

  /** Two kinds of rounds that keep hosts alike do so however many there are. */
  lemma {:induction false} SideBySide(good: World -> bool, round: Round, also: World -> bool, other: Round,
                                      alike: (World, World) -> bool, v: World, x: World, n: nat)
    requires Steps(good, round, also, other, alike) && alike(v, x) && Each(good, round, v, n)
    ensures Each(also, other, x, n) && alike(After(round, v, n), After(other, x, n))
    decreases n
  {
    if n > 0 { SideBySide(good, round, also, other, alike, round(v), other(x), n - 1); }
  }

  lemma {:induction false} LastRound(good: World -> bool, round: Round, v: World, n: nat)
    requires n > 0 && Each(good, round, v, n)
    ensures good(After(round, v, n - 1)) && After(round, v, n) == round(After(round, v, n - 1))
    decreases n
  {
    if n > 1 { LastRound(good, round, round(v), n - 1); }
  }

  ghost function Posix(env: Env, ro: Roster): Round { (v: World) => PosixEnd(env, ro, v) }

  ghost function Cleanly(env: Env, ro: Roster): World -> bool { (v: World) => PosixClean(env, ro, v) }

  ghost function Both(env: Env, ro: Roster): Round { (x: World) => WholeEnd(env, ro, x) }

  ghost function BothCleanly(env: Env, ro: Roster): World -> bool {
    (x: World) => Clean(Whole(env), ro, x, NoFaults())
  }

  ghost function AlikeFor(ro: Roster): (World, World) -> bool { (v: World, x: World) => Alike(ro, v, x) }

  lemma KeepsAlike(env: Env, ro: Roster)
    ensures Steps(Cleanly(env, ro), Posix(env, ro), BothCleanly(env, ro), Both(env, ro), AlikeFor(ro))
  {
    forall v, x | Alike(ro, v, x) && PosixClean(env, ro, v)
      ensures Clean(Whole(env), ro, x, NoFaults()) && Alike(ro, PosixEnd(env, ro, v), WholeEnd(env, ro, x))
    {
      EndAlike(env, ro, v, x);
    }
  }

  ghost function Faultless(n: nat): seq<nat -> set<nat>> {
    seq(n, i => NoFaults())
  }

  lemma {:induction false} FaultlessSteps(clean: ExactRounds.Cleanly, end: ExactRounds.Ending, good: World -> bool,
                                          round: Round, x: World, n: nat)
    requires forall y :: good(y) == clean(y, NoFaults()) && round(y) == end(y, NoFaults())
    ensures ExactRounds.Each(clean, end, x, Faultless(n)) <==> Each(good, round, x, n)
    ensures ExactRounds.Last(end, x, Faultless(n)) == After(round, x, n)
    decreases n
  {
    if n > 0 {
      assert Faultless(n)[0] == NoFaults() && Faultless(n)[1..] == Faultless(n - 1);
      FaultlessSteps(clean, end, good, round, round(x), n - 1);
    }
  }

  /** Rounds of both halves, as they are counted elsewhere. */
  lemma AsRounds(env: Env, ro: Roster, x: World, n: nat)
    ensures Rounds.AllClean(Whole(env), ro, x, Faultless(n)) <==> Each(BothCleanly(env, ro), Both(env, ro), x, n)
    ensures Rounds.AfterRounds(Whole(env), ro, x, Faultless(n)) == After(Both(env, ro), x, n)
  {
    ExactRounds.SameRounds(Whole(env), ro, x, Faultless(n));
    FaultlessSteps(ExactRounds.CleanOf(Whole(env), ro), ExactRounds.EndOf(Whole(env), ro),
                   BothCleanly(env, ro), Both(env, ro), x, n);
  }

  lemma SyncAlike(env: Env, ro: Roster, v: World, x: World)
    requires Alike(ro, v, x)
    ensures PosixInSync(env.host, env.cls, ro, v) <==> PosixInSync(Whole(env).host, env.cls, ro, x)
  {
    forall g | g in ro.groups ensures GroupInSync(env.host, ro, v, g) <==> GroupInSync(Whole(env).host, ro, x, g) {
      ObservedAlike(ro, v, x, g);
    }
    forall u ensures PosixUserInSync(ro, env.cls, v, u) <==> PosixUserInSync(ro, env.cls, x, u) {
      MembershipsAlike(env.cls, v, x, u.name);
    }
  }

  lemma UserOtherHalf(env: Env, ro: Roster, x: World, u: User)
    requires Clean(Whole(env), ro, x, NoFaults()) && u in ro.users
    ensures var w := WholeEnd(env, ro, x);
            UserInSync(Whole(env).host, ro, env.cls, w, u) <==> PosixUserInSync(ro, env.cls, w, u)
  {
    Convergence.UserEnds(Whole(env), ro, x, NoFaults(), u);
    if u.status == Reserved {
      Convergence.ReservedEnds(Whole(env), ro, x, NoFaults(), u);
    } else {
      Convergence.MembershipsEnd(Whole(env), ro, x, NoFaults(), u);
    }
  }

  /** After a clean run without limits the other half agrees in any case. */
  lemma OtherHalf(env: Env, ro: Roster, x: World)
    requires Clean(Whole(env), ro, x, NoFaults())
    ensures var w := WholeEnd(env, ro, x);
            InSync(Whole(env).host, env.cls, ro, w) <==> PosixInSync(Whole(env).host, env.cls, ro, w)
  {
    var w := WholeEnd(env, ro, x);
    forall u | u in ro.users
      ensures UserInSync(Whole(env).host, ro, env.cls, w, u) <==> PosixUserInSync(ro, env.cls, w, u)
    {
      UserOtherHalf(env, ro, x, u);
    }
    forall n | n in w.users ensures OrphanInSync(ro, env.cls, w, n) {
      Convergence.OrphanInSyncEnds(Whole(env), ro, x, NoFaults(), n);
    }
  }

  /** After clean rounds of both halves, without limits, the POSIX half agrees exactly if that many are enough. */
  lemma WholeAgrees(env: Env, ro: Roster, x: World, n: nat)
    requires n > 0 && Each(BothCleanly(env, ro), Both(env, ro), x, n)
    ensures PosixInSync(Whole(env).host, env.cls, ro, After(Both(env, ro), x, n)) <==>
              Rounds.PrimariesClear(ro, x) && (env.host.viewsKnown ==> ExactRounds.Stable(ro, x, n))
  {
    AsRounds(env, ro, x, n);
    ExactRounds.Exactly(Whole(env), ro, x, Faultless(n));
    LastRound(BothCleanly(env, ro), Both(env, ro), x, n);
    OtherHalf(env, ro, After(Both(env, ro), x, n - 1));
    assert !ExactRounds.LimitLeft(Whole(env), ro, x);
  }

  lemma {:induction false} Constant(round: Round, look: World -> map<Name, Dir>, v: World, n: nat)
    requires forall x :: look(round(x)) == look(x)
    ensures look(After(round, v, n)) == look(v)
    decreases n
  {
    if n > 0 { Constant(round, look, round(v), n - 1); }
  }

  lemma FoldersStay(env: Env, ro: Roster, v: World, n: nat)
    requires env.deps.posixOnly
    ensures After(Posix(env, ro), v, n).folders == v.folders
  {
    var look := (x: World) => x.folders;
    forall x ensures look(Posix(env, ro)(x)) == look(x) { PosixOnlySafe(env, ro, x, NoFaults()); }
    Constant(Posix(env, ro), look, v, n);
  }

  lemma AlikeAtFirst(ro: Roster, w: World)
    requires FoldersDeclared(ro, w)
    ensures AlikeFor(ro)(w, w)
  {
  }

  lemma AlikeIs(ro: Roster, v: World, x: World)
    requires AlikeFor(ro)(v, x)
    ensures Alike(ro, v, x)
  {
  }

  lemma EndsAlike(env: Env, ro: Roster, w: World, n: nat)
    requires Each(Cleanly(env, ro), Posix(env, ro), w, n) && FoldersDeclared(ro, w)
    ensures Each(BothCleanly(env, ro), Both(env, ro), w, n)
    ensures Alike(ro, After(Posix(env, ro), w, n), After(Both(env, ro), w, n))
  {
    KeepsAlike(env, ro);
    AlikeAtFirst(ro, w);
    SideBySide(Cleanly(env, ro), Posix(env, ro), BothCleanly(env, ro), Both(env, ro), AlikeFor(ro), w, w, n);
    AlikeIs(ro, After(Posix(env, ro), w, n), After(Both(env, ro), w, n));
  }

  lemma AgreeOn(env: Env, ro: Roster, v: World, x: World, enough: bool)
    requires Alike(ro, v, x) && (PosixInSync(Whole(env).host, env.cls, ro, x) <==> enough)
    ensures PosixInSync(env.host, env.cls, ro, v) <==> enough
  {
    SyncAlike(env, ro, v, x);
  }

  lemma AgreesAlike(env: Env, ro: Roster, w: World, n: nat)
    requires n > 0 && Each(Cleanly(env, ro), Posix(env, ro), w, n) && FoldersDeclared(ro, w)
    ensures PosixInSync(env.host, env.cls, ro, After(Posix(env, ro), w, n)) <==>
              Rounds.PrimariesClear(ro, w) && (env.host.viewsKnown ==> ExactRounds.Stable(ro, w, n))
  {
    EndsAlike(env, ro, w, n);
    WholeAgrees(env, ro, w, n);
    AgreeOn(env, ro, After(Posix(env, ro), w, n), After(Both(env, ro), w, n),
            Rounds.PrimariesClear(ro, w) && (env.host.viewsKnown ==> ExactRounds.Stable(ro, w, n)));
  }

  lemma QuietAt(env: Env, ro: Roster, w: World, end: World, enough: bool)
    requires Ready(ro, env.cls) && end.folders == w.folders
    requires FoldersDeclared(ro, w) ==> (PosixInSync(env.host, env.cls, ro, end) <==> enough)
    ensures Quiet(NssOnly(PlanOf(env, ro, end))) <==> FoldersDeclared(ro, w) && enough
  {
    PosixQuiet(env, ro, end);
    if PosixInSync(env.host, env.cls, ro, end) {
      forall g | g in ro.groups ensures GroupInSync(env.host, ro, end, g) {}
    }
  }

  /** After any number of clean posix-only runs, one more would change nothing exactly if every declared
      group's folder was as declared from the start, for such runs leave folders alone; no primary group is in
      the way; and, where views are kept, that many rounds are enough for them. */
  lemma PosixExactly(env: Env, ro: Roster, w: World, n: nat)
    requires env.deps.posixOnly && Ready(ro, env.cls)
    requires n > 0 && Each(Cleanly(env, ro), Posix(env, ro), w, n)
    ensures Quiet(NssOnly(PlanOf(env, ro, After(Posix(env, ro), w, n)))) <==>
              && FoldersDeclared(ro, w) && Rounds.PrimariesClear(ro, w)
              && (env.host.viewsKnown ==> ExactRounds.Stable(ro, w, n))
  {
    FoldersStay(env, ro, w, n);
    if FoldersDeclared(ro, w) { AgreesAlike(env, ro, w, n); }
    QuietAt(env, ro, w, After(Posix(env, ro), w, n),
            Rounds.PrimariesClear(ro, w) && (env.host.viewsKnown ==> ExactRounds.Stable(ro, w, n)));
  }
}
