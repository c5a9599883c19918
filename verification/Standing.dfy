/** Standing groups: what a run in which no call is failed from outside does to a group the host already
    has, refused or not. Nothing here assumes that the plan is free of refusals or that its actions succeed. */
module Standing {
  import opened Common
  import opened Names
  import opened IdRange
  import opened Roster
  import opened System
  import opened Reconcile
  import opened Executor
  import opened Agreement
  import opened Goals
  import opened Phases
  import opened Calls
  import opened Effects
  import opened Safety
  import opened Executable
  import opened Refusals
  import Views

  // --- read off the host and the roster ---

  /** A declared group that the run makes: its name is free, and so is its gid. */
  ghost predicate MadeBy(base: World, h: Group, g: Name) {
    h.name == g && g !in base.groups && !GidInUse(base.groups, h.gid)
  }

  ghost predicate Made(ro: Roster, base: World, g: Name) {
    exists h :: h in ro.groups && MadeBy(base, h, g)
  }

  /** Its account is made: its own group is there, or can be made, or is another's and its gid is in use. */
  ghost predicate BornHere(ro: Roster, base: World, u: User) {
    Created(base, u) && (u.name in base.groups || (Made(ro, base, u.name) <==> GidInUse(base.groups, u.uid)))
  }

  /** A user with an account whose memberships differ from those declared. */
  ghost predicate Reworked(env: Env, ro: Roster, base: World, u: User) {
    && u.status != Reserved && u.name in base.users && base.users[u.name].uid == u.uid
    && ManagedMemberships(base, env.cls, u.name) != DeclaredGroups(ro, u.name)
  }

  /** The group is there when u's turn comes: from the start, as a declared group, or as the private group
      of a user no later than u. */
  ghost predicate Available(ro: Roster, base: World, u: User, g: Name) {
    || g in base.groups || Made(ro, base, g)
    || exists v :: v in ro.users && BornHere(ro, base, v) && v.name == g && !Less(u.name, g)
  }

  /** usermod -G goes through for u. */
  ghost predicate Rejoined(env: Env, ro: Roster, base: World, u: User) {
    && (BornHere(ro, base, u) || Reworked(env, ro, base, u))
    && forall g :: g in DeclaredGroups(ro, u.name) ==> Available(ro, base, u, g)
  }

  // --- the first part: groups ---

  ghost predicate MadeOf(base: World, hs: seq<Group>, g: Name) {
    exists h :: h in hs && MadeBy(base, h, g)
  }

  ghost predicate GroupsAt(base: World, hs: seq<Group>, w: World) {
    && w.users == base.users
    && (forall g :: g in w.groups <==> g in base.groups || MadeOf(base, hs, g))
    && (forall g :: g in base.groups ==> w.groups[g] == base.groups[g])
    && forall g :: g in w.groups && g !in base.groups ==>
                     exists h :: h in hs && MadeBy(base, h, g) && w.groups[g] == GroupEntry(h.gid, {}, [])
  }

  /** What the first part plans for a declared group that is not there. */
  lemma GroupPlan(env: Env, base: World, h: Group)
    requires env.cls.Gid(h.gid) == Managed
    ensures var acts := GroupActions(Collect(env.host, base, env.cls), env.cls)(h);
            || (acts == [GroupAction(h, CreateGroup)] && (h.name in base.groups || !GidInUse(base.groups, h.gid)))
            || (AllIdle(acts) && (h.name in base.groups || GidInUse(base.groups, h.gid)))
  {
    var st := Collect(env.host, base, env.cls);
    CollectSees(env, base, h.name);
    HeldSeen(env, base, h.gid, h.name);
    if n :| n in st.groups && n != h.name && st.groups[n].gid == h.gid {
      assert base.groups[n].gid == h.gid;
    }
  }

  lemma GidStillFree(env: Env, ro: Roster, base: World, hs: seq<Group>, w: World, h: Group)
    requires Ready(ro, env.cls) && (forall x :: x in hs ==> x in ro.groups) && h in ro.groups && h !in hs
    requires GroupsAt(base, hs, w)
    ensures h.name in w.groups <==> h.name in base.groups
    ensures GidInUse(w.groups, h.gid) <==> GidInUse(base.groups, h.gid)
  {
    if MadeOf(base, hs, h.name) {
      var x :| x in hs && MadeBy(base, x, h.name);
      SameGroup(ro, env.cls, x, h);
    }
    if g :| g in base.groups && base.groups[g].gid == h.gid { assert w.groups[g].gid == h.gid; }
    if g :| g in w.groups && w.groups[g].gid == h.gid {
      if g in base.groups { assert base.groups[g].gid == h.gid; }
    }
  }

  lemma OneMoreMade(base: World, hs: seq<Group>, h: Group, g: Name)
    ensures MadeOf(base, hs + [h], g) <==> MadeOf(base, hs, g) || MadeBy(base, h, g)
  {
    assert forall x :: x in hs + [h] <==> x in hs || x == h;
  }

  lemma GroupTurn(env: Env, ro: Roster, base: World, hs: seq<Group>, w: World, h: Group)
    requires Ready(ro, env.cls) && (forall x :: x in hs ==> x in ro.groups) && h in ro.groups && h !in hs
    requires GroupsAt(base, hs, w)
    ensures GroupsAt(base, hs + [h], Does(env, w, GroupActions(Collect(env.host, base, env.cls), env.cls)(h)))
  {
    var acts := GroupActions(Collect(env.host, base, env.cls), env.cls)(h);
    GroupPlan(env, base, h);
    GidStillFree(env, ro, base, hs, w, h);
    forall g ensures MadeOf(base, hs + [h], g) <==> MadeOf(base, hs, g) || MadeBy(base, h, g) {
      OneMoreMade(base, hs, h, g);
    }
    if AllIdle(acts) {
      DoesIdle(env, w, acts);
    } else {
      DoesOne(env, w, acts[0]);
      CreateGroupDoes(env, w, acts[0]);
    }
    GroupsNext(base, hs, w, h, Does(env, w, acts));
  }

  lemma GroupsNext(base: World, hs: seq<Group>, w: World, h: Group, next: World)
    requires GroupsAt(base, hs, w) && next.users == w.users
    requires forall g :: MadeOf(base, hs + [h], g) <==> MadeOf(base, hs, g) || MadeBy(base, h, g)
    requires next.groups == if h.name in w.groups || GidInUse(base.groups, h.gid) then w.groups
                            else w.groups[h.name := GroupEntry(h.gid, {}, [])]
    requires h.name in w.groups <==> h.name in base.groups
    ensures GroupsAt(base, hs + [h], next)
  {
    assert forall x :: x in hs + [h] <==> x in hs || x == h;
  }

  lemma GroupNext(ro: Roster, cls: Classifier, i: nat)
    requires Ready(ro, cls) && i < |SortBy(GroupKey, ro.groups)|
    ensures var hs := SortBy(GroupKey, ro.groups);
            && hs[i] in ro.groups && hs[i] !in hs[..i] && (forall x :: x in hs[..i] ==> x in ro.groups)
            && hs[..i + 1] == hs[..i] + [hs[i]]
  {
    NotYet(GroupKey, ro.groups, i);
  }

  lemma GroupStep(env: Env, ro: Roster, base: World, i: nat, w: World)
    requires Ready(ro, env.cls) && i < |SortBy(GroupKey, ro.groups)|
    requires GroupsAt(base, SortBy(GroupKey, ro.groups)[..i], w)
    ensures var hs := SortBy(GroupKey, ro.groups);
            GroupsAt(base, hs[..i + 1], Does(env, w, GroupActions(Collect(env.host, base, env.cls), env.cls)(hs[i])))
  {
    var hs := SortBy(GroupKey, ro.groups);
    GroupNext(ro, env.cls, i);
    GroupTurn(env, ro, base, hs[..i], w, hs[i]);
  }

  lemma GroupTurns(env: Env, ro: Roster, base: World)
    requires Ready(ro, env.cls)
    ensures GroupsAt(base, SortBy(GroupKey, ro.groups),
                     Does(env, base, FolderPart(ro, Collect(env.host, base, env.cls), env.cls)))
  {
    var hs, f := SortBy(GroupKey, ro.groups), GroupActions(Collect(env.host, base, env.cls), env.cls);
    var p := (i: nat, w: World) => i <= |hs| && GroupsAt(base, hs[..i], w);
    forall i: nat, w | i < |hs| && p(i, w) ensures p(i + 1, Does(env, w, f(hs[i]))) { GroupStep(env, ro, base, i, w); }
    assert GroupsAt(base, hs[..0], base);
    Turns(env, base, f, hs, |hs|, p);
    assert hs[..|hs|] == hs;
  }

  // --- the third part: accounts ---

  /** u's turn comes after exactly the users whose names are less. */
  ghost predicate NextUser(ro: Roster, us: seq<User>, u: User) {
    && u in ro.users && u !in us && (forall v :: v in us ==> v in ro.users && Less(v.name, u.name))
    && forall v :: v in ro.users && !Less(u.name, v.name) ==> v in us || v == u
  }

  ghost predicate BornIn(ro: Roster, base: World, us: seq<User>, n: Name) {
    exists v :: v in us && BornHere(ro, base, v) && v.name == n
  }

  /** The accounts once these users had their turn. */
  ghost predicate UsersAt(ro: Roster, base: World, us: seq<User>, w: World) {
    && (forall n :: n in w.users <==> n in base.users || BornIn(ro, base, us, n))
    && forall n :: n in w.users && n !in base.users ==> exists v :: v in us && v.uid == w.users[n].uid
  }

  /** A new group is a declared one, or the private group of an account made with it. */
  ghost predicate Founded(ro: Roster, base: World, us: seq<User>, g: Name, gid: Id) {
    if Made(ro, base, g) then exists h :: h in ro.groups && h.name == g && h.gid == gid
    else exists v :: v in us && BornHere(ro, base, v) && v.name == g && v.uid == gid
  }

  /** And the groups. */
  ghost predicate KeysAt(ro: Roster, base: World, us: seq<User>, groups: map<Name, GroupEntry>) {
    && (forall g :: g in groups <==> g in base.groups || Made(ro, base, g) || BornIn(ro, base, us, g))
    && forall g :: g in groups && g !in base.groups ==> Founded(ro, base, us, g, groups[g].gid)
  }

  ghost predicate RejoinedIn(env: Env, ro: Roster, base: World, us: seq<User>, m: Name) {
    exists u :: u in us && u.name == m && Rejoined(env, ro, base, u)
  }

  /** The members of a group at the start: none where it is not there. */
  ghost function MembersOf(base: World, g: Name): set<Name> {
    if g in base.groups then base.groups[g].members else {}
  }

  ghost function AdminsOf(base: World, g: Name): seq<Name> {
    if g in base.groups then base.groups[g].admins else []
  }

  /** Those usermod was run for are in the groups it was given, the others where they were. */
  ghost predicate MemberThen(env: Env, ro: Roster, base: World, us: seq<User>, g: Name, m: Name) {
    if RejoinedIn(env, ro, base, us, m) then g in GroupsFor(env, ro, base, m) else m in MembersOf(base, g)
  }

  /** And their members. */
  ghost predicate MembersAt(env: Env, ro: Roster, base: World, us: seq<User>, groups: map<Name, GroupEntry>) {
    forall g :: g in groups ==>
                  && groups[g].admins == AdminsOf(base, g)
                  && forall m :: m in groups[g].members <==> MemberThen(env, ro, base, us, g, m)
  }

  ghost predicate Stage(env: Env, ro: Roster, base: World, us: seq<User>, w: World) {
    && Grows(base, w) && UsersAt(ro, base, us, w)
    && KeysAt(ro, base, us, w.groups) && MembersAt(env, ro, base, us, w.groups)
  }

  // --- one user's turn ---

  lemma OneMoreUser(env: Env, ro: Roster, base: World, us: seq<User>, u: User, n: Name)
    ensures BornIn(ro, base, us + [u], n) <==> BornIn(ro, base, us, n) || (BornHere(ro, base, u) && u.name == n)
    ensures RejoinedIn(env, ro, base, us + [u], n) <==>
              RejoinedIn(env, ro, base, us, n) || (Rejoined(env, ro, base, u) && u.name == n)
  {
    assert forall x :: x in us + [u] <==> x in us || x == u;
  }

  ghost function GroupsOf(env: Env, ro: Roster, u: User): seq<Name> {
    UserGroups(SortBy(GroupKey, ro.groups), ro.users, u.name)
  }

  lemma CreatedPlan(env: Env, ro: Roster, base: World, u: User) returns (rest: seq<Action>)
    requires Ready(ro, env.cls) && Windows(env.cls) && u in ro.users && Created(base, u)
    ensures AllIdle(rest)
    ensures ActionsFor(ro, Collect(env.host, base, env.cls), env.cls)(u)
            == [CreateAction(u, GroupsOf(env, ro, u), Collect(env.host, base, env.cls))] + rest
  {
    var st := Collect(env.host, base, env.cls);
    CollectSees(env, base, u.name);
    WindowsDisjoint(env.cls, u.uid);
    assert CreateRefusal(u, st) == NoCause;
    rest := QuotaActions(u, st);
  }

  /** The actions of an account that is there and is to be put into other groups. */
  lemma UpdateFirst(u: User, groups: seq<Name>, st: State, cls: Classifier) returns (rest: seq<Action>)
    requires cls.Uid(u.uid) == Managed && u.status != Reserved
    requires u.name in st.users && st.users[u.name].uid == u.uid && SetOf(groups) != st.users[u.name].groups
    ensures AllIdle(rest) && !Refused(rest)
    ensures AccountActions(u, groups, st, cls) ==
              [UserAction(u, UpdateUserGroups).(groups := MergeGroups(groups, st.users[u.name].extraGroups))] + rest
  {
    var cur := st.users[u.name];
    rest := (if HomeDrifted(u, cur) then [UserAction(u, EnsureHome)] else []) + SmbActions(u, st);
  }

  lemma NoneRefusedAmong(a: Action, rest: seq<Action>)
    requires a.kind != RefuseUser && !Refused(rest)
    ensures !Refused([a] + rest)
  {
  }

  lemma UpdatePlan(u: User, groups: seq<Name>, ro: Roster, st: State, cls: Classifier)
    returns (a: Action, rest: seq<Action>)
    requires cls.Uid(u.uid) == Managed && u.status != Reserved
    requires u.name in st.users && st.users[u.name].uid == u.uid && SetOf(groups) != st.users[u.name].groups
    requires groups == UserGroups(SortBy(GroupKey, ro.groups), ro.users, u.name)
    ensures a.kind == UpdateUserGroups && a.name == u.name
            && SetOf(a.groups) == SetOf(groups) + st.users[u.name].extraGroups
    ensures AllIdle(rest) && ActionsFor(ro, st, cls)(u) == [a] + rest
  {
    var account := UpdateFirst(u, groups, st, cls);
    a := UserAction(u, UpdateUserGroups).(groups := MergeGroups(groups, st.users[u.name].extraGroups));
    NoneRefusedAmong(a, account);
    QuotaIdle(u, st);
    rest := account + QuotaActions(u, st);
    assert [a] + account + QuotaActions(u, st) == [a] + rest;
  }

  lemma ReworkedPlan(env: Env, ro: Roster, base: World, u: User) returns (a: Action, rest: seq<Action>)
    requires Ready(ro, env.cls) && u in ro.users && Reworked(env, ro, base, u)
    ensures a.kind == UpdateUserGroups && a.name == u.name && SetOf(a.groups) == GroupsFor(env, ro, base, u.name)
    ensures AllIdle(rest)
    ensures ActionsFor(ro, Collect(env.host, base, env.cls), env.cls)(u) == [a] + rest
  {
    var st, groups := Collect(env.host, base, env.cls), GroupsOf(env, ro, u);
    CollectSees(env, base, u.name);
    UserGroupsExact(ro, u.name);
    a, rest := UpdatePlan(u, groups, ro, st, env.cls);
  }

  lemma QuotaIdle(u: User, st: State)
    ensures AllIdle(QuotaActions(u, st))
  {
  }

  lemma AccountIdle(u: User, groups: seq<Name>, st: State, cls: Classifier)
    requires cls.Uid(u.uid) == Managed
    requires u.status != Reserved && u.name !in st.users ==> CreateRefusal(u, st) != NoCause
    requires u.status != Reserved && u.name in st.users && st.users[u.name].uid == u.uid ==>
               SetOf(groups) == st.users[u.name].groups
    ensures AllIdle(AccountActions(u, groups, st, cls))
  {
  }

  lemma OtherPlan(env: Env, ro: Roster, base: World, u: User)
    requires Ready(ro, env.cls) && u in ro.users && !Created(base, u) && !Reworked(env, ro, base, u)
    ensures AllIdle(ActionsFor(ro, Collect(env.host, base, env.cls), env.cls)(u))
  {
    var st, groups := Collect(env.host, base, env.cls), GroupsOf(env, ro, u);
    CollectSees(env, base, u.name);
    UserGroupsExact(ro, u.name);
    HeldSeen(env, base, u.uid, u.name);
    AccountIdle(u, groups, st, env.cls);
    QuotaIdle(u, st);
  }

  /** When u's turn comes its account can be made exactly if that shows on the host from the start. */
  lemma FreeNow(env: Env, ro: Roster, base: World, us: seq<User>, w: World, u: User)
    requires Ready(ro, env.cls) && Windows(env.cls) && NextUser(ro, us, u) && Created(base, u)
    requires Stage(env, ro, base, us, w)
    ensures u.name !in w.users && !UidInUse(w.users, u.uid)
    ensures u.name in w.groups <==> u.name in base.groups || Made(ro, base, u.name)
    ensures AccountFree(w, u.name, u.uid) <==> BornHere(ro, base, u)
  {
    WindowsDisjoint(env.cls, u.uid);
    forall v | v in us && v.name == u.name ensures false { LessAsymmetric(v.name, u.name); }
    forall v | v in us && v.uid == u.uid ensures false { assert v == u; }
    forall m | m in w.users ensures w.users[m].uid != u.uid {
      if m in base.users { assert w.users[m].uid == base.users[m].uid; }
    }
    GidInUseNow(env, ro, base, us, w, u.uid);
  }

  /** A gid that no declared group has, nor any user so far, is in use exactly if it was. */
  lemma GidInUseNow(env: Env, ro: Roster, base: World, us: seq<User>, w: World, gid: Id)
    requires Grows(base, w) && KeysAt(ro, base, us, w.groups)
    requires (forall h :: h in ro.groups ==> h.gid != gid) && forall v :: v in us ==> v.uid != gid
    ensures GidInUse(w.groups, gid) <==> GidInUse(base.groups, gid)
  {
    if g :| g in base.groups && base.groups[g].gid == gid { assert w.groups[g].gid == gid; }
    if g :| g in w.groups && w.groups[g].gid == gid {
      if g in base.groups { assert base.groups[g].gid == gid; }
    }
  }

  /** The groups a user declares are there when its turn comes, exactly if they are available to it. */
  lemma GroupsThere(ro: Roster, base: World, us: seq<User>, groups: map<Name, GroupEntry>, u: User, wanted: set<Name>)
    requires NextUser(ro, us, u)
    requires forall g :: g in groups <==>
                           g in base.groups || Made(ro, base, g) || BornIn(ro, base, us, g)
                           || (BornHere(ro, base, u) && u.name == g)
    ensures wanted <= groups.Keys <==> forall g :: g in wanted ==> Available(ro, base, u, g)
  {
    forall g ensures g in groups <==> Available(ro, base, u, g) {
      if v :| v in us && BornHere(ro, base, v) && v.name == g { LessAsymmetric(v.name, u.name); }
      if BornHere(ro, base, u) && u.name == g && Less(u.name, g) { LessAsymmetric(u.name, g); }
      if v :| v in ro.users && BornHere(ro, base, v) && v.name == g && !Less(u.name, g) { assert v in us || v == u; }
    }
  }

  lemma UsersNext(ro: Roster, base: World, us: seq<User>, w: World, u: User, next: World)
    requires UsersAt(ro, base, us, w) && Grows(w, next)
    requires next.users.Keys == w.users.Keys + if BornHere(ro, base, u) then {u.name} else {}
    requires BornHere(ro, base, u) ==> u.name !in w.users && next.users[u.name].uid == u.uid
    ensures UsersAt(ro, base, us + [u], next)
  {
    assert forall x :: x in us + [u] <==> x in us || x == u;
    forall n ensures n in next.users <==> n in base.users || BornIn(ro, base, us + [u], n) {
      assert BornIn(ro, base, us + [u], n) <==> BornIn(ro, base, us, n) || (BornHere(ro, base, u) && u.name == n);
    }
  }

  lemma KeysNext(ro: Roster, base: World, us: seq<User>, groups: map<Name, GroupEntry>, u: User,
                 next: map<Name, GroupEntry>)
    requires KeysAt(ro, base, us, groups) && GroupsGrow(groups, next)
    requires next.Keys == groups.Keys + if BornHere(ro, base, u) then {u.name} else {}
    requires BornHere(ro, base, u) && u.name !in groups ==> next[u.name].gid == u.uid
    ensures KeysAt(ro, base, us + [u], next)
  {
    assert forall x :: x in us + [u] <==> x in us || x == u;
    forall g ensures g in next <==> g in base.groups || Made(ro, base, g) || BornIn(ro, base, us + [u], g) {
      assert BornIn(ro, base, us + [u], g) <==> BornIn(ro, base, us, g) || (BornHere(ro, base, u) && u.name == g);
    }
  }

  /** usermod was given no private group that was yet to be made. */
  lemma NotGivenYet(env: Env, ro: Roster, base: World, us: seq<User>, u: User, m: Name)
    requires NextUser(ro, us, u) && u.name !in base.groups && !Made(ro, base, u.name)
    requires RejoinedIn(env, ro, base, us, m)
    ensures u.name !in GroupsFor(env, ro, base, m)
  {
    var v :| v in us && v.name == m && Rejoined(env, ro, base, v);
    NotAvailableYet(ro, base, us, u, v);
  }

  lemma NotAvailableYet(ro: Roster, base: World, us: seq<User>, u: User, v: User)
    requires NextUser(ro, us, u) && u.name !in base.groups && !Made(ro, base, u.name) && v in us
    ensures !Available(ro, base, v, u.name)
  {
  }

  lemma MembersOwn(env: Env, ro: Roster, base: World, us: seq<User>, groups: map<Name, GroupEntry>, u: User)
    requires NextUser(ro, us, u) && KeysAt(ro, base, us, groups) && MembersAt(env, ro, base, us, groups)
    ensures MembersAt(env, ro, base, us, OwnMade(ro, base, groups, u))
  {
    if BornHere(ro, base, u) && u.name !in groups {
      forall m ensures !MemberThen(env, ro, base, us, u.name, m) {
        if RejoinedIn(env, ro, base, us, m) { NotGivenYet(env, ro, base, us, u, m); }
      }
    }
  }

  lemma MembersSame(env: Env, ro: Roster, base: World, us: seq<User>, groups: map<Name, GroupEntry>, u: User)
    requires MembersAt(env, ro, base, us, groups) && !Rejoined(env, ro, base, u)
    ensures MembersAt(env, ro, base, us + [u], groups)
  {
    forall g, m ensures MemberThen(env, ro, base, us + [u], g, m) <==> MemberThen(env, ro, base, us, g, m) {
      OneMoreUser(env, ro, base, us, u, m);
    }
  }

  lemma MembersRejoined(env: Env, ro: Roster, base: World, us: seq<User>, groups: map<Name, GroupEntry>, u: User)
    requires MembersAt(env, ro, base, us, groups) && Rejoined(env, ro, base, u)
    ensures MembersAt(env, ro, base, us + [u], ReplaceMemberships(groups, u.name, GroupsFor(env, ro, base, u.name)))
  {
    forall g, m
      ensures MemberThen(env, ro, base, us + [u], g, m) <==>
                if m == u.name then g in GroupsFor(env, ro, base, m) else MemberThen(env, ro, base, us, g, m)
    {
      OneMoreUser(env, ro, base, us, u, m);
    }
  }

  /** The groups after u's turn. */
  ghost function OwnMade(ro: Roster, base: World, groups: map<Name, GroupEntry>, u: User): map<Name, GroupEntry> {
    if BornHere(ro, base, u) then WithOwn(groups, u.name, u.uid) else groups
  }

  ghost function TurnOf(env: Env, ro: Roster, base: World, groups: map<Name, GroupEntry>, u: User)
    : map<Name, GroupEntry>
  {
    var own := OwnMade(ro, base, groups, u);
    if Rejoined(env, ro, base, u) then ReplaceMemberships(own, u.name, GroupsFor(env, ro, base, u.name)) else own
  }

  lemma MembersNext(env: Env, ro: Roster, base: World, us: seq<User>, groups: map<Name, GroupEntry>, u: User)
    requires NextUser(ro, us, u) && KeysAt(ro, base, us, groups) && MembersAt(env, ro, base, us, groups)
    ensures MembersAt(env, ro, base, us + [u], TurnOf(env, ro, base, groups, u))
  {
    var own := OwnMade(ro, base, groups, u);
    MembersOwn(env, ro, base, us, groups, u);
    if Rejoined(env, ro, base, u) {
      MembersRejoined(env, ro, base, us, own, u);
    } else {
      MembersSame(env, ro, base, us, own, u);
    }
  }

  lemma TurnKeys(env: Env, ro: Roster, base: World, us: seq<User>, groups: map<Name, GroupEntry>, u: User)
    requires KeysAt(ro, base, us, groups)
    ensures KeysAt(ro, base, us + [u], TurnOf(env, ro, base, groups, u))
  {
    KeysNext(ro, base, us, groups, u, TurnOf(env, ro, base, groups, u));
  }

  /** What u's turn does, read off the host as it was at the start. */
  ghost predicate TurnDone(env: Env, ro: Roster, base: World, w: World, u: User, next: World) {
    && next.users.Keys == w.users.Keys + (if BornHere(ro, base, u) then {u.name} else {})
    && (BornHere(ro, base, u) ==> u.name !in w.users && next.users[u.name].uid == u.uid)
    && next.groups == TurnOf(env, ro, base, w.groups, u)
  }

  lemma StageNext(env: Env, ro: Roster, base: World, us: seq<User>, w: World, u: User, next: World)
    requires NextUser(ro, us, u) && Stage(env, ro, base, us, w) && Grows(w, next)
    requires TurnDone(env, ro, base, w, u, next)
    ensures Stage(env, ro, base, us + [u], next)
  {
    GrowsTransitive(base, w, next);
    UsersNext(ro, base, us, w, u, next);
    TurnKeys(env, ro, base, us, w.groups, u);
    MembersNext(env, ro, base, us, w.groups, u);
  }

  lemma CreatedOne(env: Env, ro: Roster, base: World, w: World, a: Action, u: User)
    requires a.kind in {CreateUser, CreateUserDisabled} && a.name == u.name && a.id == u.uid && Created(base, u)
    requires u.name !in w.users && !UidInUse(w.users, u.uid)
             && (AccountFree(w, u.name, u.uid) <==> BornHere(ro, base, u))
    requires SetOf(a.groups) == DeclaredGroups(ro, u.name)
    requires BornHere(ro, base, u) ==>
               (DeclaredGroups(ro, u.name) <= WithOwn(w.groups, u.name, u.uid).Keys
                <==> forall g :: g in DeclaredGroups(ro, u.name) ==> Available(ro, base, u, g))
    ensures TurnDone(env, ro, base, w, u, One(env, w, a, {}).w)
  {
    CreateDoes(env, w, a);
    assert GroupsFor(env, ro, base, u.name) == DeclaredGroups(ro, u.name);
    assert !Reworked(env, ro, base, u);
  }

  lemma CreatedGroups(env: Env, ro: Roster, base: World, us: seq<User>, w: World, u: User)
    requires NextUser(ro, us, u) && Stage(env, ro, base, us, w) && BornHere(ro, base, u)
    ensures DeclaredGroups(ro, u.name) <= WithOwn(w.groups, u.name, u.uid).Keys
            <==> forall g :: g in DeclaredGroups(ro, u.name) ==> Available(ro, base, u, g)
  {
    GroupsThere(ro, base, us, WithOwn(w.groups, u.name, u.uid), u, DeclaredGroups(ro, u.name));
  }

  ghost function DoesUser(env: Env, ro: Roster, base: World, w: World, u: User): World {
    Does(env, w, ActionsFor(ro, Collect(env.host, base, env.cls), env.cls)(u))
  }

  lemma CreatedTurn(env: Env, ro: Roster, base: World, us: seq<User>, w: World, u: User)
    requires Ready(ro, env.cls) && Windows(env.cls) && NextUser(ro, us, u) && Created(base, u)
    requires Stage(env, ro, base, us, w)
    ensures TurnDone(env, ro, base, w, u, DoesUser(env, ro, base, w, u))
  {
    var a := CreateAction(u, GroupsOf(env, ro, u), Collect(env.host, base, env.cls));
    var rest := CreatedPlan(env, ro, base, u);
    FreeNow(env, ro, base, us, w, u);
    UserGroupsExact(ro, u.name);
    if BornHere(ro, base, u) { CreatedGroups(env, ro, base, us, w, u); }
    CreatedOne(env, ro, base, w, a, u);
    DoesOne(env, w, a);
    DoesThenIdle(env, w, [a], rest);
  }

  lemma ReworkedOne(env: Env, ro: Roster, base: World, w: World, a: Action, u: User)
    requires a.kind == UpdateUserGroups && a.name == u.name && Reworked(env, ro, base, u) && u.name in w.users
    requires SetOf(a.groups) == GroupsFor(env, ro, base, u.name)
    requires GroupsFor(env, ro, base, u.name) <= w.groups.Keys
             <==> forall g :: g in DeclaredGroups(ro, u.name) ==> Available(ro, base, u, g)
    ensures TurnDone(env, ro, base, w, u, One(env, w, a, {}).w)
  {
    UpdateDoes(env, w, a);
    assert !BornHere(ro, base, u);
  }

  lemma ReworkedGroups(env: Env, ro: Roster, base: World, us: seq<User>, w: World, u: User)
    requires NextUser(ro, us, u) && Stage(env, ro, base, us, w) && Reworked(env, ro, base, u)
    ensures u.name in w.users
    ensures GroupsFor(env, ro, base, u.name) <= w.groups.Keys
            <==> forall g :: g in DeclaredGroups(ro, u.name) ==> Available(ro, base, u, g)
  {
    GroupsThere(ro, base, us, w.groups, u, GroupsFor(env, ro, base, u.name));
  }

  lemma ReworkedTurn(env: Env, ro: Roster, base: World, us: seq<User>, w: World, u: User)
    requires Ready(ro, env.cls) && NextUser(ro, us, u) && Reworked(env, ro, base, u)
    requires Stage(env, ro, base, us, w)
    ensures TurnDone(env, ro, base, w, u, DoesUser(env, ro, base, w, u))
  {
    var a, rest := ReworkedPlan(env, ro, base, u);
    ReworkedGroups(env, ro, base, us, w, u);
    ReworkedOne(env, ro, base, w, a, u);
    DoesOne(env, w, a);
    DoesThenIdle(env, w, [a], rest);
  }

  lemma OtherTurn(env: Env, ro: Roster, base: World, w: World, u: User)
    requires Ready(ro, env.cls) && u in ro.users && !Created(base, u) && !Reworked(env, ro, base, u)
    ensures TurnDone(env, ro, base, w, u, DoesUser(env, ro, base, w, u))
  {
    OtherPlan(env, ro, base, u);
    DoesIdle(env, w, ActionsFor(ro, Collect(env.host, base, env.cls), env.cls)(u));
  }

  lemma UserTurn(env: Env, ro: Roster, base: World, us: seq<User>, w: World, u: User)
    requires Ready(ro, env.cls) && Windows(env.cls) && NextUser(ro, us, u)
    requires Stage(env, ro, base, us, w)
    ensures TurnDone(env, ro, base, w, u, DoesUser(env, ro, base, w, u))
  {
    if Created(base, u) {
      CreatedTurn(env, ro, base, us, w, u);
    } else if Reworked(env, ro, base, u) {
      ReworkedTurn(env, ro, base, us, w, u);
    } else {
      OtherTurn(env, ro, base, w, u);
    }
  }

  lemma OneMoreTurn(env: Env, ro: Roster, base: World, us: seq<User>, w: World, u: User)
    requires Ready(ro, env.cls) && Windows(env.cls) && NextUser(ro, us, u) && Stage(env, ro, base, us, w)
    ensures Stage(env, ro, base, us + [u], DoesUser(env, ro, base, w, u))
  {
    UserTurn(env, ro, base, us, w, u);
    ApplyGrows(env, w, Kept(env, ActionsFor(ro, Collect(env.host, base, env.cls), env.cls)(u)), NoFaults());
    StageNext(env, ro, base, us, w, u, DoesUser(env, ro, base, w, u));
  }

  lemma UserNext(ro: Roster, cls: Classifier, i: nat)
    requires Ready(ro, cls) && i < |SortBy(UserKey, ro.users)|
    ensures var us := SortBy(UserKey, ro.users);
            NextUser(ro, us[..i], us[i]) && us[..i + 1] == us[..i] + [us[i]]
  {
    NotYet(UserKey, ro.users, i);
  }

  lemma UserStep(env: Env, ro: Roster, base: World, i: nat, v: World)
    requires Ready(ro, env.cls) && Windows(env.cls) && i < |SortBy(UserKey, ro.users)|
    requires Stage(env, ro, base, SortBy(UserKey, ro.users)[..i], v)
    ensures var us := SortBy(UserKey, ro.users); Stage(env, ro, base, us[..i + 1], DoesUser(env, ro, base, v, us[i]))
  {
    var us := SortBy(UserKey, ro.users);
    UserNext(ro, env.cls, i);
    OneMoreTurn(env, ro, base, us[..i], v, us[i]);
  }

  lemma UserTurns(env: Env, ro: Roster, base: World, w: World)
    requires Ready(ro, env.cls) && Windows(env.cls) && Stage(env, ro, base, [], w)
    ensures Stage(env, ro, base, SortBy(UserKey, ro.users),
                  Does(env, w, UserPart(ro, Collect(env.host, base, env.cls), env.cls)))
  {
    var us, f := SortBy(UserKey, ro.users), ActionsFor(ro, Collect(env.host, base, env.cls), env.cls);
    var p := (i: nat, v: World) => i <= |us| && Stage(env, ro, base, us[..i], v);
    forall i: nat, v | i < |us| && p(i, v) ensures p(i + 1, Does(env, v, f(us[i]))) { UserStep(env, ro, base, i, v); }
    Turns(env, w, f, us, |us|, p);
    assert us[..|us|] == us;
  }

  // --- the fourth part: administrators ---

  /** gpasswd -A goes through for h: it is planned, and every owner has an account by then. */
  ghost predicate AdminsSet(env: Env, ro: Roster, base: World, h: Group) {
    && h in ro.groups && env.host.gshadow
    && (if h.name in base.groups && env.cls.Gid(base.groups[h.name].gid) == Managed
        then multiset(h.owners) != multiset(base.groups[h.name].admins) else h.owners != [])
    && forall o :: o in h.owners ==> o in base.users || BornIn(ro, base, ro.users, o)
  }

  ghost predicate AdminsSetIn(env: Env, ro: Roster, base: World, hs: seq<Group>, g: Name) {
    exists h :: h in hs && h.name == g && AdminsSet(env, ro, base, h)
  }

  ghost predicate AdminsAt(env: Env, ro: Roster, base: World, hs: seq<Group>, start: World, w: World) {
    && w.users == start.users && w.groups.Keys == start.groups.Keys
    && forall g :: g in w.groups ==>
                     && w.groups[g].members == start.groups[g].members
                     && w.groups[g].gid == start.groups[g].gid
                     && (!AdminsSetIn(env, ro, base, hs, g) ==> w.groups[g].admins == start.groups[g].admins)
                     && forall h :: h in hs && h.name == g && AdminsSet(env, ro, base, h) ==>
                                      w.groups[g].admins == SortBy(Self, h.owners)
  }

  lemma OwnersPlan(env: Env, base: World, h: Group)
    requires env.cls.Gid(h.gid) == Managed
    ensures var acts := OwnerActions(Collect(env.host, base, env.cls), env.cls)(h);
            || acts == []
            || acts == [Action(SetGroupAdmins, h.name, h.gid, groups := h.owners)]
    ensures env.host.gshadow ==>
              (OwnerActions(Collect(env.host, base, env.cls), env.cls)(h) == []
               <==> if h.name in base.groups && env.cls.Gid(base.groups[h.name].gid) == Managed
                    then multiset(h.owners) == multiset(base.groups[h.name].admins) else h.owners == [])
  {
    var st := Collect(env.host, base, env.cls);
    if h.name in st.groups { assert st.groups[h.name] == CollectGroup(env.host, base, h.name); }
  }

  lemma OwnersThere(ro: Roster, base: World, us: seq<User>, w: World, h: Group)
    requires UsersAt(ro, base, us, w) && forall u :: u in us <==> u in ro.users
    ensures SetOf(h.owners) <= w.users.Keys
            <==> forall o :: o in h.owners ==> o in base.users || BornIn(ro, base, ro.users, o)
  {
    forall o ensures o in w.users <==> o in base.users || BornIn(ro, base, ro.users, o) {
      assert BornIn(ro, base, us, o) <==> BornIn(ro, base, ro.users, o);
    }
  }

  ghost predicate OwnersDone(env: Env, ro: Roster, base: World, w: World, h: Group, next: World) {
    && next.users == w.users && next.groups.Keys == w.groups.Keys
    && (forall g :: g in w.groups && g != h.name ==> next.groups[g] == w.groups[g])
    && (h.name in w.groups ==>
        next.groups[h.name] == if AdminsSet(env, ro, base, h) then w.groups[h.name].(admins := SortBy(Self, h.owners))
                               else w.groups[h.name])
  }

  lemma OwnersTurn(env: Env, ro: Roster, base: World, w: World, h: Group)
    requires Ready(ro, env.cls) && h in ro.groups
    requires SetOf(h.owners) <= w.users.Keys <==>
             forall o :: o in h.owners ==> o in base.users || BornIn(ro, base, ro.users, o)
    ensures OwnersDone(env, ro, base, w, h, Does(env, w, OwnerActions(Collect(env.host, base, env.cls), env.cls)(h)))
  {
    var acts := OwnerActions(Collect(env.host, base, env.cls), env.cls)(h);
    OwnersPlan(env, base, h);
    if acts == [] {
      DoesIdle(env, w, acts);
    } else {
      DoesOne(env, w, acts[0]);
      SetAdminsDoes(env, w, acts[0]);
    }
  }

  lemma AdminsNext(env: Env, ro: Roster, base: World, hs: seq<Group>, start: World, w: World, h: Group, next: World)
    requires Ready(ro, env.cls) && h in ro.groups && h !in hs && (forall x :: x in hs ==> x in ro.groups)
    requires AdminsAt(env, ro, base, hs, start, w)
    requires OwnersDone(env, ro, base, w, h, next)
    ensures AdminsAt(env, ro, base, hs + [h], start, next)
  {
    assert forall x :: x in hs + [h] <==> x in hs || x == h;
    forall x | x in hs ensures x.name != h.name {
      if x.name == h.name { SameGroup(ro, env.cls, x, h); }
    }
  }

  lemma AdminsStart(env: Env, ro: Roster, base: World, us: seq<User>, start: World)
    requires Stage(env, ro, base, us, start)
    ensures AdminsAt(env, ro, base, [], start, start)
  {
  }

  lemma OwnersStep(env: Env, ro: Roster, base: World, us: seq<User>, start: World, i: nat, v: World)
    requires Ready(ro, env.cls) && (forall u :: u in us <==> u in ro.users) && UsersAt(ro, base, us, start)
    requires i < |SortBy(GroupKey, ro.groups)|
    requires AdminsAt(env, ro, base, SortBy(GroupKey, ro.groups)[..i], start, v)
    ensures var hs := SortBy(GroupKey, ro.groups);
            AdminsAt(env, ro, base, hs[..i + 1], start,
                     Does(env, v, OwnerActions(Collect(env.host, base, env.cls), env.cls)(hs[i])))
  {
    var hs := SortBy(GroupKey, ro.groups);
    GroupNext(ro, env.cls, i);
    OwnersThere(ro, base, us, start, hs[i]);
    OwnersTurn(env, ro, base, v, hs[i]);
    AdminsNext(env, ro, base, hs[..i], start, v, hs[i],
               Does(env, v, OwnerActions(Collect(env.host, base, env.cls), env.cls)(hs[i])));
  }

  lemma OwnerTurns(env: Env, ro: Roster, base: World, us: seq<User>, start: World)
    requires Ready(ro, env.cls) && (forall u :: u in us <==> u in ro.users) && Stage(env, ro, base, us, start)
    ensures AdminsAt(env, ro, base, SortBy(GroupKey, ro.groups), start,
                     Does(env, start, OwnerPart(ro, Collect(env.host, base, env.cls), env.cls)))
  {
    var hs, f := SortBy(GroupKey, ro.groups), OwnerActions(Collect(env.host, base, env.cls), env.cls);
    var p := (i: nat, v: World) => i <= |hs| && AdminsAt(env, ro, base, hs[..i], start, v);
    AdminsStart(env, ro, base, us, start);
    forall i: nat, v | i < |hs| && p(i, v) ensures p(i + 1, Does(env, v, f(hs[i]))) {
      OwnersStep(env, ro, base, us, start, i, v);
    }
    Turns(env, start, f, hs, |hs|, p);
    assert hs[..|hs|] == hs;
  }

  // --- the whole run ---

  lemma IdleParts(ro: Roster, st: State, cls: Classifier)
    ensures AllIdle(ReaderPart(ro, st, cls)) && AllIdle(OrphanGroupPart(ro, st, cls) + OrphanUserPart(ro, st, cls))
  {
    forall a | a in ReaderPart(ro, st, cls) ensures Idle(a.kind) {
      ReaderPlanned(ro, st, cls, a);
      var g :| g in ro.groups && a in ReadersFor(ro, st, cls)(g);
      Kinds(ro, st, cls, g, "", a);
    }
    forall a | a in OrphanGroupPart(ro, st, cls) ensures Idle(a.kind) { GroupsOnlyNoticed(ro, st, cls, a); }
    forall a | a in OrphanUserPart(ro, st, cls) ensures Idle(a.kind) {
      OrphanPlanned(ro, st, cls, a);
      var n :| n in st.users && a in OrphansFor(ro, st, cls)(n);
      OrphanIdle(ro, st, cls, n, a);
    }
  }

  lemma OrphanIdle(ro: Roster, st: State, cls: Classifier, n: Name, a: Action)
    requires a in OrphansFor(ro, st, cls)(n)
    ensures Idle(a.kind)
  {
  }

  ghost function AfterFolders(env: Env, ro: Roster, base: World): World {
    var st := Collect(env.host, base, env.cls);
    Does(env, Does(env, base, FolderPart(ro, st, env.cls)), ReaderPart(ro, st, env.cls))
  }

  ghost function AfterUsers(env: Env, ro: Roster, base: World): World {
    Does(env, AfterFolders(env, ro, base), UserPart(ro, Collect(env.host, base, env.cls), env.cls))
  }

  ghost function AfterOwners(env: Env, ro: Roster, base: World): World {
    Does(env, AfterUsers(env, ro, base), OwnerPart(ro, Collect(env.host, base, env.cls), env.cls))
  }

  lemma InParts(env: Env, ro: Roster, base: World)
    ensures SameBooks(AfterOwners(env, ro, base), Turn(env, ro, base, NoFaults()))
  {
    var st, cls := Collect(env.host, base, env.cls), env.cls;
    IdleParts(ro, st, cls);
    SixParts(env, base, FolderPart(ro, st, cls), ReaderPart(ro, st, cls), UserPart(ro, st, cls),
             OwnerPart(ro, st, cls), OrphanGroupPart(ro, st, cls), OrphanUserPart(ro, st, cls));
  }

  lemma FoldersDone(env: Env, ro: Roster, base: World)
    requires Ready(ro, env.cls)
    ensures Stage(env, ro, base, [], AfterFolders(env, ro, base))
  {
    var st := Collect(env.host, base, env.cls);
    var folders, readers := FolderPart(ro, st, env.cls), ReaderPart(ro, st, env.cls);
    var w, next := Does(env, base, folders), AfterFolders(env, ro, base);
    GroupTurns(env, ro, base);
    IdleParts(ro, st, env.cls);
    DoesIdle(env, w, readers);
    ApplyGrows(env, base, Kept(env, folders), NoFaults());
    ApplyGrows(env, w, Kept(env, readers), NoFaults());
    GrowsTransitive(base, w, next);
    SortByMembers(GroupKey, ro.groups);
    StageStart(env, ro, base, SortBy(GroupKey, ro.groups), w, next);
  }

  lemma StageStart(env: Env, ro: Roster, base: World, hs: seq<Group>, w: World, next: World)
    requires GroupsAt(base, hs, w) && (forall h :: h in hs <==> h in ro.groups)
    requires SameBooks(w, next) && Grows(base, next)
    ensures Stage(env, ro, base, [], next)
  {
    forall g ensures MadeOf(base, hs, g) <==> Made(ro, base, g) {
      assert forall h :: h in hs && MadeBy(base, h, g) <==> h in ro.groups && MadeBy(base, h, g);
    }
  }

  lemma Run(env: Env, ro: Roster, base: World)
    requires Ready(ro, env.cls) && Windows(env.cls)
    ensures Stage(env, ro, base, SortBy(UserKey, ro.users), AfterUsers(env, ro, base))
    ensures AdminsAt(env, ro, base, SortBy(GroupKey, ro.groups), AfterUsers(env, ro, base), AfterOwners(env, ro, base))
  {
    FoldersDone(env, ro, base);
    UserTurns(env, ro, base, AfterFolders(env, ro, base));
    SortByMembers(UserKey, ro.users);
    OwnerTurns(env, ro, base, SortBy(UserKey, ro.users), AfterUsers(env, ro, base));
  }

  /** The groups after a run that fails no call: those that were there, the declared ones that could be made,
      and the private groups of the accounts that could. */
  lemma GroupsEnd(env: Env, ro: Roster, base: World, g: Name)
    requires Ready(ro, env.cls) && Windows(env.cls)
    ensures var groups := Turn(env, ro, base, NoFaults()).groups;
            && (g in groups <==> g in base.groups || Made(ro, base, g) || BornIn(ro, base, ro.users, g))
            && (g in groups ==> if g in base.groups then groups[g].gid == base.groups[g].gid
                                else Founded(ro, base, ro.users, g, groups[g].gid))
  {
    Run(env, ro, base);
    InParts(env, ro, base);
    SortByMembers(UserKey, ro.users);
    var us := SortBy(UserKey, ro.users);
    assert BornIn(ro, base, us, g) <==> BornIn(ro, base, ro.users, g);
    forall gid | Founded(ro, base, us, g, gid) ensures Founded(ro, base, ro.users, g, gid) {}
  }

  lemma UsersEnd(env: Env, ro: Roster, base: World, n: Name)
    requires Ready(ro, env.cls) && Windows(env.cls)
    ensures n in Turn(env, ro, base, NoFaults()).users <==> n in base.users || BornIn(ro, base, ro.users, n)
  {
    Run(env, ro, base);
    InParts(env, ro, base);
    SortByMembers(UserKey, ro.users);
    assert BornIn(ro, base, SortBy(UserKey, ro.users), n) <==> BornIn(ro, base, ro.users, n);
  }

  /** The members of any of them: the users usermod was run for exactly if it was given the group, and
      everybody else exactly if they were members before. */
  lemma MembersEnd(env: Env, ro: Roster, base: World, g: Name, m: Name)
    requires Ready(ro, env.cls) && Windows(env.cls)
    ensures var groups := Turn(env, ro, base, NoFaults()).groups;
            && (g in base.groups ==> g in groups && groups[g].gid == base.groups[g].gid)
            && (g in groups ==> (m in groups[g].members <==> MemberThen(env, ro, base, ro.users, g, m)))
  {
    Run(env, ro, base);
    InParts(env, ro, base);
    SortByMembers(UserKey, ro.users);
    assert RejoinedIn(env, ro, base, SortBy(UserKey, ro.users), m) <==> RejoinedIn(env, ro, base, ro.users, m);
  }

  /** And its administrators: the owners of the declared group of that name where gpasswd was run for it,
      whatever gid that declares, and otherwise those before, none for a new group. */
  lemma AdminsEnd(env: Env, ro: Roster, base: World, g: Name)
    requires Ready(ro, env.cls) && Windows(env.cls)
    ensures var groups := Turn(env, ro, base, NoFaults()).groups;
            g in groups ==>
              && (forall h: Group :: h.name == g && AdminsSet(env, ro, base, h) ==>
                                       groups[g].admins == SortBy(Self, h.owners))
              && ((forall h: Group :: h.name == g ==> !AdminsSet(env, ro, base, h)) ==>
                    groups[g].admins == AdminsOf(base, g))
  {
    Run(env, ro, base);
    InParts(env, ro, base);
    SortByMembers(GroupKey, ro.groups);
  }

  lemma OwnersEnd(env: Env, ro: Roster, base: World, h: Group)
    requires Ready(ro, env.cls) && Windows(env.cls) && h in ro.groups && h.name in base.groups
    ensures var groups := Turn(env, ro, base, NoFaults()).groups;
            h.name in groups && groups[h.name].admins == if AdminsSet(env, ro, base, h) then SortBy(Self, h.owners)
                                                         else base.groups[h.name].admins
  {
    MembersEnd(env, ro, base, h.name, "");
    AdminsEnd(env, ro, base, h.name);
    forall x: Group | x.name == h.name && AdminsSet(env, ro, base, x) ensures x == h { SameGroup(ro, env.cls, x, h); }
  }

  /** Whether a group that the host has and a roster declares, refused or not, is left as it is. */
  ghost predicate LetAlone(env: Env, ro: Roster, base: World, h: Group)
    requires h.name in base.groups
  {
    && (forall u :: u in ro.users && Rejoined(env, ro, base, u) ==>
                      (h.name in GroupsFor(env, ro, base, u.name) <==> u.name in base.groups[h.name].members))
    && (AdminsSet(env, ro, base, h) ==> SortBy(Self, h.owners) == base.groups[h.name].admins)
  }

  /** A run that fails no call leaves such a group as it is exactly if everybody usermod is run for is already
      in or out of it as told, and gpasswd, if run for it, is told the administrators it has. */
  lemma LeftAloneExactly(env: Env, ro: Roster, base: World, h: Group)
    requires Ready(ro, env.cls) && Windows(env.cls) && h in ro.groups && h.name in base.groups
    ensures var groups := Turn(env, ro, base, NoFaults()).groups;
            h.name in groups && (groups[h.name] == base.groups[h.name] <==> LetAlone(env, ro, base, h))
  {
    var groups, was := Turn(env, ro, base, NoFaults()).groups, base.groups[h.name];
    MembersEnd(env, ro, base, h.name, "");
    var now := groups[h.name];
    forall m ensures m in now.members <==> MemberThen(env, ro, base, ro.users, h.name, m) {
      MembersEnd(env, ro, base, h.name, m);
    }
    SameMembers(env, ro, base, h.name, now.members);
    OwnersEnd(env, ro, base, h);
    assert now == was <==> now.members == was.members && now.admins == was.admins;
  }

  lemma SameMembers(env: Env, ro: Roster, base: World, g: Name, now: set<Name>)
    requires forall m :: m in now <==> MemberThen(env, ro, base, ro.users, g, m)
    ensures now == MembersOf(base, g) <==>
              forall u :: u in ro.users && Rejoined(env, ro, base, u) ==>
                            (g in GroupsFor(env, ro, base, u.name) <==> u.name in MembersOf(base, g))
  {
    forall u | u in ro.users && Rejoined(env, ro, base, u)
      ensures MemberThen(env, ro, base, ro.users, g, u.name) <==> g in GroupsFor(env, ro, base, u.name)
    {
      assert RejoinedIn(env, ro, base, ro.users, u.name);
    }
  }

  /** A group outside the managed range that no declared group names keeps its administrators and gains
      nobody; it loses exactly those whom usermod is run for and whom it lists unseen. */
  lemma BystanderEnds(env: Env, ro: Roster, base: World, g: Name, m: Name)
    requires Ready(ro, env.cls) && Windows(env.cls) && Bystander(env.cls, ro, base, g)
    ensures var groups := Turn(env, ro, base, NoFaults()).groups;
            && g in groups && groups[g].admins == base.groups[g].admins
            && (m in groups[g].members <==>
                m in base.groups[g].members && !(RejoinedIn(env, ro, base, ro.users, m) && Unseen(base, g, m)))
  {
    MembersEnd(env, ro, base, g, m);
    AdminsEnd(env, ro, base, g);
    assert g !in DeclaredGroups(ro, m);
  }

  // --- memberships outside the managed range ---

  /** The run gives n this membership anew: the group is there and not managed, or is none that a declared
      group can be and some account's private group; and it is not n's primary one. */
  ghost predicate NewForeign(env: Env, ro: Roster, base: World, n: Name, g: Name)
    requires n in base.users
  {
    if g in base.groups then
      && env.cls.Gid(base.groups[g].gid) != Managed && base.groups[g].gid != base.users[n].gid
      && n !in base.groups[g].members
    else
      && !Made(ro, base, g)
      && exists v :: v in ro.users && BornHere(ro, base, v) && v.name == g && v.uid != base.users[n].gid
  }

  lemma PrivateForeign(env: Env, ro: Roster, base: World, n: Name, g: Name, gid: Id)
    requires Ready(ro, env.cls) && Windows(env.cls) && n in base.users && g !in base.groups
    requires Founded(ro, base, ro.users, g, gid)
    ensures env.cls.Gid(gid) != Managed && gid != base.users[n].gid <==> NewForeign(env, ro, base, n, g)
  {
    if !Made(ro, base, g) {
      var v :| v in ro.users && BornHere(ro, base, v) && v.name == g && v.uid == gid;
      WindowsDisjoint(env.cls, v.uid);
      forall x | x in ro.users && x.name == g ensures x == v { SameUser(ro, env.cls, x, v); }
    }
  }

  /** After a run that fails no call, an account that was there has the memberships outside the managed range
      that it had, and those newly given by usermod, if it was run for it. */
  lemma ForeignEnds(env: Env, ro: Roster, base: World, n: Name, g: Name)
    requires Ready(ro, env.cls) && Windows(env.cls) && n in base.users
    ensures g in ExtraMemberships(Turn(env, ro, base, NoFaults()), env.cls, n) <==>
              || g in ExtraMemberships(base, env.cls, n)
              || (RejoinedIn(env, ro, base, ro.users, n) && g in DeclaredGroups(ro, n)
                && NewForeign(env, ro, base, n, g))
  {
    var end := Turn(env, ro, base, NoFaults());
    GroupsEnd(env, ro, base, g);
    MembersEnd(env, ro, base, g, n);
    ApplyGrows(env, base, TurnActions(env, ro, base), NoFaults());
    if g in base.groups {
      ForeignThere(env, ro, base, end, n, g);
    } else if g in end.groups {
      PrivateForeign(env, ro, base, n, g, end.groups[g].gid);
    }
  }

  /** A group that was there. */
  lemma ForeignThere(env: Env, ro: Roster, base: World, end: World, n: Name, g: Name)
    requires n in base.users && n in end.users && end.users[n].gid == base.users[n].gid
    requires g in base.groups && g in end.groups && end.groups[g].gid == base.groups[g].gid
    requires n in end.groups[g].members <==> MemberThen(env, ro, base, ro.users, g, n)
    ensures g in ExtraMemberships(end, env.cls, n) <==>
              || g in ExtraMemberships(base, env.cls, n)
              || (RejoinedIn(env, ro, base, ro.users, n) && g in DeclaredGroups(ro, n)
                  && NewForeign(env, ro, base, n, g))
  {
  }

  /** So they change exactly if usermod is run for it and gives it one of these. */
  lemma ForeignChangesExactly(env: Env, ro: Roster, base: World, n: Name)
    requires Ready(ro, env.cls) && Windows(env.cls) && n in base.users
    ensures ExtraMemberships(Turn(env, ro, base, NoFaults()), env.cls, n) != ExtraMemberships(base, env.cls, n) <==>
              && RejoinedIn(env, ro, base, ro.users, n)
              && exists g :: g in DeclaredGroups(ro, n) && NewForeign(env, ro, base, n, g)
  {
    var was, now := ExtraMemberships(base, env.cls, n), ExtraMemberships(Turn(env, ro, base, NoFaults()), env.cls, n);
    forall g ensures g in now <==>
                       || g in was
                       || (RejoinedIn(env, ro, base, ro.users, n) && g in DeclaredGroups(ro, n)
                           && NewForeign(env, ro, base, n, g))
    {
      ForeignEnds(env, ro, base, n, g);
    }
    forall g | NewForeign(env, ro, base, n, g) ensures g !in was {}
  }
}
