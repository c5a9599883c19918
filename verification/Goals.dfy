/** The facts a converging run is after, one at a time, and what each backend call does to them. */
module Goals {
  import opened Common
  import opened Names
  import opened IdRange
  import opened Roster
  import opened System
  import opened Reconcile
  import opened Executor
  import opened Agreement
  import Views

  // --- calls that carry the roster's values ---

  /** usersync may act on this name: no account had it, or a managed one. */
  ghost predicate Touchable(env: Env, base: World, n: Name) {
    n in base.users ==> env.cls.Uid(base.users[n].uid) == Managed
  }

  /** A declared, not reserved user of this name, agreeing with any account the host had. */
  ghost predicate Live(env: Env, base: World, u: User, n: Name) {
    u.name == n && u.status != Reserved && env.cls.Uid(u.uid) == Managed
    && (n in base.users ==> base.users[n].uid == u.uid)
  }

  ghost function GroupsFor(env: Env, ro: Roster, base: World, n: Name): set<Name> {
    DeclaredGroups(ro, n) + if n in base.users then ExtraMemberships(base, env.cls, n) else {}
  }

  ghost predicate LimitedTo(u: User, uid: Id, quota: Option<Bytes>) {
    u.uid == uid && u.status != Reserved && u.quota == quota
  }

  ghost predicate GroupFits(env: Env, ro: Roster, base: World, c: GroupCall) {
    match c
    case EnsureGroup(n, gid) =>
      env.cls.Gid(gid) == Managed && exists g :: g in ro.groups && g.name == n && g.gid == gid
    case EnsurePrivateGroup(n, gid) =>
      n !in base.users && exists u :: u in ro.users && Live(env, base, u, n) && u.uid == gid
    case SetGroups(n, gs) =>
      gs == GroupsFor(env, ro, base, n) && exists u :: u in ro.users && Live(env, base, u, n)
    case SetAdmins(n, admins) => exists g :: g in ro.groups && g.name == n && multiset(g.owners) == multiset(admins)
  }

  ghost predicate UserFits(env: Env, ro: Roster, base: World, c: UserCall) {
    c.name !in base.users
    && exists u :: u in ro.users && Live(env, base, u, c.name)
                   && (c.EnsureAccount? ==> u.uid == c.uid && u.fullName == c.fullName)
  }

  ghost predicate FolderFits(ro: Roster, c: FolderCall) {
    exists g :: g in ro.groups && g.name == c.name && (c.ChgrpFolder? ==> g.gid == c.gid)
                && (c.ChmodFolder? ==> g.anonymous.FolderPerm() == c.perm)
  }

  ghost predicate HomeFits(env: Env, ro: Roster, base: World, c: HomeCall) {
    exists u :: u in ro.users && Live(env, base, u, c.name) && u.WantsHome() && (c.ChownHome? ==> u.uid == c.uid)
  }

  ghost predicate SmbFits(env: Env, ro: Roster, base: World, c: SmbCall) {
    match c
    case SmbCreate(n, pw) =>
      pw == Derived(n) && n !in base.smb && exists u :: u in ro.users && Live(env, base, u, n)
    case SmbEnable(n) => exists u :: u in ro.users && Live(env, base, u, n) && u.status == Active
    case SmbDisable(n) => Touchable(env, base, n) && forall u :: u in ro.users && u.name == n ==> u.status != Active
  }

  ghost predicate QuotaFits(env: Env, ro: Roster, c: QuotaCall) {
    env.cls.Uid(c.uid) == Managed
    && exists u :: u in ro.users && LimitedTo(u, c.uid, if c.QuotaSet? then Some(c.bytes) else None)
  }

  ghost predicate ViewFits(ro: Roster, c: Views.ViewCall) {
    c.ChgrpReader? ==> exists g :: g in ro.groups && g.name == c.name && g.gid == c.gid
  }

  ghost predicate CallFits(env: Env, ro: Roster, base: World, c: Call) {
    match c
    case OnGroups(g) => GroupFits(env, ro, base, g)
    case OnUsers(u) => UserFits(env, ro, base, u)
    case OnFolders(f) => FolderFits(ro, f)
    case OnHomes(h) => HomeFits(env, ro, base, h)
    case OnSmb(s) => SmbFits(env, ro, base, s)
    case OnQuotas(q) => QuotaFits(env, ro, q)
    case OnViews(v) => ViewFits(ro, v)
    case Unable => true
  }

  // --- goals ---

  datatype Goal =
    | Entry(g: Group) | FolderGid(g: Group) | FolderMode(g: Group) | AdminsAre(g: Group)
    | Account(u: User) | Joined(u: User) | HomeOwned(u: User) | HomeMode(u: User)
    | SmbIs(n: Name, on: bool) | Limit(u: User) | Absent(n: Name) | Locked(n: Name)

  ghost predicate Holds(env: Env, ro: Roster, w: World, goal: Goal) {
    match goal
    case Entry(g) => g.name in w.groups && w.groups[g.name].gid == g.gid
    case FolderGid(g) => g.name in w.folders && w.folders[g.name].gid == g.gid
    case FolderMode(g) => g.name in w.folders && w.folders[g.name].perm == g.anonymous.FolderPerm()
    case AdminsAre(g) => multiset(if g.name in w.groups then w.groups[g.name].admins else []) == multiset(g.owners)
    case Account(u) => u.name in w.users && w.users[u.name].uid == u.uid
    case Joined(u) => u.name in w.users && ManagedMemberships(w, env.cls, u.name) == DeclaredGroups(ro, u.name)
    case HomeOwned(u) => u.name in w.homes && w.homes[u.name].uid == u.uid && w.homes[u.name].gid == u.uid
    case HomeMode(u) => u.name in w.homes && w.homes[u.name].perm == PERM_HOME
    case SmbIs(n, on) => SmbOn(w, n) == on
    case Limit(u) => QuotaOf(w, env.host, u.uid) == DeclaredLimit(u)
    case Absent(n) => n !in w.users
    case Locked(n) => n in w.users && w.users[n].locked
  }

  /** A call whose success brings the goal about. */
  ghost predicate Makes(env: Env, c: Call, goal: Goal) {
    match goal
    case Entry(g) => c == OnGroups(EnsureGroup(g.name, g.gid))
    case FolderGid(g) => c == OnFolders(ChgrpFolder(g.name, g.gid))
    case FolderMode(g) => c == OnFolders(ChmodFolder(g.name, g.anonymous.FolderPerm()))
    case AdminsAre(g) => c.OnGroups? && c.group.SetAdmins? && c.group.group == g.name
    case Account(u) => c.OnUsers? && c.user.EnsureAccount? && c.user.name == u.name
    case Joined(u) => c.OnGroups? && c.group.SetGroups? && c.group.user == u.name
    case HomeOwned(u) => c == OnHomes(ChownHome(u.name, u.uid))
    case HomeMode(u) => c == OnHomes(ChmodHome(u.name))
    case SmbIs(n, on) => c == OnSmb(if on then SmbEnable(n) else SmbDisable(n))
    case Limit(u) => env.host.quotaEnforced && c.OnQuotas? && c.quota.uid == u.uid
    case Absent(_) => false
    case Locked(n) => c == OnUsers(LockPassword(n))
  }

  /** The one call that can undo a goal it fits: registering an account that is to be off. */
  ghost predicate Undoes(c: Call, goal: Goal) {
    goal.SmbIs? && !goal.on && c.OnSmb? && c.smb.SmbCreate? && c.smb.name == goal.n
  }

  /** The goal is about something the roster declares. */
  ghost predicate About(env: Env, ro: Roster, base: World, goal: Goal) {
    match goal
    case Entry(g) => g in ro.groups
    case FolderGid(g) => g in ro.groups
    case FolderMode(g) => g in ro.groups
    case AdminsAre(g) => g in ro.groups
    case Account(u) => u in ro.users
    case Joined(u) => u in ro.users && PrimaryClear(ro, base, u)
    case HomeOwned(u) => u in ro.users
    case HomeMode(u) => u in ro.users
    case SmbIs(n, on) => on <==> exists u :: u in ro.users && u.name == n && u.status == Active
    case Limit(u) => u in ro.users
    case Absent(n) => forall u :: u in ro.users && u.name == n ==> u.status == Reserved
    case Locked(_) => true
  }

  /** No declared group of the user is also its primary group: a scan would not report it. */
  ghost predicate PrimaryClear(ro: Roster, base: World, u: User) {
    u.name in base.users ==>
      forall g :: g in ro.groups && g.name in DeclaredGroups(ro, u.name) ==> g.gid != base.users[u.name].gid
  }

  // --- invariants of a run ---

  /** Declared groups that are there have their declared gid. */
  ghost predicate GidsRight(ro: Roster, w: World) {
    forall g :: g in ro.groups && g.name in w.groups ==> w.groups[g.name].gid == g.gid
  }

  ghost predicate AllGroups(ro: Roster, w: World) {
    forall g :: g in ro.groups ==> g.name in w.groups && w.groups[g.name].gid == g.gid
  }

  /** The account is a declared, live user's, with a gid of its own. */
  ghost predicate BornAs(env: Env, ro: Roster, base: World, n: Name, acct: System.Account) {
    acct.gid == acct.uid
    && exists u :: u in ro.users && Live(env, base, u, n) && acct.uid == u.uid && acct.fullName == u.fullName
  }

  /** Every account a run made is a declared, live user's, and its primary group exists. */
  ghost predicate Born(env: Env, ro: Roster, base: World, w: World) {
    forall n :: n in w.users && n !in base.users ==>
      BornAs(env, ro, base, n, w.users[n]) && GidInUse(w.groups, w.users[n].gid)
  }

  lemma GidStaysInUse(groups: map<Name, GroupEntry>, next: map<Name, GroupEntry>, gid: Id)
    requires GidInUse(groups, gid) && GroupsGrow(groups, next)
    ensures GidInUse(next, gid)
  {
    var g :| g in groups && groups[g].gid == gid;
    assert next[g].gid == gid;
  }

  lemma BornStep(env: Env, ro: Roster, base: World, w: World, c: Call)
    requires Born(env, ro, base, w) && CallFits(env, ro, base, c) && Exec(w, c).Some?
    ensures Born(env, ro, base, Exec(w, c).value)
  {
    var next := Exec(w, c).value;
    ExecGrows(w, c);
    forall n | n in next.users && n !in base.users
      ensures BornAs(env, ro, base, n, next.users[n]) && GidInUse(next.groups, next.users[n].gid)
    {
      if n in w.users {
        GidStaysInUse(w.groups, next.groups, w.users[n].gid);
        assert BornAs(env, ro, base, n, w.users[n]);
      }
    }
  }

  lemma SameGroup(ro: Roster, cls: Classifier, g: Group, h: Group)
    requires Ready(ro, cls) && g in ro.groups && h in ro.groups && g.name == h.name
    ensures g == h
  {
    var i :| 0 <= i < |ro.groups| && ro.groups[i] == g;
    var j :| 0 <= j < |ro.groups| && ro.groups[j] == h;
    assert GroupKey(ro.groups[i]) == GroupKey(ro.groups[j]);
  }

  lemma SameUser(ro: Roster, cls: Classifier, u: User, v: User)
    requires Ready(ro, cls) && u in ro.users && v in ro.users && u.name == v.name
    ensures u == v
  {
    var i :| 0 <= i < |ro.users| && ro.users[i] == u;
    var j :| 0 <= j < |ro.users| && ro.users[j] == v;
    assert UserKey(ro.users[i]) == UserKey(ro.users[j]);
  }

  // --- what one call does to each goal ---

  lemma EntryStep(env: Env, ro: Roster, w: World, c: Call, goal: Goal)
    requires Exec(w, c).Some? && GidsRight(ro, w)
    requires goal.Entry? && goal.g in ro.groups
    requires Holds(env, ro, w, goal) || Makes(env, c, goal)
    ensures Holds(env, ro, Exec(w, c).value, goal)
  {
    ExecGrows(w, c);
  }

  /** Administrators are set only to the declared owners. */
  lemma AdminsCall(env: Env, ro: Roster, base: World, g: Group, c: GroupCall)
    requires Ready(ro, env.cls) && g in ro.groups && GroupFits(env, ro, base, c)
    requires c.SetAdmins? && c.group == g.name
    ensures multiset(c.admins) == multiset(g.owners)
  {
    var h :| h in ro.groups && h.name == c.group && multiset(h.owners) == multiset(c.admins);
    SameGroup(ro, env.cls, h, g);
  }

  lemma AdminsKept(groups: map<Name, GroupEntry>, users: set<Name>, c: GroupCall, n: Name)
    requires ExecGroup(groups, users, c).Some? && !(c.SetAdmins? && c.group == n)
    ensures var next := ExecGroup(groups, users, c).value;
            (if n in next then next[n].admins else []) == if n in groups then groups[n].admins else []
  {
  }

  /** A list that is set is the declared one. */
  lemma AdminsMade(w: World, c: GroupCall, g: Group)
    requires c.SetAdmins? && c.group == g.name && multiset(c.admins) == multiset(g.owners)
    requires Exec(w, OnGroups(c)).Some?
    ensures var next := Exec(w, OnGroups(c)).value.groups;
            multiset(if g.name in next then next[g.name].admins else []) == multiset(g.owners)
  {
  }

  lemma AdminsUntouched(w: World, c: Call, n: Name)
    requires Exec(w, c).Some? && !(c.OnGroups? && c.group.SetAdmins? && c.group.group == n)
    ensures var next := Exec(w, c).value.groups;
            (if n in next then next[n].admins else []) == if n in w.groups then w.groups[n].admins else []
  {
    if c.OnGroups? { AdminsKept(w.groups, w.users.Keys, c.group, n); }
  }

  lemma AdminsStep(env: Env, ro: Roster, base: World, w: World, c: Call, goal: Goal)
    requires Ready(ro, env.cls) && CallFits(env, ro, base, c) && Exec(w, c).Some?
    requires goal.AdminsAre? && About(env, ro, base, goal)
    requires Holds(env, ro, w, goal) || Makes(env, c, goal)
    ensures Holds(env, ro, Exec(w, c).value, goal)
  {
    if c.OnGroups? && c.group.SetAdmins? && c.group.group == goal.g.name {
      AdminsCall(env, ro, base, goal.g, c.group);
      AdminsMade(w, c.group, goal.g);
    } else {
      AdminsUntouched(w, c, goal.g.name);
    }
  }

  lemma FolderStep(env: Env, ro: Roster, base: World, w: World, c: Call, goal: Goal)
    requires Ready(ro, env.cls) && CallFits(env, ro, base, c) && Exec(w, c).Some?
    requires (goal.FolderGid? || goal.FolderMode?) && About(env, ro, base, goal)
    requires Holds(env, ro, w, goal) || Makes(env, c, goal)
    ensures Holds(env, ro, Exec(w, c).value, goal)
  {
    if c.OnFolders? && c.folder.name == goal.g.name {
      var f := c.folder;
      var h :| h in ro.groups && h.name == f.name && (f.ChgrpFolder? ==> h.gid == f.gid)
               && (f.ChmodFolder? ==> h.anonymous.FolderPerm() == f.perm);
      SameGroup(ro, env.cls, h, goal.g);
    }
  }

  lemma AccountStep(env: Env, ro: Roster, base: World, w: World, c: Call, goal: Goal)
    requires Ready(ro, env.cls) && CallFits(env, ro, base, c) && Exec(w, c).Some?
    requires Born(env, ro, base, w)
    requires (goal.Account? || goal.Absent?) && About(env, ro, base, goal)
    requires Holds(env, ro, w, goal) || Makes(env, c, goal)
    ensures Holds(env, ro, Exec(w, c).value, goal)
  {
    if c.OnUsers? && goal.Account? && c.user.name == goal.u.name {
      AccountMade(env, ro, base, w, c.user, goal.u);
    }
  }

  lemma AccountMade(env: Env, ro: Roster, base: World, w: World, c: UserCall, u: User)
    requires Ready(ro, env.cls) && UserFits(env, ro, base, c) && u in ro.users && u.name == c.name
    requires Born(env, ro, base, w)
    ensures c.EnsureAccount? ==> u.uid == c.uid
    ensures c.name in w.users ==> w.users[c.name].uid == u.uid
  {
    var v :| v in ro.users && Live(env, base, v, c.name) && (c.EnsureAccount? ==> v.uid == c.uid);
    SameUser(ro, env.cls, v, u);
    if c.name in w.users {
      assert BornAs(env, ro, base, c.name, w.users[c.name]);
      var x :| x in ro.users && Live(env, base, x, c.name) && w.users[c.name].uid == x.uid;
      SameUser(ro, env.cls, x, u);
    }
  }

  lemma LockedStep(env: Env, ro: Roster, w: World, c: Call, goal: Goal)
    requires goal.Locked? && Exec(w, c).Some?
    requires Holds(env, ro, w, goal) || Makes(env, c, goal)
    ensures Holds(env, ro, Exec(w, c).value, goal)
  {
  }

  lemma HomeStep(env: Env, ro: Roster, base: World, w: World, c: Call, goal: Goal)
    requires Ready(ro, env.cls) && CallFits(env, ro, base, c) && Exec(w, c).Some?
    requires (goal.HomeOwned? || goal.HomeMode?) && About(env, ro, base, goal)
    requires Holds(env, ro, w, goal) || Makes(env, c, goal)
    ensures Holds(env, ro, Exec(w, c).value, goal)
  {
    if c.OnHomes? && c.home.name == goal.u.name {
      var v :| v in ro.users && Live(env, base, v, c.home.name) && v.WantsHome()
               && (c.home.ChownHome? ==> v.uid == c.home.uid);
      SameUser(ro, env.cls, v, goal.u);
    }
  }

  lemma LimitStep(env: Env, ro: Roster, base: World, w: World, c: Call, goal: Goal)
    requires Ready(ro, env.cls) && CallFits(env, ro, base, c) && Exec(w, c).Some?
    requires goal.Limit? && About(env, ro, base, goal)
    requires Holds(env, ro, w, goal) || Makes(env, c, goal)
    ensures Holds(env, ro, Exec(w, c).value, goal)
  {
    if c.OnQuotas? && c.quota.uid == goal.u.uid {
      var v :| v in ro.users && LimitedTo(v, c.quota.uid, if c.quota.QuotaSet? then Some(c.quota.bytes) else None);
      assert v == goal.u;
    }
  }

  lemma SmbStep(env: Env, ro: Roster, base: World, w: World, c: Call, goal: Goal)
    requires Ready(ro, env.cls) && CallFits(env, ro, base, c) && Exec(w, c).Some?
    requires goal.SmbIs? && About(env, ro, base, goal) && !Undoes(c, goal)
    requires Holds(env, ro, w, goal) || Makes(env, c, goal)
    ensures Holds(env, ro, Exec(w, c).value, goal)
  {
  }

  /** Where the scan reports what usermod -G was given: outside the user's primary group. */
  lemma JoinedMade(env: Env, ro: Roster, base: World, w: World, c: Call, u: User)
    requires Ready(ro, env.cls) && Windows(env.cls) && CallFits(env, ro, base, c) && Exec(w, c).Some?
    requires Grows(base, w) && Born(env, ro, base, w) && AllGroups(ro, w)
    requires u in ro.users && PrimaryClear(ro, base, u)
    requires Makes(env, c, Joined(u))
    ensures Holds(env, ro, Exec(w, c).value, Joined(u))
  {
    var next, want := Exec(w, c).value, DeclaredGroups(ro, u.name);
    forall g ensures g in ManagedMemberships(next, env.cls, u.name) <==> g in want {
      if g in want {
        var h :| h in ro.groups && h.name == g;
        assert w.groups[g].gid == h.gid;
        WindowsDisjoint(env.cls, h.gid);
      } else if g in next.groups && u.name in next.groups[g].members {
        assert g in ExtraMemberships(base, env.cls, u.name);
      }
    }
  }

  lemma JoinedKept(env: Env, ro: Roster, w: World, c: Call, u: User)
    requires Exec(w, c).Some?
    requires !Makes(env, c, Joined(u))
    requires Holds(env, ro, w, Joined(u))
    ensures Holds(env, ro, Exec(w, c).value, Joined(u))
  {
    var next := Exec(w, c).value;
    if c.OnGroups? || c.OnUsers? {
      assert forall g :: g in Memberships(next, u.name) <==> g in Memberships(w, u.name);
      assert ManagedMemberships(next, env.cls, u.name) == ManagedMemberships(w, env.cls, u.name);
    } else {
      assert next.groups == w.groups && next.users == w.users;
    }
  }
}
