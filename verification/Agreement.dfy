/** What it means for a host to agree with a roster, said without the reconciler, and the proof that
    the reconciler falls silent exactly there. */
module Agreement {
  import opened Common
  import opened Names
  import opened IdRange
  import opened Roster
  import opened Validation
  import opened System
  import opened Reconcile
  import opened Executor
  import Views

  /** A roster narrowed to managed entries, with every name and id declared once. */
  ghost predicate Ready(ro: Roster, cls: Classifier) {
    && Distinct(GroupKey, ro.groups) && Distinct(UserKey, ro.users)
    && (forall g, h :: g in ro.groups && h in ro.groups && g.gid == h.gid ==> g == h)
    && (forall u, v :: u in ro.users && v in ro.users && u.uid == v.uid ==> u == v)
    && (forall g :: g in ro.groups ==> cls.Gid(g.gid) == Managed)
    && (forall u :: u in ro.users ==> cls.Uid(u.uid) == Managed)
  }

  /** The declared groups that read g. */
  ghost function DeclaredReaders(ro: Roster, g: Group): set<Name> {
    set h | h in ro.groups && Reads(ro.groups, h.name, g) :: h.name
  }

  /** The declared groups that contain a user. */
  ghost function DeclaredGroups(ro: Roster, user: Name): set<Name> {
    set g | g in ro.groups && user in GroupMembership(ro.users, g) :: g.name
  }

  ghost predicate GroupInSync(host: Host, ro: Roster, w: World, g: Group) {
    && g.name in w.groups && w.groups[g.name].gid == g.gid
    && g.name in w.folders && w.folders[g.name].perm == g.anonymous.FolderPerm() && w.folders[g.name].gid == g.gid
    && (host.gshadow ==> multiset(w.groups[g.name].admins) == multiset(g.owners))
    && ViewsInSync(host, ro, w, g)
  }

  ghost predicate ViewsInSync(host: Host, ro: Roster, w: World, g: Group) {
    if host.viewsKnown then Views.Observed(w.ns, w.folders, g.name) == SortedNames(DeclaredReaders(ro, g))
    else DeclaredReaders(ro, g) == {}
  }

  ghost predicate SmbOn(w: World, n: Name) {
    n in w.smb && w.smb[n].enabled
  }

  function DeclaredLimit(u: User): Bytes {
    match u.quota case None => 0 case Some(q) => EnforceBytes(q)
  }

  ghost predicate UserInSync(host: Host, ro: Roster, cls: Classifier, w: World, u: User) {
    if u.status == Reserved then
      u.name in w.users && cls.Uid(w.users[u.name].uid) == Managed ==>
        w.users[u.name].uid == u.uid && !SmbOn(w, u.name)
    else
      && u.name in w.users && w.users[u.name].uid == u.uid
      && ManagedMemberships(w, cls, u.name) == DeclaredGroups(ro, u.name)
      && (u.WantsHome() ==> Find(w.homes, u.name) == Some(Dir(PERM_HOME, u.uid, u.uid)))
      && (SmbOn(w, u.name) <==> u.status == Active)
      && (host.quotaEnforced ==> QuotaOf(w, host, u.uid) == DeclaredLimit(u))
  }

  ghost predicate OrphanInSync(ro: Roster, cls: Classifier, w: World, n: Name) {
    n in w.users && cls.Uid(w.users[n].uid) == Managed && (forall u :: u in ro.users ==> u.name != n) && ValidName(n)
    ==> !SmbOn(w, n)
  }

  ghost predicate InSync(host: Host, cls: Classifier, ro: Roster, w: World) {
    && (forall g :: g in ro.groups ==> GroupInSync(host, ro, w, g))
    && (forall u :: u in ro.users ==> UserInSync(host, ro, cls, w, u))
    && (forall n :: n in w.users ==> OrphanInSync(ro, cls, w, n))
  }

  // --- the reconciler's helpers, related to the declaration ---

  /** Only notices: nothing to change and nothing to refuse. */
  ghost predicate Quiet(acts: seq<Action>) {
    forall a :: a in acts ==> ClassOf(a.kind) == Notice
  }

  ghost predicate NoRefusal(acts: seq<Action>) {
    forall a :: a in acts ==> ClassOf(a.kind) != Refuse
  }

  lemma {:induction false} HitsMember(members: seq<Name>, user: Name, group: Name, x: Name)
    ensures x in Hits(members, user, group) <==> x == group && user in members
  {
    if members != [] {
      HitsMember(members[1..], user, group, x);
      assert members == [members[0]] + members[1..];
    }
  }

  lemma {:induction false} HitOnce(members: seq<Name>, user: Name, group: Name)
    requires Distinct(Self, members)
    ensures Hits(members, user, group) == if user in members then [group] else []
  {
    if members != [] {
      var rest := members[1..];
      forall i, j | 0 <= i < j < |rest| ensures Self(rest[i]) != Self(rest[j]) {
        assert Self(members[i + 1]) != Self(members[j + 1]);
      }
      HitOnce(rest, user, group);
      forall n | n in rest ensures n != members[0] {
        var i :| 0 <= i < |rest| && rest[i] == n;
        assert Self(members[0]) != Self(members[i + 1]);
      }
      assert members == [members[0]] + rest;
    }
  }

  /** Inverting the groups' member lists gives each user the groups that contain them. */
  lemma UserGroupsExact(ro: Roster, user: Name)
    ensures SetOf(UserGroups(SortBy(GroupKey, ro.groups), ro.users, user)) == DeclaredGroups(ro, user)
  {
    var gs := SortBy(GroupKey, ro.groups);
    SortByMembers(GroupKey, ro.groups);
    var f := JoinedBy(ro.users, user);
    forall x ensures x in Flat(f, gs) <==> x in DeclaredGroups(ro, user) {
      FlatMember(f, gs, x);
      forall g | g in gs ensures x in f(g) <==> x == g.name && user in GroupMembership(ro.users, g) {
        HitsMember(GroupMembership(ro.users, g), user, g.name, x);
      }
    }
  }

  lemma {:induction false} GidTableExact(gs: seq<Group>, n: Name)
    ensures n in GidTable(gs) <==> exists g :: g in gs && g.name == n
    ensures n in GidTable(gs) ==> exists g :: g in gs && g.name == n && g.gid == GidTable(gs)[n]
    decreases |gs|
  {
    if gs != [] {
      var last := gs[|gs| - 1];
      GidTableExact(gs[..|gs| - 1], n);
      assert gs == gs[..|gs| - 1] + [last];
      assert last in gs;
    }
  }

  lemma PairUpNames(names: seq<Name>, gidOf: map<Name, Id>)
    requires forall n :: n in names ==> n in gidOf
    ensures NamesOf(PairUp(names, gidOf)) == names
  {
  }

  lemma PairUpMember(names: seq<Name>, gidOf: map<Name, Id>, r: Views.Reader)
    requires forall n :: n in names ==> n in gidOf
    requires r in PairUp(names, gidOf)
    ensures r.name in names && gidOf[r.name] == r.gid
  {
  }

  /** The views the reconciler wants for g are its declared readers, by name. */
  lemma WantReadersExact(ro: Roster, g: Group)
    ensures var gs := SortBy(GroupKey, ro.groups);
            NamesOf(WantReaders(ro.groups, GidTable(gs), g)) == SortedNames(DeclaredReaders(ro, g))
  {
    var gs := SortBy(GroupKey, ro.groups);
    SortByMembers(GroupKey, ro.groups);
    var gidOf := GidTable(gs);
    var names := GroupReaders(ro.groups, g);
    forall n ensures (n in names && n in gidOf) <==> n in DeclaredReaders(ro, g) {
      GroupReadersExact(ro.groups, g, n);
      GidTableExact(gs, n);
    }
    var known := set n | n in names && n in gidOf;
    assert known == DeclaredReaders(ro, g);
    assert forall n :: n in SortedNames(known) ==> n in SetOf(SortedNames(known));
    PairUpNames(SortedNames(known), gidOf);
  }

  // --- silence, entry by entry ---

  lemma QuietFlat<T(!new)>(f: T -> seq<Action>, xs: seq<T>)
    ensures Quiet(Flat(f, xs)) <==> forall x :: x in xs ==> Quiet(f(x))
  {
    if Quiet(Flat(f, xs)) {
      forall x, a | x in xs && a in f(x) ensures ClassOf(a.kind) == Notice {
        FlatMember(f, xs, a);
      }
    }
    if forall x :: x in xs ==> Quiet(f(x)) {
      forall a | a in Flat(f, xs) ensures ClassOf(a.kind) == Notice {
        FlatMember(f, xs, a);
      }
    }
  }

  lemma QuietConcat(a: seq<Action>, b: seq<Action>)
    ensures Quiet(a + b) <==> Quiet(a) && Quiet(b)
  {
    assert forall x :: x in a ==> x in a + b;
    assert forall x :: x in b ==> x in a + b;
  }

  lemma QuietOne(acts: seq<Action>)
    requires |acts| <= 1
    ensures Quiet(acts) <==> acts == [] || ClassOf(acts[0].kind) == Notice
  {
  }

  lemma QuietFolder(env: Env, w: World, g: Group)
    requires env.cls.Gid(g.gid) == Managed
    ensures Quiet(GroupActions(Collect(env.host, w, env.cls), env.cls)(g)) <==>
              && g.name in w.groups && w.groups[g.name].gid == g.gid
              && g.name in w.folders && w.folders[g.name].perm == g.anonymous.FolderPerm()
              && w.folders[g.name].gid == g.gid
  {
    var st := Collect(env.host, w, env.cls);
    QuietOne(GroupActions(st, env.cls)(g));
    if g.name in st.groups {
      assert st.groups[g.name] == CollectGroup(env.host, w, g.name);
    }
  }

  lemma QuietOwners(env: Env, w: World, g: Group)
    requires env.cls.Gid(g.gid) == Managed
    requires g.name in w.groups && w.groups[g.name].gid == g.gid
    ensures Quiet(OwnerActions(Collect(env.host, w, env.cls), env.cls)(g)) <==>
              (env.host.gshadow ==> multiset(w.groups[g.name].admins) == multiset(g.owners))
  {
    var st := Collect(env.host, w, env.cls);
    QuietOne(OwnerActions(st, env.cls)(g));
    assert st.groups[g.name] == CollectGroup(env.host, w, g.name);
  }

  lemma QuietViews(env: Env, ro: Roster, w: World, g: Group)
    requires env.cls.Gid(g.gid) == Managed
    requires g.name in w.groups && w.groups[g.name].gid == g.gid
    ensures var st := Collect(env.host, w, env.cls);
            Quiet(ReaderActions(ro.groups, GidTable(SortBy(GroupKey, ro.groups)), st, env.cls)(g))
            <==> ViewsInSync(env.host, ro, w, g)
  {
    var st, gidOf := Collect(env.host, w, env.cls), GidTable(SortBy(GroupKey, ro.groups));
    WantReadersExact(ro, g);
    var want := WantReaders(ro.groups, gidOf, g);
    assert |NamesOf(want)| == |want|;
    SortedEmpty(DeclaredReaders(ro, g));
    QuietOne(ReaderActions(ro.groups, gidOf, st, env.cls)(g));
    assert st.groups[g.name] == CollectGroup(env.host, w, g.name);
  }

  lemma QuietUserActions(gs: seq<Group>, us: seq<User>, st: State, cls: Classifier, u: User)
    ensures Quiet(UserActions(gs, us, st, cls)(u)) <==>
              Quiet(AccountActions(u, UserGroups(gs, us, u.name), st, cls)) && Quiet(QuotaActions(u, st))
  {
    var acts := AccountActions(u, UserGroups(gs, us, u.name), st, cls);
    QuietConcat(acts, QuotaActions(u, st));
  }

  lemma QuietQuota(u: User, st: State)
    ensures Quiet(QuotaActions(u, st)) <==>
              (st.quotaEnforced && u.status != Reserved ==>
                 (if u.name in st.users then st.users[u.name].quota else 0) == DeclaredLimit(u))
  {
    QuietOne(QuotaActions(u, st));
  }

  lemma QuietUser(env: Env, ro: Roster, w: World, u: User)
    requires env.cls.Uid(u.uid) == Managed
    ensures var st := Collect(env.host, w, env.cls);
            Quiet(UserActions(SortBy(GroupKey, ro.groups), ro.users, st, env.cls)(u))
            <==> UserInSync(env.host, ro, env.cls, w, u)
  {
    var st := Collect(env.host, w, env.cls);
    QuietUserActions(SortBy(GroupKey, ro.groups), ro.users, st, env.cls, u);
    QuietQuota(u, st);
    QuietAccount(env, ro, w, u);
    CollectSees(env, w, u.name);
  }

  ghost predicate AccountInSync(ro: Roster, cls: Classifier, w: World, u: User) {
    if u.status == Reserved then
      u.name in w.users && cls.Uid(w.users[u.name].uid) == Managed ==>
        w.users[u.name].uid == u.uid && !SmbOn(w, u.name)
    else
      && u.name in w.users && w.users[u.name].uid == u.uid
      && ManagedMemberships(w, cls, u.name) == DeclaredGroups(ro, u.name)
      && (u.WantsHome() ==> Find(w.homes, u.name) == Some(Dir(PERM_HOME, u.uid, u.uid)))
      && (SmbOn(w, u.name) <==> u.status == Active)
  }

  /** What a collected state says about one user name. */
  ghost predicate Seen(env: Env, w: World, st: State, n: Name) {
    && (n in st.users <==> n in w.users && env.cls.Uid(w.users[n].uid) == Managed)
    && (n in st.users ==> st.users[n] == CollectUser(env.host, w, env.cls, n))
    && (n in st.smb <==> n in w.smb) && (n in st.smb ==> st.smb[n] == w.smb[n].enabled)
    && (n in st.allUsers <==> n in w.users)
    && (n in st.allGroups <==> n in w.groups) && (n in st.allGroups ==> st.allGroups[n] == w.groups[n].gid)
  }

  lemma CollectSees(env: Env, w: World, n: Name)
    ensures Seen(env, w, Collect(env.host, w, env.cls), n)
  {
  }

  lemma QuietAccount(env: Env, ro: Roster, w: World, u: User)
    requires env.cls.Uid(u.uid) == Managed
    ensures var groups := UserGroups(SortBy(GroupKey, ro.groups), ro.users, u.name);
            Quiet(AccountActions(u, groups, Collect(env.host, w, env.cls), env.cls))
            <==> AccountInSync(ro, env.cls, w, u)
  {
    var groups := UserGroups(SortBy(GroupKey, ro.groups), ro.users, u.name);
    UserGroupsExact(ro, u.name);
    CollectSees(env, w, u.name);
    QuietState(u, groups, Collect(env.host, w, env.cls), env.cls);
  }

  lemma QuietState(u: User, groups: seq<Name>, st: State, cls: Classifier)
    requires cls.Uid(u.uid) == Managed
    ensures Quiet(AccountActions(u, groups, st, cls)) <==>
              if u.status == Reserved then
                u.name in st.users ==> st.users[u.name].uid == u.uid && SmbActions(u, st) == []
              else
                && u.name in st.users && st.users[u.name].uid == u.uid && SmbActions(u, st) == []
                && SetOf(groups) == st.users[u.name].groups && !HomeDrifted(u, st.users[u.name])
  {
    var acts := AccountActions(u, groups, st, cls);
    if u.name in st.users {
      if st.users[u.name].uid == u.uid {
        QuietPresent(u, groups, st.users[u.name]);
        QuietOne(SmbActions(u, st));
        QuietOne([UserAction(u, ReservedPresent)]);
        QuietConcat(if u.status == Reserved then [UserAction(u, ReservedPresent)]
                    else PresentUserActions(u, groups, st.users[u.name]), SmbActions(u, st));
      } else {
        QuietOne(acts);
      }
    } else if u.status != Reserved {
      QuietOne(acts);
    }
  }

  lemma QuietPresent(u: User, groups: seq<Name>, cur: UserState)
    ensures Quiet(PresentUserActions(u, groups, cur)) <==> SetOf(groups) == cur.groups && !HomeDrifted(u, cur)
  {
    var a := if SetOf(groups) != cur.groups
             then [UserAction(u, UpdateUserGroups).(groups := MergeGroups(groups, cur.extraGroups))] else [];
    var b := if HomeDrifted(u, cur) then [UserAction(u, EnsureHome)] else [];
    QuietConcat(a, b);
    QuietOne(a);
    QuietOne(b);
  }

  lemma QuietOrphan(env: Env, ro: Roster, w: World, n: Name)
    requires n in w.users && env.cls.Uid(w.users[n].uid) == Managed
    ensures var st, declared := Collect(env.host, w, env.cls), KeysOf(UserKey, ro.users);
            Quiet(OrphanUserActions(st, env.cls, declared)(n))
            <==> OrphanInSync(ro, env.cls, w, n)
  {
    CollectSees(env, w, n);
    KeysOfExact(UserKey, ro.users, n);
    QuietOrphanState(Collect(env.host, w, env.cls), env.cls, KeysOf(UserKey, ro.users), n);
  }

  lemma QuietOrphanState(st: State, cls: Classifier, declared: set<Name>, n: Name)
    requires n in st.users && cls.Uid(st.users[n].uid) == Managed
    ensures Quiet(OrphanUserActions(st, cls, declared)(n)) <==>
              (n !in declared && ValidName(n) && n in st.smb ==> !st.smb[n])
  {
    if n !in declared {
      var b := if ValidName(n) && n in st.smb && st.smb[n] then [Action(DisableUser, n, st.users[n].uid)] else [];
      QuietConcat([Action(OrphanUser, n, st.users[n].uid)], b);
      QuietOne([Action(OrphanUser, n, st.users[n].uid)]);
      QuietOne(b);
    }
  }

  // --- the fixed points of the reconciler ---

  /** The plan contains nothing to change and nothing to refuse exactly on hosts that agree with the roster. */
  lemma PlanQuiet(env: Env, ro: Roster, w: World)
    requires Ready(ro, env.cls)
    ensures Quiet(Plan(ro, Collect(env.host, w, env.cls), env.cls)) <==> InSync(env.host, env.cls, ro, w)
  {
    var cls, st := env.cls, Collect(env.host, w, env.cls);
    var gs, us := SortBy(GroupKey, ro.groups), SortBy(UserKey, ro.users);
    SortByMembers(GroupKey, ro.groups);
    SortByMembers(UserKey, ro.users);
    var declaredUsers := KeysOf(UserKey, ro.users);
    var declaredGroups := KeysOf(GroupKey, ro.groups);
    var A, B, C := FolderPart(ro, st, cls), ReaderPart(ro, st, cls), UserPart(ro, st, cls);
    var D, E, F := OwnerPart(ro, st, cls), OrphanGroupPart(ro, st, cls), OrphanUserPart(ro, st, cls);
    QuietConcat(A + B + C + D + E, F);
    QuietConcat(A + B + C + D, E);
    QuietConcat(A + B + C, D);
    QuietConcat(A + B, C);
    QuietConcat(A, B);
    QuietGroups(env, ro, w);
    QuietUsers(env, ro, w);
    QuietOrphanGroups(st, cls, declaredGroups);
    QuietOrphanUsers(env, ro, w);
  }

  lemma QuietGroups(env: Env, ro: Roster, w: World)
    requires Ready(ro, env.cls)
    ensures var st, gs := Collect(env.host, w, env.cls), SortBy(GroupKey, ro.groups);
            (Quiet(Flat(GroupActions(st, env.cls), gs))
             && Quiet(Flat(ReaderActions(ro.groups, GidTable(gs), st, env.cls), gs))
             && Quiet(Flat(OwnerActions(st, env.cls), gs)))
            <==> forall g :: g in ro.groups ==> GroupInSync(env.host, ro, w, g)
  {
    var st, gs := Collect(env.host, w, env.cls), SortBy(GroupKey, ro.groups);
    SortByMembers(GroupKey, ro.groups);
    var a, b, d := GroupActions(st, env.cls), ReaderActions(ro.groups, GidTable(gs), st, env.cls),
      OwnerActions(st, env.cls);
    QuietFlat(a, gs);
    QuietFlat(b, gs);
    QuietFlat(d, gs);
    forall g | g in gs
      ensures Quiet(a(g)) && Quiet(b(g)) && Quiet(d(g)) <==> GroupInSync(env.host, ro, w, g)
    {
      QuietFolder(env, w, g);
      if g.name in w.groups && w.groups[g.name].gid == g.gid {
        QuietOwners(env, w, g);
        QuietViews(env, ro, w, g);
      }
    }
  }

  lemma QuietUsers(env: Env, ro: Roster, w: World)
    requires Ready(ro, env.cls)
    ensures var st, gs := Collect(env.host, w, env.cls), SortBy(GroupKey, ro.groups);
            Quiet(Flat(UserActions(gs, ro.users, st, env.cls), SortBy(UserKey, ro.users)))
            <==> forall u :: u in ro.users ==> UserInSync(env.host, ro, env.cls, w, u)
  {
    var st, gs, us := Collect(env.host, w, env.cls), SortBy(GroupKey, ro.groups), SortBy(UserKey, ro.users);
    SortByMembers(UserKey, ro.users);
    var c := UserActions(gs, ro.users, st, env.cls);
    QuietFlat(c, us);
    forall u | u in us ensures Quiet(c(u)) <==> UserInSync(env.host, ro, env.cls, w, u) {
      QuietUser(env, ro, w, u);
    }
  }

  lemma QuietOrphanGroups(st: State, cls: Classifier, declared: set<Name>)
    ensures Quiet(Flat(OrphanGroupActions(st, cls, declared), SortedNames(st.groups.Keys)))
  {
    QuietFlat(OrphanGroupActions(st, cls, declared), SortedNames(st.groups.Keys));
  }

  lemma QuietOrphanUsers(env: Env, ro: Roster, w: World)
    ensures var st, declared := Collect(env.host, w, env.cls), KeysOf(UserKey, ro.users);
            Quiet(Flat(OrphanUserActions(st, env.cls, declared), SortedNames(st.users.Keys)))
            <==> forall n :: n in w.users ==> OrphanInSync(ro, env.cls, w, n)
  {
    var st, declared := Collect(env.host, w, env.cls), KeysOf(UserKey, ro.users);
    var names, f := SortedNames(st.users.Keys), OrphanUserActions(st, env.cls, declared);
    QuietFlat(f, names);
    forall n ensures n in names <==> n in w.users && env.cls.Uid(w.users[n].uid) == Managed {
      assert n in SetOf(names) <==> n in st.users.Keys;
    }
    forall n | n in names ensures Quiet(f(n)) <==> OrphanInSync(ro, env.cls, w, n) {
      QuietOrphan(env, ro, w, n);
    }
  }
}
