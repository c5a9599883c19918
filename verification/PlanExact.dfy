/** The plan, action by action, read off the host and the roster: which actions it holds, with what in them,
    and in which order. Nothing here is said through the reconciler or the collected state. */
module PlanExact {
  import opened Common
  import opened Names
  import opened IdRange
  import opened Roster
  import opened Validation
  import opened System
  import opened Reconcile
  import opened Executor
  import opened Agreement
  import opened Phases
  import Executable
  import Views

  /** What the loader sees to: every group and every user declared once, and no member listed twice. */
  ghost predicate Once(ro: Roster) {
    && Distinct(GroupKey, ro.groups) && Distinct(UserKey, ro.users)
    && forall g :: g in ro.groups ==> Distinct(Self, g.members)
  }

  // --- groups ---

  function Octal(a: nat, b: nat, c: nat, d: nat): nat {
    512 * a + 64 * b + 8 * c + d
  }

  /** Set-gid, everything for owner and group; for others nothing, reading, or everything. */
  function Mode(a: Anonymous): nat {
    match a
    case AnonNone => Octal(2, 7, 7, 0)
    case AnonRead => Octal(2, 7, 7, 5)
    case AnonWrite => Octal(2, 7, 7, 7)
  }

  ghost predicate GroupThere(env: Env, w: World, n: Name) {
    n in w.groups && env.cls.Gid(w.groups[n].gid) == Managed
  }

  ghost predicate GroupCause(env: Env, w: World, g: Group, c: Cause) {
    if env.cls.Gid(g.gid) != Managed then c == NotManaged
    else match c
      case NameOutside => g.name in w.groups && env.cls.Gid(w.groups[g.name].gid) != Managed
      case IdDiffers => GroupThere(env, w, g.name) && w.groups[g.name].gid != g.gid
      case IdHeld => g.name !in w.groups && exists m :: m in w.groups && w.groups[m].gid == g.gid
      case _ => false
  }

  /** The group is there, or can be made, and its folder is not as declared. */
  ghost predicate GroupLacks(w: World, g: Group) {
    if g.name in w.groups then
      && w.groups[g.name].gid == g.gid
      && !(&& g.name in w.folders && w.folders[g.name].gid == g.gid
           && w.folders[g.name].perm == Mode(g.anonymous))
    else forall m :: m in w.groups ==> w.groups[m].gid != g.gid
  }

  /** The declared readers with their gids, by name. */
  ghost predicate ReadersAre(ro: Roster, g: Group, rs: seq<Views.Reader>) {
    && Ascending(Views.ReaderKey, rs)
    && forall r :: r in rs <==>
                   exists h :: h in ro.groups && r == Views.Reader(h.name, h.gid) && Reads(ro.groups, h.name, g)
  }

  ghost predicate GroupDue(env: Env, ro: Roster, w: World, g: Group, a: Action) {
    match a.kind
    case RefuseGroup => a == Action(RefuseGroup, g.name, g.gid, cause := a.cause) && GroupCause(env, w, g, a.cause)
    case CreateGroup =>
      && a == Action(CreateGroup, g.name, g.gid, dirPerm := Mode(g.anonymous))
      && env.cls.Gid(g.gid) == Managed && GroupLacks(w, g)
    case SetGroupReaders =>
      && a == Action(SetGroupReaders, g.name, g.gid, readers := a.readers)
      && env.cls.Gid(g.gid) == Managed && ReadersAre(ro, g, a.readers)
      && if GroupThere(env, w, g.name) && env.host.viewsKnown
         then NamesOf(a.readers) != Views.Observed(w.ns, w.folders, g.name) else a.readers != []
    case SetGroupAdmins =>
      && a == Action(SetGroupAdmins, g.name, g.gid, groups := g.owners)
      && env.cls.Gid(g.gid) == Managed
      && if GroupThere(env, w, g.name)
         then env.host.gshadow && multiset(w.groups[g.name].admins) != multiset(g.owners) else g.owners != []
    case _ => false
  }

  lemma HeldExact(env: Env, w: World, g: Group)
    requires env.cls.Gid(g.gid) == Managed && g.name !in w.groups
    ensures GidHeld(Collect(env.host, w, env.cls), g.gid, g.name) <==>
              exists m :: m in w.groups && w.groups[m].gid == g.gid
  {
    Executable.HeldSeen(env, w, g.gid, g.name);
    if m :| m in w.groups && w.groups[m].gid == g.gid { assert GidInUse(w.groups, g.gid); }
  }

  lemma GroupActionsExact(env: Env, ro: Roster, w: World, g: Group, a: Action)
    ensures a in GroupActions(Collect(env.host, w, env.cls), env.cls)(g) <==>
              a.kind in {CreateGroup, RefuseGroup} && GroupDue(env, ro, w, g, a)
  {
    var st := Collect(env.host, w, env.cls);
    var acts := GroupActions(st, env.cls)(g);
    CollectSees(env, w, g.name);
    if env.cls.Gid(g.gid) == Managed && g.name !in w.groups { HeldExact(env, w, g); }
    if g.name in st.groups { assert st.groups[g.name] == CollectGroup(env.host, w, g.name); }
    assert |acts| <= 1 && (a in acts <==> acts == [a]);
  }

  lemma OwnerActionsExact(env: Env, ro: Roster, w: World, g: Group, a: Action)
    ensures a in OwnerActions(Collect(env.host, w, env.cls), env.cls)(g) <==>
              a.kind == SetGroupAdmins && GroupDue(env, ro, w, g, a)
  {
    var st := Collect(env.host, w, env.cls);
    var acts := OwnerActions(st, env.cls)(g);
    if g.name in st.groups { assert st.groups[g.name] == CollectGroup(env.host, w, g.name); }
    assert |acts| <= 1 && (a in acts <==> acts == [a]);
  }

  lemma ReadersAreWanted(ro: Roster, g: Group, rs: seq<Views.Reader>)
    requires Distinct(GroupKey, ro.groups)
    ensures ReadersAre(ro, g, rs) <==> rs == WantReaders(ro.groups, GidTable(SortBy(GroupKey, ro.groups)), g)
  {
    var want := WantReaders(ro.groups, GidTable(SortBy(GroupKey, ro.groups)), g);
    WantedAre(ro, g);
    if ReadersAre(ro, g, rs) { AscendingUnique(Views.ReaderKey, rs, want); }
  }

  lemma WantedAre(ro: Roster, g: Group)
    requires Distinct(GroupKey, ro.groups)
    ensures ReadersAre(ro, g, WantReaders(ro.groups, GidTable(SortBy(GroupKey, ro.groups)), g))
  {
    var gs := SortBy(GroupKey, ro.groups);
    var gidOf, names := GidTable(gs), GroupReaders(ro.groups, g);
    var known := SortedNames(set n | n in names && n in gidOf);
    var want := WantReaders(ro.groups, gidOf, g);
    assert forall n :: n in known ==> n in SetOf(known);
    assert want == PairUp(known, gidOf);
    forall i, j | 0 <= i < j < |want| ensures Less(Views.ReaderKey(want[i]), Views.ReaderKey(want[j])) {
      assert Less(Self(known[i]), Self(known[j]));
    }
    forall r: Views.Reader
      ensures r in want <==>
                exists h :: h in ro.groups && r == Views.Reader(h.name, h.gid) && Reads(ro.groups, h.name, g)
    {
      WantedOne(ro, g, r);
      if r in want { PairUpMember(known, gidOf, r); }
      if r.name in known && gidOf[r.name] == r.gid {
        var i :| 0 <= i < |known| && known[i] == r.name;
        assert want[i] == r;
      }
    }
  }

  lemma WantedOne(ro: Roster, g: Group, r: Views.Reader)
    requires Distinct(GroupKey, ro.groups)
    ensures var gidOf := GidTable(SortBy(GroupKey, ro.groups));
            (&& r.name in SortedNames(set n | n in GroupReaders(ro.groups, g) && n in gidOf)
             && r.name in gidOf && gidOf[r.name] == r.gid)
            <==> exists h :: h in ro.groups && r == Views.Reader(h.name, h.gid) && Reads(ro.groups, h.name, g)
  {
    var gs := SortBy(GroupKey, ro.groups);
    var gidOf := GidTable(gs);
    var wanted := set n | n in GroupReaders(ro.groups, g) && n in gidOf;
    SortByMembers(GroupKey, ro.groups);
    GroupReadersExact(ro.groups, g, r.name);
    GidTableExact(gs, r.name);
    assert r.name in SortedNames(wanted) <==> r.name in SetOf(SortedNames(wanted));
    forall h, k | h in ro.groups && k in ro.groups && h.name == k.name ensures h == k { OneGroup(ro, h, k); }
  }

  lemma OneGroup(ro: Roster, h: Group, k: Group)
    requires Distinct(GroupKey, ro.groups) && h in ro.groups && k in ro.groups && h.name == k.name
    ensures h == k
  {
    var i :| 0 <= i < |ro.groups| && ro.groups[i] == h;
    var j :| 0 <= j < |ro.groups| && ro.groups[j] == k;
    assert i != j ==> GroupKey(ro.groups[i]) != GroupKey(ro.groups[j]);
  }

  lemma ReaderActionsExact(env: Env, ro: Roster, w: World, g: Group, a: Action)
    requires Distinct(GroupKey, ro.groups)
    ensures a in ReadersFor(ro, Collect(env.host, w, env.cls), env.cls)(g) <==>
              a.kind == SetGroupReaders && GroupDue(env, ro, w, g, a)
  {
    var st := Collect(env.host, w, env.cls);
    var acts, want := ReadersFor(ro, st, env.cls)(g), WantReaders(ro.groups, GidTable(SortBy(GroupKey, ro.groups)), g);
    ReadersAreWanted(ro, g, want);
    if a.kind == SetGroupReaders { ReadersAreWanted(ro, g, a.readers); }
    if g.name in st.groups { assert st.groups[g.name] == CollectGroup(env.host, w, g.name); }
    assert |acts| <= 1 && (a in acts <==> acts == [a]);
  }

  // --- users ---

  ghost predicate UserThere(env: Env, w: World, n: Name) {
    n in w.users && env.cls.Uid(w.users[n].uid) == Managed
  }

  /** An account is to be made: there is none that is managed, and the user is not reserved. */
  ghost predicate Wanting(env: Env, w: World, u: User) {
    !UserThere(env, w, u.name) && u.status != Reserved
  }

  ghost predicate UserCause(env: Env, w: World, u: User, c: Cause) {
    if env.cls.Uid(u.uid) != Managed then c == NotManaged
    else if UserThere(env, w, u.name) then c == IdDiffers && w.users[u.name].uid != u.uid
    else if u.status == Reserved then false
    else if u.name in w.users then c == NameOutside
    else if u.name in w.groups && w.groups[u.name].gid != u.uid then c == PrivateGroupTaken
    else if exists m :: m in w.users && w.users[m].uid == u.uid then c == IdHeld
    else
      && c == PrivateGidHeld && env.cls.Gid(u.uid) == Managed
      && exists m :: m in w.groups && m != u.name && w.groups[m].gid == u.uid
  }

  /** The user is not refused, for no cause. */
  ghost predicate Cleared(env: Env, w: World, u: User) {
    forall c: Cause :: !UserCause(env, w, u, c)
  }

  /** The groups the roster puts somebody in. */
  ghost function Joins(ro: Roster, n: Name): set<Name> {
    set g | g in ro.groups && Contains(ro.users, g, n) :: g.name
  }

  /** The groups that list an account, but for those of its primary gid; managed ones, and the others. */
  ghost function Listed(env: Env, w: World, n: Name, managed: bool): set<Name>
    requires n in w.users
  {
    set g | g in w.groups && n in w.groups[g].members && w.groups[g].gid != w.users[n].gid
            && (env.cls.Gid(w.groups[g].gid) == Managed) == managed
  }

  /** The limit an account has; none counts as 0, and so does that of an account that is not there. */
  ghost function LimitNow(env: Env, w: World, u: User): Bytes {
    if UserThere(env, w, u.name) && w.users[u.name].uid in w.quotas then w.quotas[w.users[u.name].uid] else 0
  }

  ghost predicate HomeRight(w: World, u: User) {
    u.name in w.homes && w.homes[u.name] == Dir(Octal(0, 7, 0, 0), u.uid, u.uid)
  }

  /** What an account that is there lacks. */
  ghost predicate AccountDue(env: Env, ro: Roster, w: World, u: User, a: Action) {
    && UserThere(env, w, u.name)
    && match a.kind
       case ReservedPresent => u.status == Reserved && a == Action(ReservedPresent, u.name, u.uid)
       case UpdateUserGroups =>
         && u.status != Reserved && a == Action(UpdateUserGroups, u.name, u.uid, groups := a.groups)
         && Listed(env, w, u.name, true) != Joins(ro, u.name)
         && Lists(a.groups, Joins(ro, u.name) + Listed(env, w, u.name, false))
       case EnsureHome =>
         && u.status != Reserved && a == Action(EnsureHome, u.name, u.uid)
         && u.home != Some(false) && !HomeRight(w, u)
       case AddSmb => u.status == Active && a == Action(AddSmb, u.name, u.uid) && u.name !in w.smb
       case EnableUser =>
         u.status == Active && a == Action(EnableUser, u.name, u.uid) && u.name in w.smb && !w.smb[u.name].enabled
       case DisableUser =>
         u.status != Active && a == Action(DisableUser, u.name, u.uid) && u.name in w.smb && w.smb[u.name].enabled
       case _ => false
  }

  /** The account to be made. */
  ghost predicate CreateDue(env: Env, ro: Roster, w: World, u: User, a: Action) {
    && Wanting(env, w, u) && Lists(a.groups, Joins(ro, u.name))
    && a == Action(if u.status == Active then CreateUser else CreateUserDisabled, u.name, u.uid,
                   fullName := u.fullName, groups := a.groups, hasSmb := u.name in w.smb, home := u.home != Some(false))
  }

  /** A declared limit of 0 is one of one byte: no limit is none declared. */
  ghost predicate QuotaDue(env: Env, w: World, u: User, a: Action) {
    && env.host.quotaEnforced && u.status != Reserved
    && match u.quota
       case None => a == Action(ClearUserQuota, u.name, u.uid) && LimitNow(env, w, u) != 0
       case Some(q) =>
         a == Action(SetUserQuota, u.name, u.uid, quota := q) && LimitNow(env, w, u) != if q == 0 then 1 else q
  }

  ghost predicate UserDue(env: Env, ro: Roster, w: World, u: User, a: Action) {
    || (a == Action(RefuseUser, u.name, u.uid, cause := a.cause) && UserCause(env, w, u, a.cause))
    || (Cleared(env, w, u) && (AccountDue(env, ro, w, u, a) || CreateDue(env, ro, w, u, a) || QuotaDue(env, w, u, a)))
  }

  // --- entries the roster does not have ---

  /** They are reported; and an account's SMB side is switched off, if its name is one usersync would give. */
  ghost predicate OrphanDue(env: Env, ro: Roster, w: World, a: Action) {
    match a.kind
    case OrphanGroup =>
      && a == Action(OrphanGroup, a.name, a.id) && GroupThere(env, w, a.name) && w.groups[a.name].gid == a.id
      && forall g :: g in ro.groups ==> g.name != a.name
    case OrphanUser =>
      && a == Action(OrphanUser, a.name, a.id) && UserThere(env, w, a.name) && w.users[a.name].uid == a.id
      && forall u :: u in ro.users ==> u.name != a.name
    case DisableUser =>
      && a == Action(DisableUser, a.name, a.id) && UserThere(env, w, a.name) && w.users[a.name].uid == a.id
      && (forall u :: u in ro.users ==> u.name != a.name)
      && ValidName(a.name) && a.name in w.smb && w.smb[a.name].enabled
    case _ => false
  }

  /** What the plan is to hold. */
  ghost predicate Due(env: Env, ro: Roster, w: World, a: Action) {
    || (exists g :: g in ro.groups && GroupDue(env, ro, w, g, a))
    || (exists u :: u in ro.users && UserDue(env, ro, w, u, a))
    || OrphanDue(env, ro, w, a)
  }

  // --- the declared groups of a user, as a list ---

  lemma JoinsAre(ro: Roster, n: Name)
    ensures Joins(ro, n) == DeclaredGroups(ro, n)
  {
    forall g ensures n in GroupMembership(ro.users, g) <==> Contains(ro.users, g, n) {
      MembershipExact(ro.users, g, n);
    }
  }

  lemma MembersOnce(ro: Roster, g: Group)
    requires Once(ro) && g in ro.groups
    ensures Distinct(Self, GroupMembership(ro.users, g))
  {
    if g.all.IsSet() {
      var c := Cohort(ro.users, g.all);
      var at := CohortInOrder(ro.users, g.all);
      forall i, j | 0 <= i < j < |c| ensures Self(c[i]) != Self(c[j]) {
        assert UserKey(ro.users[at[i]]) != UserKey(ro.users[at[j]]);
      }
    }
  }

  lemma JoinedLater(ro: Roster, gs: seq<Group>, n: Name, x: Name)
    requires gs != [] && Ascending(GroupKey, gs) && x in Flat(JoinedBy(ro.users, n), gs[1..])
    ensures Less(gs[0].name, x)
  {
    var f, rest := JoinedBy(ro.users, n), gs[1..];
    FlatMember(f, rest, x);
    var g :| g in rest && x in f(g);
    HitsMember(GroupMembership(ro.users, g), n, g.name, x);
    var i :| 0 <= i < |rest| && rest[i] == g;
    assert Less(GroupKey(gs[0]), GroupKey(gs[i + 1]));
  }

  lemma {:induction false} JoinedAscending(ro: Roster, gs: seq<Group>, n: Name)
    requires Once(ro) && Ascending(GroupKey, gs) && forall g :: g in gs ==> g in ro.groups
    ensures Ascending(Self, Flat(JoinedBy(ro.users, n), gs))
    decreases |gs|
  {
    if gs != [] {
      var f, rest := JoinedBy(ro.users, n), gs[1..];
      assert gs == [gs[0]] + rest;
      JoinedAscending(ro, rest, n);
      MembersOnce(ro, gs[0]);
      HitOnce(GroupMembership(ro.users, gs[0]), n, gs[0].name);
      forall x | x in Flat(f, rest) ensures Less(gs[0].name, x) { JoinedLater(ro, gs, n, x); }
      if f(gs[0]) == [gs[0].name] {
        PrependAscending(Self, gs[0].name, Flat(f, rest));
      } else {
        assert [] + Flat(f, rest) == Flat(f, rest);
      }
    }
  }

  lemma GroupsListed(ro: Roster, n: Name, s: seq<Name>)
    requires Once(ro)
    ensures Lists(s, Joins(ro, n)) <==> s == UserGroups(SortBy(GroupKey, ro.groups), ro.users, n)
  {
    var gs := SortBy(GroupKey, ro.groups);
    SortByAscending(GroupKey, ro.groups);
    SortByMembers(GroupKey, ro.groups);
    JoinedAscending(ro, gs, n);
    UserGroupsExact(ro, n);
    JoinsAre(ro, n);
    NamesOnly(s, UserGroups(gs, ro.users, n), Joins(ro, n));
  }

  lemma NamesOnly(s: seq<Name>, t: seq<Name>, all: set<Name>)
    requires Lists(t, all)
    ensures Lists(s, all) <==> s == t
  {
    SortedNamesIs(t, all);
    if Lists(s, all) { SortedNamesIs(s, all); }
  }

  // --- one user's part of the plan ---

  /** The cause the reconciler finds for refusing to make an account is the one that holds, and the only one. */
  lemma CauseExact(env: Env, w: World, u: User, c: Cause)
    requires env.cls.Uid(u.uid) == Managed && Wanting(env, w, u)
    ensures UserCause(env, w, u, c) <==> c != NoCause && CreateRefusal(u, Collect(env.host, w, env.cls)) == c
  {
    var st := Collect(env.host, w, env.cls);
    CollectSees(env, w, u.name);
    Executable.HeldSeen(env, w, u.uid, u.name);
    if m :| m in w.users && w.users[m].uid == u.uid { assert UidInUse(w.users, u.uid); }
    GidHeldExact(env, w, u);
  }

  lemma GidHeldExact(env: Env, w: World, u: User)
    ensures GidHeld(Collect(env.host, w, env.cls), u.uid, u.name) <==>
              env.cls.Gid(u.uid) == Managed && exists m :: m in w.groups && m != u.name && w.groups[m].gid == u.uid
  {
    var st := Collect(env.host, w, env.cls);
    if m :| m in w.groups && m != u.name && w.groups[m].gid == u.uid {
      if env.cls.Gid(u.uid) == Managed { assert m in st.groups && st.groups[m].gid == u.uid; }
    }
  }

  /** Where a user is refused, that is all; and where not, it is not. */
  lemma ClearedExact(env: Env, w: World, u: User)
    ensures Cleared(env, w, u) <==>
              && env.cls.Uid(u.uid) == Managed && (UserThere(env, w, u.name) ==> w.users[u.name].uid == u.uid)
              && (Wanting(env, w, u) ==> CreateRefusal(u, Collect(env.host, w, env.cls)) == NoCause)
  {
    if env.cls.Uid(u.uid) != Managed {
      assert UserCause(env, w, u, NotManaged);
    } else if UserThere(env, w, u.name) && w.users[u.name].uid != u.uid {
      assert UserCause(env, w, u, IdDiffers);
    } else if Wanting(env, w, u) {
      forall c {
        CauseExact(env, w, u, c);
      }
      assert UserCause(env, w, u, CreateRefusal(u, Collect(env.host, w, env.cls)))
             <==> CreateRefusal(u, Collect(env.host, w, env.cls)) != NoCause;
    }
  }

  ghost function AccountPart(env: Env, ro: Roster, w: World, u: User): seq<Action> {
    AccountActions(u, UserGroups(SortBy(GroupKey, ro.groups), ro.users, u.name), Collect(env.host, w, env.cls), env.cls)
  }

  lemma RefusalExact(env: Env, ro: Roster, w: World, u: User, a: Action)
    requires !Cleared(env, w, u)
    ensures a in AccountPart(env, ro, w, u) <==>
              a == Action(RefuseUser, u.name, u.uid, cause := a.cause) && UserCause(env, w, u, a.cause)
    ensures Refused(AccountPart(env, ro, w, u))
  {
    var acts := AccountPart(env, ro, w, u);
    ClearedExact(env, w, u);
    CollectSees(env, w, u.name);
    if env.cls.Uid(u.uid) == Managed && Wanting(env, w, u) { CauseExact(env, w, u, a.cause); }
    assert |acts| == 1 && acts[0].kind == RefuseUser && acts[0] in acts;
    assert a in acts <==> a == acts[0];
  }

  lemma CreateExact(env: Env, ro: Roster, w: World, u: User, a: Action)
    requires Once(ro) && Cleared(env, w, u) && Wanting(env, w, u)
    ensures a in AccountPart(env, ro, w, u) <==> CreateDue(env, ro, w, u, a)
  {
    var acts := AccountPart(env, ro, w, u);
    ClearedExact(env, w, u);
    CollectSees(env, w, u.name);
    GroupsListed(ro, u.name, a.groups);
    assert acts == [CreateAction(u, UserGroups(SortBy(GroupKey, ro.groups), ro.users, u.name),
                                 Collect(env.host, w, env.cls))];
  }

  lemma SmbExact(env: Env, ro: Roster, w: World, u: User, a: Action)
    requires UserThere(env, w, u.name)
    ensures a in SmbActions(u, Collect(env.host, w, env.cls)) <==>
              a.kind in {AddSmb, EnableUser, DisableUser} && AccountDue(env, ro, w, u, a)
  {
    CollectSees(env, w, u.name);
  }

  lemma ListedExact(env: Env, w: World, n: Name)
    requires n in w.users
    ensures ManagedMemberships(w, env.cls, n) == Listed(env, w, n, true)
    ensures ExtraMemberships(w, env.cls, n) == Listed(env, w, n, false)
  {
  }

  lemma JoinExact(env: Env, ro: Roster, w: World, u: User, cur: UserState, a: Action)
    requires Once(ro) && UserThere(env, w, u.name) && u.status != Reserved
    requires cur == CollectUser(env.host, w, env.cls, u.name)
    ensures var groups := UserGroups(SortBy(GroupKey, ro.groups), ro.users, u.name);
            (SetOf(groups) != cur.groups
             && a == UserAction(u, UpdateUserGroups).(groups := MergeGroups(groups, cur.extraGroups)))
            <==> a.kind == UpdateUserGroups && AccountDue(env, ro, w, u, a)
  {
    var groups := UserGroups(SortBy(GroupKey, ro.groups), ro.users, u.name);
    UserGroupsExact(ro, u.name);
    JoinsAre(ro, u.name);
    ListedExact(env, w, u.name);
    NamesOnly(a.groups, MergeGroups(groups, cur.extraGroups), Joins(ro, u.name) + Listed(env, w, u.name, false));
  }

  lemma HomeExact(env: Env, ro: Roster, w: World, u: User, cur: UserState, a: Action)
    requires UserThere(env, w, u.name) && u.status != Reserved && cur.home == Find(w.homes, u.name)
    ensures (HomeDrifted(u, cur) && a == UserAction(u, EnsureHome)) <==>
              a.kind == EnsureHome && AccountDue(env, ro, w, u, a)
  {
  }

  lemma PresentExact(env: Env, ro: Roster, w: World, u: User, a: Action)
    requires Once(ro) && UserThere(env, w, u.name) && u.status != Reserved && w.users[u.name].uid == u.uid
    ensures var groups := UserGroups(SortBy(GroupKey, ro.groups), ro.users, u.name);
            a in PresentUserActions(u, groups, CollectUser(env.host, w, env.cls, u.name)) <==>
              a.kind in {UpdateUserGroups, EnsureHome} && AccountDue(env, ro, w, u, a)
  {
    var groups := UserGroups(SortBy(GroupKey, ro.groups), ro.users, u.name);
    var cur := CollectUser(env.host, w, env.cls, u.name);
    JoinExact(env, ro, w, u, cur, a);
    HomeExact(env, ro, w, u, cur, a);
    var update := UserAction(u, UpdateUserGroups).(groups := MergeGroups(groups, cur.extraGroups));
    var first := if SetOf(groups) != cur.groups then [update] else [];
    var home := if HomeDrifted(u, cur) then [UserAction(u, EnsureHome)] else [];
    assert PresentUserActions(u, groups, cur) == first + home;
    assert a in first + home <==> a in first || a in home;
  }

  ghost function LeadPart(env: Env, ro: Roster, w: World, u: User): seq<Action>
    requires UserThere(env, w, u.name)
  {
    if u.status == Reserved then [UserAction(u, ReservedPresent)]
    else PresentUserActions(u, UserGroups(SortBy(GroupKey, ro.groups), ro.users, u.name),
                            CollectUser(env.host, w, env.cls, u.name))
  }

  lemma LeadExact(env: Env, ro: Roster, w: World, u: User, a: Action)
    requires Once(ro) && UserThere(env, w, u.name) && w.users[u.name].uid == u.uid
    ensures a in LeadPart(env, ro, w, u) <==>
              a.kind !in {AddSmb, EnableUser, DisableUser} && AccountDue(env, ro, w, u, a)
  {
    if u.status != Reserved { PresentExact(env, ro, w, u, a); }
  }

  lemma ThereParts(env: Env, ro: Roster, w: World, u: User)
    requires Cleared(env, w, u) && !Wanting(env, w, u)
    ensures UserThere(env, w, u.name) ==> w.users[u.name].uid == u.uid
    ensures AccountPart(env, ro, w, u) ==
              if UserThere(env, w, u.name)
              then LeadPart(env, ro, w, u) + SmbActions(u, Collect(env.host, w, env.cls)) else []
  {
    ClearedExact(env, w, u);
    CollectSees(env, w, u.name);
  }

  lemma ThereExact(env: Env, ro: Roster, w: World, u: User, a: Action)
    requires Once(ro) && Cleared(env, w, u) && !Wanting(env, w, u)
    ensures a in AccountPart(env, ro, w, u) <==> AccountDue(env, ro, w, u, a)
  {
    ThereParts(env, ro, w, u);
    if UserThere(env, w, u.name) {
      SmbExact(env, ro, w, u, a);
      LeadExact(env, ro, w, u, a);
      var lead, smb := LeadPart(env, ro, w, u), SmbActions(u, Collect(env.host, w, env.cls));
      assert a in lead + smb <==> a in lead || a in smb;
    }
  }

  lemma NotRefused(env: Env, ro: Roster, w: World, u: User)
    requires Once(ro) && Cleared(env, w, u)
    ensures !Refused(AccountPart(env, ro, w, u))
  {
    forall a | a in AccountPart(env, ro, w, u) ensures a.kind != RefuseUser {
      if Wanting(env, w, u) { CreateExact(env, ro, w, u, a); } else { ThereExact(env, ro, w, u, a); }
    }
  }

  lemma QuotaExact(env: Env, w: World, u: User, a: Action)
    requires UserThere(env, w, u.name) ==> w.users[u.name].uid == u.uid
    ensures a in QuotaActions(u, Collect(env.host, w, env.cls)) <==> QuotaDue(env, w, u, a)
  {
    CollectSees(env, w, u.name);
    if env.host.quotaEnforced {
      var st := Collect(env.host, w, env.cls);
      assert LimitNow(env, w, u) == if u.name in st.users then st.users[u.name].quota else 0;
    }
  }

  lemma UserActionsExact(env: Env, ro: Roster, w: World, u: User, a: Action)
    requires Once(ro)
    ensures a in ActionsFor(ro, Collect(env.host, w, env.cls), env.cls)(u) <==> UserDue(env, ro, w, u, a)
  {
    if Cleared(env, w, u) {
      ClearedExact(env, w, u);
      if Wanting(env, w, u) { CreateExact(env, ro, w, u, a); } else { ThereExact(env, ro, w, u, a); }
      NotRefused(env, ro, w, u);
      QuotaExact(env, w, u, a);
    } else {
      RefusalExact(env, ro, w, u, a);
    }
  }

  // --- the whole plan ---

  lemma OrphanGroupsExact(env: Env, ro: Roster, w: World, a: Action)
    ensures a in OrphanGroupPart(ro, Collect(env.host, w, env.cls), env.cls) <==>
              a.kind == OrphanGroup && OrphanDue(env, ro, w, a)
  {
    var st := Collect(env.host, w, env.cls);
    var f, names := OrphanGroupActions(st, env.cls, KeysOf(GroupKey, ro.groups)), SortedNames(st.groups.Keys);
    FlatMember(f, names, a);
    KeysOfExact(GroupKey, ro.groups, a.name);
    if a.name in st.groups { assert st.groups[a.name] == CollectGroup(env.host, w, a.name); }
    assert a.name in names <==> a.name in SetOf(names);
    forall n | a in f(n) ensures n == a.name {}
  }

  lemma OrphanState(ro: Roster, st: State, cls: Classifier, n: Name, a: Action)
    ensures a in OrphansFor(ro, st, cls)(n) <==>
              && (forall u :: u in ro.users ==> u.name != n)
              && n in st.users && cls.Uid(st.users[n].uid) == Managed
              && (a == Action(OrphanUser, n, st.users[n].uid)
                  || (ValidName(n) && n in st.smb && st.smb[n] && a == Action(DisableUser, n, st.users[n].uid)))
  {
    KeysOfExact(UserKey, ro.users, n);
  }

  lemma OrphanExact(env: Env, ro: Roster, w: World, n: Name, a: Action)
    ensures a in OrphansFor(ro, Collect(env.host, w, env.cls), env.cls)(n) <==>
              n == a.name && a.kind != OrphanGroup && OrphanDue(env, ro, w, a)
  {
    OrphanState(ro, Collect(env.host, w, env.cls), env.cls, n, a);
    CollectSees(env, w, n);
  }

  lemma OrphanUsersExact(env: Env, ro: Roster, w: World, a: Action)
    ensures a in OrphanUserPart(ro, Collect(env.host, w, env.cls), env.cls) <==>
              a.kind != OrphanGroup && OrphanDue(env, ro, w, a)
  {
    OrphanPlanned(ro, Collect(env.host, w, env.cls), env.cls, a);
    CollectSees(env, w, a.name);
    forall n
      ensures a in OrphansFor(ro, Collect(env.host, w, env.cls), env.cls)(n) <==>
                n == a.name && a.kind != OrphanGroup && OrphanDue(env, ro, w, a)
    {
      OrphanExact(env, ro, w, n, a);
    }
  }

  lemma GroupPartsExact(env: Env, ro: Roster, w: World, a: Action)
    requires Once(ro)
    ensures var st := Collect(env.host, w, env.cls);
            (a in FolderPart(ro, st, env.cls) || a in ReaderPart(ro, st, env.cls) || a in OwnerPart(ro, st, env.cls))
            <==> exists g :: g in ro.groups && GroupDue(env, ro, w, g, a)
  {
    var st := Collect(env.host, w, env.cls);
    FolderPlanned(ro, st, env.cls, a);
    ReaderPlanned(ro, st, env.cls, a);
    OwnerPlanned(ro, st, env.cls, a);
    forall g: Group
      ensures (a in GroupActions(st, env.cls)(g) || a in ReadersFor(ro, st, env.cls)(g)
               || a in OwnerActions(st, env.cls)(g)) <==> GroupDue(env, ro, w, g, a)
    {
      GroupActionsExact(env, ro, w, g, a);
      OwnerActionsExact(env, ro, w, g, a);
      ReaderActionsExact(env, ro, w, g, a);
    }
  }

  lemma UserPartExact(env: Env, ro: Roster, w: World, a: Action)
    requires Once(ro)
    ensures a in UserPart(ro, Collect(env.host, w, env.cls), env.cls) <==>
              exists u :: u in ro.users && UserDue(env, ro, w, u, a)
  {
    UserPlanned(ro, Collect(env.host, w, env.cls), env.cls, a);
    forall u: User
      ensures a in ActionsFor(ro, Collect(env.host, w, env.cls), env.cls)(u) <==> UserDue(env, ro, w, u, a)
    {
      UserActionsExact(env, ro, w, u, a);
    }
  }

  /** The plan holds exactly what is due. */
  lemma PlanExactly(env: Env, ro: Roster, w: World, a: Action)
    requires Once(ro)
    ensures a in PlanOf(env, ro, w) <==> Due(env, ro, w, a)
  {
    Parts(ro, Collect(env.host, w, env.cls), env.cls, a);
    GroupPartsExact(env, ro, w, a);
    UserPartExact(env, ro, w, a);
    OrphanGroupsExact(env, ro, w, a);
    OrphanUsersExact(env, ro, w, a);
  }

  lemma OnlyOrphans(env: Env, ro: Roster, w: World, a: Action)
    requires Once(ro) && a.kind in {OrphanUser, OrphanGroup}
    ensures a in PlanOf(env, ro, w) <==> OrphanDue(env, ro, w, a)
  {
    PlanExactly(env, ro, w, a);
    forall u: User ensures !UserDue(env, ro, w, u, a) { NoOrphan(env, ro, w, u, a); }
  }

  lemma NoOrphan(env: Env, ro: Roster, w: World, u: User, a: Action)
    requires a.kind in {OrphanUser, OrphanGroup}
    ensures !UserDue(env, ro, w, u, a)
  {
  }

  lemma OnlyUsers(env: Env, ro: Roster, w: World, a: Action)
    requires a.kind == ReservedPresent
    ensures Due(env, ro, w, a) <==> exists u :: u in ro.users && UserDue(env, ro, w, u, a)
  {
  }

  lemma OrphanMeans(env: Env, ro: Roster, w: World, n: Name, id: Id)
    ensures OrphanDue(env, ro, w, Action(OrphanUser, n, id)) <==>
              && n in w.users && w.users[n].uid == id && env.cls.Uid(id) == Managed
              && forall u :: u in ro.users ==> u.name != n
    ensures OrphanDue(env, ro, w, Action(OrphanGroup, n, id)) <==>
              && n in w.groups && w.groups[n].gid == id && env.cls.Gid(id) == Managed
              && forall g :: g in ro.groups ==> g.name != n
  {
  }

  lemma ReservedDue(env: Env, ro: Roster, w: World, u: User, n: Name, id: Id)
    ensures UserDue(env, ro, w, u, Action(ReservedPresent, n, id)) <==>
              && n in w.users && w.users[n].uid == id && env.cls.Uid(id) == Managed
              && u.name == n && u.uid == id && u.status == Reserved
  {
    ClearedExact(env, w, u);
  }

  lemma ReservedNoticed(env: Env, ro: Roster, w: World, n: Name, id: Id)
    requires Once(ro)
    ensures Action(ReservedPresent, n, id) in PlanOf(env, ro, w) <==>
              && n in w.users && w.users[n].uid == id && env.cls.Uid(id) == Managed
              && exists u :: u in ro.users && u.name == n && u.uid == id && u.status == Reserved
  {
    var a := Action(ReservedPresent, n, id);
    PlanExactly(env, ro, w, a);
    OnlyUsers(env, ro, w, a);
    forall u: User
      ensures UserDue(env, ro, w, u, a) <==>
                && n in w.users && w.users[n].uid == id && env.cls.Uid(id) == Managed
                && u.name == n && u.uid == id && u.status == Reserved
    {
      ReservedDue(env, ro, w, u, n, id);
    }
  }

  /** The standing notices, wherever there is something to notice: accounts and groups nobody declares, and
      accounts of reserved users. */
  lemma NoticesExact(env: Env, ro: Roster, w: World, n: Name, id: Id)
    requires Once(ro)
    ensures Action(OrphanUser, n, id) in PlanOf(env, ro, w) <==>
              && n in w.users && w.users[n].uid == id && env.cls.Uid(id) == Managed
              && forall u :: u in ro.users ==> u.name != n
    ensures Action(OrphanGroup, n, id) in PlanOf(env, ro, w) <==>
              && n in w.groups && w.groups[n].gid == id && env.cls.Gid(id) == Managed
              && forall g :: g in ro.groups ==> g.name != n
    ensures Action(ReservedPresent, n, id) in PlanOf(env, ro, w) <==>
              && n in w.users && w.users[n].uid == id && env.cls.Uid(id) == Managed
              && exists u :: u in ro.users && u.name == n && u.uid == id && u.status == Reserved
  {
    OnlyOrphans(env, ro, w, Action(OrphanUser, n, id));
    OnlyOrphans(env, ro, w, Action(OrphanGroup, n, id));
    OrphanMeans(env, ro, w, n, id);
    ReservedNoticed(env, ro, w, n, id);
  }

  // --- the order ---

  /** Groups and folders, reader views, users, administrators, then what nobody declares. */
  ghost function Part(ro: Roster, a: Action): nat {
    match a.kind
    case CreateGroup | RefuseGroup => 0
    case SetGroupReaders => 1
    case SetGroupAdmins => 3
    case OrphanGroup => 4
    case OrphanUser => 5
    case DisableUser => if exists u :: u in ro.users && u.name == a.name then 2 else 5
    case _ => 2
  }

  /** For one name: the account and its groups, its home, its SMB side, its limit. */
  function Rank(k: Kind): nat {
    match k
    case EnsureHome => 1
    case AddSmb | EnableUser | DisableUser => 2
    case SetUserQuota | ClearUserQuota => 3
    case _ => 0
  }

  ghost predicate Earlier(ro: Roster, a: Action, b: Action) {
    if Part(ro, a) != Part(ro, b) then Part(ro, a) < Part(ro, b)
    else if a.name != b.name then Less(a.name, b.name)
    else Rank(a.kind) < Rank(b.kind)
  }

  ghost predicate Ordered(ro: Roster, s: seq<Action>) {
    forall i, j :: 0 <= i < j < |s| ==> Earlier(ro, s[i], s[j])
  }

  /** The actions are all of one part and one name. */
  ghost predicate Of(ro: Roster, s: seq<Action>, part: nat, n: Name) {
    forall a :: a in s ==> Part(ro, a) == part && a.name == n
  }

  lemma JoinOrdered(ro: Roster, a: seq<Action>, b: seq<Action>)
    requires Ordered(ro, a) && Ordered(ro, b) && forall x, y :: x in a && y in b ==> Earlier(ro, x, y)
    ensures Ordered(ro, a + b)
  {
    var s := a + b;
    forall i, j | 0 <= i < j < |s| ensures Earlier(ro, s[i], s[j]) {
      if i < |a| <= j { assert a[i] in a && b[j - |a|] in b; }
    }
  }

  /** A part of the plan, entry by entry in the order of the names. */
  lemma {:induction false} FlatOrdered<T(!new)>(ro: Roster, f: T -> seq<Action>, key: T -> Name, q: seq<T>, part: nat)
    requires Ascending(key, q)
    requires forall x :: x in q ==> Ordered(ro, f(x)) && Of(ro, f(x), part, key(x))
    ensures Ordered(ro, Flat(f, q))
    ensures forall a :: a in Flat(f, q) ==> Part(ro, a) == part
    decreases |q|
  {
    if q != [] {
      var rest := q[1..];
      assert q == [q[0]] + rest;
      forall i, j | 0 <= i < j < |rest| ensures Less(key(rest[i]), key(rest[j])) {
        assert Less(key(q[i + 1]), key(q[j + 1]));
      }
      FlatOrdered(ro, f, key, rest, part);
      forall a, b | a in f(q[0]) && b in Flat(f, rest) ensures Earlier(ro, a, b) {
        FlatMember(f, rest, b);
        var x :| x in rest && b in f(x);
        var i :| 0 <= i < |rest| && rest[i] == x;
        assert Less(key(q[0]), key(q[i + 1]));
        LessAsymmetric(key(q[0]), key(x));
      }
      JoinOrdered(ro, f(q[0]), Flat(f, rest));
    }
  }

  lemma OneOrdered(ro: Roster, s: seq<Action>)
    requires |s| <= 1
    ensures Ordered(ro, s)
  {
  }

  /** One name's actions, ranks ascending, are in order. */
  lemma RanksOrdered(ro: Roster, a: seq<Action>, b: seq<Action>, part: nat, n: Name)
    requires Ordered(ro, a) && Of(ro, a, part, n) && Ordered(ro, b) && Of(ro, b, part, n)
    requires forall x, y :: x in a && y in b ==> Rank(x.kind) < Rank(y.kind)
    ensures Ordered(ro, a + b) && Of(ro, a + b, part, n)
  {
    JoinOrdered(ro, a, b);
  }

  lemma FolderOrdered(ro: Roster, st: State, cls: Classifier)
    requires Once(ro)
    ensures Ordered(ro, FolderPart(ro, st, cls)) && forall a :: a in FolderPart(ro, st, cls) ==> Part(ro, a) == 0
  {
    var gs := SortBy(GroupKey, ro.groups);
    SortByAscending(GroupKey, ro.groups);
    FlatOrdered(ro, GroupActions(st, cls), GroupKey, gs, 0);
  }

  lemma ReadersOrdered(ro: Roster, st: State, cls: Classifier)
    requires Once(ro)
    ensures Ordered(ro, ReaderPart(ro, st, cls)) && forall a :: a in ReaderPart(ro, st, cls) ==> Part(ro, a) == 1
  {
    var gs := SortBy(GroupKey, ro.groups);
    SortByAscending(GroupKey, ro.groups);
    FlatOrdered(ro, ReadersFor(ro, st, cls), GroupKey, gs, 1);
  }

  lemma OwnersOrdered(ro: Roster, st: State, cls: Classifier)
    requires Once(ro)
    ensures Ordered(ro, OwnerPart(ro, st, cls)) && forall a :: a in OwnerPart(ro, st, cls) ==> Part(ro, a) == 3
  {
    var gs := SortBy(GroupKey, ro.groups);
    SortByAscending(GroupKey, ro.groups);
    FlatOrdered(ro, OwnerActions(st, cls), GroupKey, gs, 3);
  }

  lemma OrphanGroupsOrdered(ro: Roster, st: State, cls: Classifier)
    ensures Ordered(ro, OrphanGroupPart(ro, st, cls))
    ensures forall a :: a in OrphanGroupPart(ro, st, cls) ==> Part(ro, a) == 4
  {
    FlatOrdered(ro, OrphanGroupActions(st, cls, KeysOf(GroupKey, ro.groups)), Self, SortedNames(st.groups.Keys), 4);
  }

  lemma OrphanOrdered(ro: Roster, st: State, cls: Classifier, n: Name)
    ensures Ordered(ro, OrphansFor(ro, st, cls)(n)) && Of(ro, OrphansFor(ro, st, cls)(n), 5, n)
  {
    KeysOfExact(UserKey, ro.users, n);
    var s := OrphansFor(ro, st, cls)(n);
    if s != [] {
      assert s == [s[0]] + s[1..] && |s[1..]| <= 1;
      OneOrdered(ro, [s[0]]);
      OneOrdered(ro, s[1..]);
      RanksOrdered(ro, [s[0]], s[1..], 5, n);
    }
  }

  lemma OrphanUsersOrdered(ro: Roster, st: State, cls: Classifier)
    ensures Ordered(ro, OrphanUserPart(ro, st, cls))
    ensures forall a :: a in OrphanUserPart(ro, st, cls) ==> Part(ro, a) == 5
  {
    var f, names := OrphansFor(ro, st, cls), SortedNames(st.users.Keys);
    forall n ensures Ordered(ro, f(n)) && Of(ro, f(n), 5, Self(n)) { OrphanOrdered(ro, st, cls, n); }
    FlatOrdered(ro, f, Self, names, 5);
  }

  lemma PresentOrdered(ro: Roster, u: User, groups: seq<Name>, cur: UserState)
    requires u in ro.users
    ensures var s := PresentUserActions(u, groups, cur);
            Ordered(ro, s) && Of(ro, s, 2, u.name) && forall a :: a in s ==> Rank(a.kind) < 2
  {
    var first := if SetOf(groups) != cur.groups
                 then [UserAction(u, UpdateUserGroups).(groups := MergeGroups(groups, cur.extraGroups))] else [];
    var home := if HomeDrifted(u, cur) then [UserAction(u, EnsureHome)] else [];
    assert PresentUserActions(u, groups, cur) == first + home;
    RanksOrdered(ro, first, home, 2, u.name);
  }

  lemma SmbOrdered(ro: Roster, u: User, st: State)
    requires u in ro.users
    ensures var s := SmbActions(u, st);
            Ordered(ro, s) && Of(ro, s, 2, u.name) && forall a :: a in s ==> Rank(a.kind) == 2
  {
  }

  lemma AccountOrdered(ro: Roster, u: User, groups: seq<Name>, st: State, cls: Classifier)
    requires u in ro.users
    ensures var s := AccountActions(u, groups, st, cls);
            Ordered(ro, s) && Of(ro, s, 2, u.name) && forall a :: a in s ==> Rank(a.kind) < 3
  {
    var acts := AccountActions(u, groups, st, cls);
    if u.name in st.users && st.users[u.name].uid == u.uid && cls.Uid(u.uid) == Managed {
      SmbOrdered(ro, u, st);
      if u.status == Reserved {
        RanksOrdered(ro, [UserAction(u, ReservedPresent)], SmbActions(u, st), 2, u.name);
      } else {
        PresentOrdered(ro, u, groups, st.users[u.name]);
        RanksOrdered(ro, PresentUserActions(u, groups, st.users[u.name]), SmbActions(u, st), 2, u.name);
      }
    } else {
      assert |acts| <= 1;
    }
  }

  lemma UserOrdered(ro: Roster, st: State, cls: Classifier, u: User)
    requires u in ro.users
    ensures Ordered(ro, ActionsFor(ro, st, cls)(u)) && Of(ro, ActionsFor(ro, st, cls)(u), 2, u.name)
  {
    var groups, quota := UserGroups(SortBy(GroupKey, ro.groups), ro.users, u.name), QuotaActions(u, st);
    AccountOrdered(ro, u, groups, st, cls);
    OneOrdered(ro, quota);
    assert Of(ro, quota, 2, u.name) && forall a :: a in quota ==> Rank(a.kind) == 3;
    RanksOrdered(ro, AccountActions(u, groups, st, cls), quota, 2, u.name);
  }

  lemma UsersOrdered(ro: Roster, st: State, cls: Classifier)
    requires Once(ro)
    ensures Ordered(ro, UserPart(ro, st, cls)) && forall a :: a in UserPart(ro, st, cls) ==> Part(ro, a) == 2
  {
    var f, us := ActionsFor(ro, st, cls), SortBy(UserKey, ro.users);
    SortByAscending(UserKey, ro.users);
    SortByMembers(UserKey, ro.users);
    forall u | u in us ensures Ordered(ro, f(u)) && Of(ro, f(u), 2, UserKey(u)) { UserOrdered(ro, st, cls, u); }
    FlatOrdered(ro, f, UserKey, us, 2);
  }

  lemma JoinParts(ro: Roster, a: seq<Action>, b: seq<Action>, part: nat)
    requires Ordered(ro, a) && (forall x :: x in a ==> Part(ro, x) < part)
    requires Ordered(ro, b) && (forall x :: x in b ==> Part(ro, x) == part)
    ensures Ordered(ro, a + b) && forall x :: x in a + b ==> Part(ro, x) < part + 1
  {
    JoinOrdered(ro, a, b);
  }

  /** The plan is in order. */
  lemma PlanOrdered(env: Env, ro: Roster, w: World)
    requires Once(ro)
    ensures Ordered(ro, PlanOf(env, ro, w))
  {
    var cls, st := env.cls, Collect(env.host, w, env.cls);
    FolderOrdered(ro, st, cls);
    ReadersOrdered(ro, st, cls);
    UsersOrdered(ro, st, cls);
    OwnersOrdered(ro, st, cls);
    OrphanGroupsOrdered(ro, st, cls);
    OrphanUsersOrdered(ro, st, cls);
    var a := FolderPart(ro, st, cls);
    var b := a + ReaderPart(ro, st, cls);
    var c := b + UserPart(ro, st, cls);
    var d := c + OwnerPart(ro, st, cls);
    JoinParts(ro, a, ReaderPart(ro, st, cls), 1);
    JoinParts(ro, b, UserPart(ro, st, cls), 2);
    JoinParts(ro, c, OwnerPart(ro, st, cls), 3);
    JoinParts(ro, d, OrphanGroupPart(ro, st, cls), 4);
    JoinParts(ro, d + OrphanGroupPart(ro, st, cls), OrphanUserPart(ro, st, cls), 5);
  }

  lemma EarlierNot(ro: Roster, a: Action, b: Action)
    requires Earlier(ro, a, b)
    ensures !Earlier(ro, b, a) && a != b
  {
    if Less(a.name, b.name) { LessAsymmetric(a.name, b.name); }
  }

  lemma AfterFirst(ro: Roster, s: seq<Action>, x: Action)
    requires s != [] && Ordered(ro, s)
    ensures x in s[1..] <==> x in s && x != s[0]
    ensures x in s[1..] ==> Earlier(ro, s[0], x)
  {
    assert s == [s[0]] + s[1..];
    if x in s[1..] {
      var i :| 0 <= i < |s[1..]| && s[1..][i] == x;
      assert s[i + 1] == x;
      EarlierNot(ro, s[0], x);
    }
  }

  lemma {:induction false} OneList(ro: Roster, a: seq<Action>, b: seq<Action>)
    requires Ordered(ro, a) && Ordered(ro, b) && forall x :: x in a <==> x in b
    ensures a == b
    decreases |a|
  {
    assert (a != [] ==> a[0] in a) && (b != [] ==> b[0] in b);
    if a != [] && b != [] {
      if a[0] != b[0] {
        AfterFirst(ro, a, b[0]);
        AfterFirst(ro, b, a[0]);
        EarlierNot(ro, a[0], b[0]);
      }
      forall x ensures x in a[1..] <==> x in b[1..] {
        AfterFirst(ro, a, x);
        AfterFirst(ro, b, x);
      }
      OneList(ro, a[1..], b[1..]);
      assert a == [a[0]] + a[1..] && b == [b[0]] + b[1..];
    }
  }

  /** So the plan is the one list in this order of what is due. */
  lemma PlanIs(env: Env, ro: Roster, w: World, s: seq<Action>)
    requires Once(ro)
    ensures s == PlanOf(env, ro, w) <==> Ordered(ro, s) && forall a :: a in s <==> Due(env, ro, w, a)
  {
    PlanOrdered(env, ro, w);
    forall a ensures a in PlanOf(env, ro, w) <==> Due(env, ro, w, a) { PlanExactly(env, ro, w, a); }
    if Ordered(ro, s) && forall a :: a in s <==> Due(env, ro, w, a) { OneList(ro, s, PlanOf(env, ro, w)); }
  }
}
