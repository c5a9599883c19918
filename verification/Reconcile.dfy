/** The reconciler: declared roster and collected state in, ordered actions out
    (internal/reconcile/reconcile.go). */
module Reconcile {
  import opened Common
  import opened Names
  import opened IdRange
  import opened Roster
  import opened System
  import opened Validation
  import Views

  // --- actions ---

  datatype Kind =
    | CreateGroup | RefuseGroup | OrphanGroup | SetGroupAdmins | SetGroupReaders
    | CreateUser | CreateUserDisabled | UpdateUserGroups | AddSmb | EnableUser | DisableUser
    | EnsureHome | SetUserQuota | ClearUserQuota | RefuseUser | OrphanUser | ReservedPresent

  datatype Class = Change | Refuse | Notice

  function ClassOf(k: Kind): Class {
    match k
    case RefuseGroup | RefuseUser => Refuse
    case OrphanGroup | OrphanUser | ReservedPresent => Notice
    case _ => Change
  }

  /** Why an entry is refused; the text of the reason is not modelled. */
  datatype Cause = NoCause | NotManaged | NameOutside | IdDiffers | IdHeld | PrivateGroupTaken | PrivateGidHeld

  datatype Action = Action(
    kind: Kind,
    name: Name,
    id: Id,                       // uid of a user action, gid of a group action
    fullName: string := "",
    groups: seq<Name> := [],
    hasSmb: bool := false,
    home: bool := false,
    dirPerm: nat := 0,
    quota: Bytes := 0,
    readers: seq<Views.Reader> := [],
    cause: Cause := NoCause)

  const PERM_HOME: nat := 448 // 0700

  /** A declared 0 is enforced as 1 byte: for the backend, 0 would mean unlimited. */
  function EnforceBytes(declared: Bytes): Bytes {
    if declared == 0 then 1 else declared
  }

  // --- drift ---

  predicate HomeDrifted(u: User, cur: UserState) {
    u.WantsHome() && cur.home != Some(Dir(PERM_HOME, u.uid, u.uid))
  }

  predicate FolderDrifted(g: Group, cur: GroupState) {
    cur.folder.None? || cur.folder.value.perm != g.anonymous.FolderPerm() || cur.folder.value.gid != g.gid
  }

  /** Sorted clones differ: the same owners in another order are not drift, a duplicate is. */
  predicate AdminsDrifted(g: Group, cur: GroupState) {
    multiset(g.owners) != multiset(cur.admins)
  }

  // --- groups ---

  /** A managed group of another name has this gid. */
  predicate GidHeld(st: State, gid: Id, name: Name) {
    exists n :: n in st.groups && n != name && st.groups[n].gid == gid
  }

  predicate UidHeld(st: State, uid: Id) {
    exists n :: n in st.users && st.users[n].uid == uid
  }

  function GroupAction(g: Group, kind: Kind, cause: Cause := NoCause): Action {
    Action(kind, g.name, g.gid, dirPerm := if kind == CreateGroup then g.anonymous.FolderPerm() else 0, cause := cause)
  }

  function GroupActions(st: State, cls: Classifier): Group -> seq<Action> {
    (g: Group) =>
      if cls.Gid(g.gid) != Managed then [GroupAction(g, RefuseGroup, NotManaged)]
      else if g.name !in st.groups then
        if g.name in st.allGroups then [GroupAction(g, RefuseGroup, NameOutside)]
        else if GidHeld(st, g.gid, g.name) then [GroupAction(g, RefuseGroup, IdHeld)]
        else [GroupAction(g, CreateGroup)]
      else if st.groups[g.name].gid != g.gid then [GroupAction(g, RefuseGroup, IdDiffers)]
      else if FolderDrifted(g, st.groups[g.name]) then [GroupAction(g, CreateGroup)]
      else []
  }

  function OwnerActions(st: State, cls: Classifier): Group -> seq<Action> {
    (g: Group) =>
      if cls.Gid(g.gid) != Managed then []
      else if (if g.name !in st.groups then |g.owners| > 0
               else st.groups[g.name].adminsKnown && AdminsDrifted(g, st.groups[g.name]))
      then [Action(SetGroupAdmins, g.name, g.gid, groups := g.owners)]
      else []
  }

  function GidTable(gs: seq<Group>): map<Name, Id> {
    if gs == [] then map[] else GidTable(gs[..|gs| - 1])[gs[|gs| - 1].name := gs[|gs| - 1].gid]
  }

  /** A group's readers with their gids, by name, without repetition; undeclared names are skipped. */
  ghost function ResolveReaders(names: seq<Name>, gidOf: map<Name, Id>): seq<Views.Reader> {
    var known := SortedNames(set n | n in names && n in gidOf);
    assert forall n :: n in known ==> n in SetOf(known);
    PairUp(known, gidOf)
  }

  function PairUp(names: seq<Name>, gidOf: map<Name, Id>): seq<Views.Reader>
    requires forall n :: n in names ==> n in gidOf
  {
    seq(|names|, i requires 0 <= i < |names| => assert names[i] in names; Views.Reader(names[i], gidOf[names[i]]))
  }

  function NamesOf(rs: seq<Views.Reader>): seq<Name> {
    seq(|rs|, i requires 0 <= i < |rs| => rs[i].name)
  }

  ghost function WantReaders(gs: seq<Group>, gidOf: map<Name, Id>, g: Group): seq<Views.Reader> {
    ResolveReaders(GroupReaders(gs, g), gidOf)
  }

  ghost function ReaderActions(gs: seq<Group>, gidOf: map<Name, Id>, st: State, cls: Classifier): Group -> seq<Action> {
    (g: Group) =>
      var want := WantReaders(gs, gidOf, g);
      if cls.Gid(g.gid) != Managed then []
      else if g.name !in st.groups || !st.groups[g.name].readerViewsKnown then
        if want == [] then [] else [Action(SetGroupReaders, g.name, g.gid, readers := want)]
      else if NamesOf(want) != st.groups[g.name].readerViews then
        [Action(SetGroupReaders, g.name, g.gid, readers := want)]
      else []
  }

  // --- users ---

  /** The groups of one user, in the order of gs: the inversion of the groups' memberships. */
  function JoinedBy(us: seq<User>, user: Name): Group -> seq<Name> {
    (g: Group) => Hits(GroupMembership(us, g), user, g.name)
  }

  function Hits(members: seq<Name>, user: Name, group: Name): seq<Name> {
    if members == [] then []
    else (if members[0] == user then [group] else []) + Hits(members[1..], user, group)
  }

  function UserGroups(gs: seq<Group>, us: seq<User>, user: Name): seq<Name> {
    Flat(JoinedBy(us, user), gs)
  }

  function UserAction(u: User, kind: Kind, cause: Cause := NoCause): Action {
    Action(kind, u.name, u.uid, cause := cause)
  }

  /** The sorted union of the declared groups and the memberships preserved outside the managed range. */
  ghost function MergeGroups(declared: seq<Name>, preserved: set<Name>): seq<Name> {
    SortedNames(SetOf(declared) + preserved)
  }

  /** A create that would land on, or collide with, somebody else's account or group. */
  function CreateRefusal(u: User, st: State): Cause {
    if u.name in st.allUsers then NameOutside
    else if u.name in st.allGroups && st.allGroups[u.name] != u.uid then PrivateGroupTaken
    else if UidHeld(st, u.uid) then IdHeld
    else if GidHeld(st, u.uid, u.name) then PrivateGidHeld
    else NoCause
  }

  ghost function PresentUserActions(u: User, groups: seq<Name>, cur: UserState): seq<Action> {
    (if SetOf(groups) != cur.groups
     then [UserAction(u, UpdateUserGroups).(groups := MergeGroups(groups, cur.extraGroups))] else [])
    + (if HomeDrifted(u, cur) then [UserAction(u, EnsureHome)] else [])
  }

  /** The SMB step of an account that is present: on for active users, off for everyone else. */
  function SmbActions(u: User, st: State): seq<Action> {
    if u.status == Active then
      if u.name !in st.smb then [UserAction(u, AddSmb)]
      else if !st.smb[u.name] then [UserAction(u, EnableUser)] else []
    else if u.name in st.smb && st.smb[u.name] then [UserAction(u, DisableUser)] else []
  }

  function CreateAction(u: User, groups: seq<Name>, st: State): Action {
    Action(if u.status == Active then CreateUser else CreateUserDisabled, u.name, u.uid,
           fullName := u.fullName, groups := groups, hasSmb := u.name in st.smb, home := u.WantsHome())
  }

  ghost function AccountActions(u: User, groups: seq<Name>, st: State, cls: Classifier): seq<Action> {
    var present := u.name in st.users;
    if cls.Uid(u.uid) != Managed then [UserAction(u, RefuseUser, NotManaged)]
    else if present && st.users[u.name].uid != u.uid then [UserAction(u, RefuseUser, IdDiffers)]
    else if !present && u.status != Reserved && CreateRefusal(u, st) != NoCause then
      [UserAction(u, RefuseUser, CreateRefusal(u, st))]
    else if u.status == Reserved then
      if present then [UserAction(u, ReservedPresent)] + SmbActions(u, st) else []
    else if !present then [CreateAction(u, groups, st)]
    else PresentUserActions(u, groups, st.users[u.name]) + SmbActions(u, st)
  }

  function QuotaActions(u: User, st: State): seq<Action> {
    if !st.quotaEnforced || u.status == Reserved then []
    else
      var cur := if u.name in st.users then st.users[u.name].quota else 0;
      match u.quota
      case None => if cur != 0 then [UserAction(u, ClearUserQuota)] else []
      case Some(q) => if cur != EnforceBytes(q) then [UserAction(u, SetUserQuota).(quota := q)] else []
  }

  predicate Refused(acts: seq<Action>) {
    exists a :: a in acts && a.kind == RefuseUser
  }

  ghost function UserActions(gs: seq<Group>, us: seq<User>, st: State, cls: Classifier): User -> seq<Action> {
    (u: User) =>
      var acts := AccountActions(u, UserGroups(gs, us, u.name), st, cls);
      if Refused(acts) then acts else acts + QuotaActions(u, st)
  }

  // --- orphans ---

  function OrphanGroupActions(st: State, cls: Classifier, declared: set<Name>): Name -> seq<Action> {
    n =>
      if n in declared || n !in st.groups || cls.Gid(st.groups[n].gid) != Managed then []
      else [Action(OrphanGroup, n, st.groups[n].gid)]
  }

  function OrphanUserActions(st: State, cls: Classifier, declared: set<Name>): Name -> seq<Action> {
    n =>
      if n in declared || n !in st.users || cls.Uid(st.users[n].uid) != Managed then []
      else [Action(OrphanUser, n, st.users[n].uid)]
           + if ValidName(n) && n in st.smb && st.smb[n]
             then [Action(DisableUser, n, st.users[n].uid)] else []
  }

  // --- the whole plan, in its six parts ---

  ghost function FolderPart(ro: Roster, st: State, cls: Classifier): seq<Action> {
    Flat(GroupActions(st, cls), SortBy(GroupKey, ro.groups))
  }

  ghost function ReaderPart(ro: Roster, st: State, cls: Classifier): seq<Action> {
    Flat(ReaderActions(ro.groups, GidTable(SortBy(GroupKey, ro.groups)), st, cls), SortBy(GroupKey, ro.groups))
  }

  ghost function UserPart(ro: Roster, st: State, cls: Classifier): seq<Action> {
    Flat(UserActions(SortBy(GroupKey, ro.groups), ro.users, st, cls), SortBy(UserKey, ro.users))
  }

  ghost function OwnerPart(ro: Roster, st: State, cls: Classifier): seq<Action> {
    Flat(OwnerActions(st, cls), SortBy(GroupKey, ro.groups))
  }

  ghost function OrphanGroupPart(ro: Roster, st: State, cls: Classifier): seq<Action> {
    Flat(OrphanGroupActions(st, cls, KeysOf(GroupKey, ro.groups)), SortedNames(st.groups.Keys))
  }

  ghost function OrphanUserPart(ro: Roster, st: State, cls: Classifier): seq<Action> {
    Flat(OrphanUserActions(st, cls, KeysOf(UserKey, ro.users)), SortedNames(st.users.Keys))
  }

  /** Folders, then reader views, then users, then administrators, then orphans. */
  ghost function Plan(ro: Roster, st: State, cls: Classifier): seq<Action> {
    FolderPart(ro, st, cls) + ReaderPart(ro, st, cls) + UserPart(ro, st, cls)
    + OwnerPart(ro, st, cls) + OrphanGroupPart(ro, st, cls) + OrphanUserPart(ro, st, cls)
  }
}
