/** The host usersync changes (World), what it collects of it (State, internal/state/state.go),
    and the collection itself (internal/executor/executor.go, Collect). */
module System {
  import opened Common
  import opened Names
  import opened IdRange
  import Views

  // --- the host ---

  /** A passwd entry; `locked` is the unix password lock. */
  datatype Account = Account(uid: Id, gid: Id, fullName: string, locked: bool)

  /** A group and gshadow entry. */
  datatype GroupEntry = GroupEntry(gid: Id, members: set<Name>, admins: seq<Name>)

  /** A password: the one derived for a name from the seed, or one set since. */
  datatype Secret = Derived(user: Name) | Chosen(text: string)

  datatype SmbAccount = SmbAccount(password: Secret, enabled: bool)

  /** Account databases, tdbsam, home and team directories by name, quotas by uid, reader views. */
  datatype World = World(
    users: map<Name, Account>,
    groups: map<Name, GroupEntry>,
    smb: map<Name, SmbAccount>,
    homes: map<Name, Dir>,
    folders: map<Name, Dir>,
    quotas: map<Id, Bytes>,
    ns: Views.Ns)

  /** What the host's backends can answer: gshadow, quota limits, the mount table. */
  datatype Host = Host(gshadow: bool, quotaEnforced: bool, viewsKnown: bool)

  // --- the collected state ---

  datatype UserState = UserState(
    uid: Id, gid: Id, groups: set<Name>, extraGroups: set<Name>, home: Option<Dir>, quota: Bytes)

  datatype GroupState = GroupState(
    gid: Id, folder: Option<Dir>, admins: seq<Name>, adminsKnown: bool,
    readerViews: seq<Name>, readerViewsKnown: bool)

  datatype State = State(
    users: map<Name, UserState>,
    groups: map<Name, GroupState>,
    smb: map<Name, bool>,                  // enabled?
    allUsers: map<Name, Id>,
    allGroups: map<Name, Id>,
    quotaEnforced: bool)

  // --- scanning ---

  /** The supplementary groups a scan reports: those listing the user, less its primary group's gid. */
  function Memberships(w: World, user: Name): set<Name> {
    if user !in w.users then {}
    else set g | g in w.groups && user in w.groups[g].members && w.groups[g].gid != w.users[user].gid
  }

  predicate ManagedGroup(w: World, cls: Classifier, g: Name) {
    g in w.groups && cls.Gid(w.groups[g].gid) == Managed
  }

  function ManagedMemberships(w: World, cls: Classifier, user: Name): set<Name> {
    set g | g in Memberships(w, user) && ManagedGroup(w, cls, g)
  }

  function ExtraMemberships(w: World, cls: Classifier, user: Name): set<Name> {
    set g | g in Memberships(w, user) && !ManagedGroup(w, cls, g)
  }

  function Find<K, V>(m: map<K, V>, k: K): Option<V> {
    if k in m then Some(m[k]) else None
  }

  function QuotaOf(w: World, host: Host, uid: Id): Bytes {
    if host.quotaEnforced && uid in w.quotas then w.quotas[uid] else 0
  }

  function CollectUser(host: Host, w: World, cls: Classifier, n: Name): UserState
    requires n in w.users
  {
    UserState(w.users[n].uid, w.users[n].gid, ManagedMemberships(w, cls, n), ExtraMemberships(w, cls, n),
              Find(w.homes, n), QuotaOf(w, host, w.users[n].uid))
  }

  ghost function CollectGroup(host: Host, w: World, n: Name): GroupState
    requires n in w.groups
  {
    var g := w.groups[n];
    GroupState(g.gid, Find(w.folders, n), if host.gshadow then g.admins else [], host.gshadow,
               if host.viewsKnown then Views.Observed(w.ns, w.folders, n) else [], host.viewsKnown)
  }

  /** The state the reconciler sees: managed users and groups, and every name for collisions. */
  ghost function Collect(host: Host, w: World, cls: Classifier): State {
    State(
      map n | n in w.users && cls.Uid(w.users[n].uid) == Managed :: CollectUser(host, w, cls, n),
      map n | n in w.groups && cls.Gid(w.groups[n].gid) == Managed :: CollectGroup(host, w, n),
      map n | n in w.smb :: w.smb[n].enabled,
      map n | n in w.users :: w.users[n].uid,
      map n | n in w.groups :: w.groups[n].gid,
      host.quotaEnforced)
  }
}
