/** Actions as scripts of backend calls, and their execution (internal/executor/executor.go,
    internal/provider/shadowutils.go, internal/fsops/fsops.go, internal/samba/smbpasswd.go). */
module Executor {
  import opened Common
  import opened Names
  import opened IdRange
  import opened System
  import opened Reconcile
  import Views

  /** posixOnly: run only the account half of each action; seed: initial passwords can be derived. */
  datatype Deps = Deps(posixOnly: bool, seed: bool)

  /** Everything a run depends on besides the roster and the host's state. */
  datatype Env = Env(host: Host, deps: Deps, cls: Classifier)

  // --- backend calls ---

  datatype GroupCall =
    | EnsureGroup(name: Name, gid: Id)                // groupadd, unless the group is there
    | EnsurePrivateGroup(name: Name, gid: Id)         // groupadd, unless the user or the group is there
    | SetGroups(user: Name, groups: set<Name>)        // usermod -G
    | SetAdmins(group: Name, admins: seq<Name>)       // gpasswd -A

  datatype UserCall =
    | EnsureAccount(name: Name, uid: Id, fullName: string) // useradd, unless the user is there
    | LockPassword(name: Name)                        // usermod -L

  datatype FolderCall = MkFolder(name: Name) | ChgrpFolder(name: Name, gid: Id) | ChmodFolder(name: Name, perm: nat)

  datatype HomeCall = MkHome(name: Name) | ChownHome(name: Name, uid: Id) | ChmodHome(name: Name)

  datatype SmbCall = SmbCreate(name: Name, password: Secret) | SmbEnable(name: Name) | SmbDisable(name: Name)

  datatype QuotaCall = QuotaSet(uid: Id, bytes: Bytes) | QuotaClear(uid: Id)

  datatype Call =
    | OnGroups(group: GroupCall) | OnUsers(user: UserCall)
    | OnFolders(folder: FolderCall) | OnHomes(home: HomeCall)
    | OnSmb(smb: SmbCall) | OnQuotas(quota: QuotaCall)
    | OnViews(view: Views.ViewCall)
    | Unable                                          // an error raised before any call

  /** A directory as mkdir leaves it, before its owner and mode are set. */
  const NEW_DIR := Dir(0, 0, 0)

  predicate GidInUse(groups: map<Name, GroupEntry>, gid: Id) {
    exists g :: g in groups && groups[g].gid == gid
  }

  predicate UidInUse(users: map<Name, Account>, uid: Id) {
    exists n :: n in users && users[n].uid == uid
  }

  /** groupadd refuses a name or a gid that is held. */
  function AddGroup(groups: map<Name, GroupEntry>, name: Name, gid: Id): Option<map<Name, GroupEntry>> {
    if name in groups || GidInUse(groups, gid) then None else Some(groups[name := GroupEntry(gid, {}, [])])
  }

  /** usermod -G leaves the user in exactly these groups. */
  function ReplaceMemberships(groups: map<Name, GroupEntry>, user: Name, joined: set<Name>): map<Name, GroupEntry> {
    map g | g in groups ::
      groups[g].(members := if g in joined then groups[g].members + {user} else groups[g].members - {user})
  }

  function ExecGroup(groups: map<Name, GroupEntry>, users: set<Name>, c: GroupCall): Option<map<Name, GroupEntry>> {
    match c
    case EnsureGroup(n, gid) => if n in groups then Some(groups) else AddGroup(groups, n, gid)
    case EnsurePrivateGroup(n, gid) => if n in users || n in groups then Some(groups) else AddGroup(groups, n, gid)
    case SetGroups(u, joined) =>
      if u in users && joined <= groups.Keys then Some(ReplaceMemberships(groups, u, joined)) else None
    case SetAdmins(g, admins) =>
      if g in groups && SetOf(admins) <= users then Some(groups[g := groups[g].(admins := admins)]) else None
  }

  /** useradd refuses a held name or uid, and a primary gid no group has. */
  function ExecUser(users: map<Name, Account>, groups: map<Name, GroupEntry>, c: UserCall): Option<map<Name, Account>> {
    match c
    case EnsureAccount(n, uid, full) =>
      if n in users then Some(users)
      else if UidInUse(users, uid) || !GidInUse(groups, uid) then None
      else Some(users[n := Account(uid, uid, full, false)])
    case LockPassword(n) =>
      if n in users then Some(users[n := users[n].(locked := true)]) else None
  }

  function ExecFolder(folders: map<Name, Dir>, c: FolderCall): Option<map<Name, Dir>> {
    if c.MkFolder? then Some(if c.name in folders then folders else folders[c.name := NEW_DIR])
    else if c.name !in folders then None
    else if c.ChgrpFolder? then Some(folders[c.name := folders[c.name].(gid := c.gid)])
    else Some(folders[c.name := folders[c.name].(perm := c.perm)])
  }

  function ExecHome(homes: map<Name, Dir>, c: HomeCall): Option<map<Name, Dir>> {
    if c.MkHome? then Some(if c.name in homes then homes else homes[c.name := NEW_DIR])
    else if c.name !in homes then None
    else if c.ChownHome? then Some(homes[c.name := homes[c.name].(uid := c.uid, gid := c.uid)])
    else Some(homes[c.name := homes[c.name].(perm := PERM_HOME)])
  }

  /** smbpasswd: -a needs a unix account, and on an SMB account that exists resets its password. */
  function ExecSmb(smb: map<Name, SmbAccount>, users: set<Name>, c: SmbCall): Option<map<Name, SmbAccount>> {
    match c
    case SmbCreate(n, pw) =>
      if n in users then Some(smb[n := SmbAccount(pw, n in smb ==> smb[n].enabled)]) else None
    case SmbEnable(n) => if n in smb then Some(smb[n := smb[n].(enabled := true)]) else None
    case SmbDisable(n) => if n in smb then Some(smb[n := smb[n].(enabled := false)]) else None
  }

  function ExecQuota(quotas: map<Id, Bytes>, c: QuotaCall): map<Id, Bytes> {
    match c
    case QuotaSet(uid, bytes) => quotas[uid := EnforceBytes(bytes)]
    case QuotaClear(uid) => quotas - {uid}
  }

  function Exec(w: World, c: Call): Option<World> {
    match c
    case OnGroups(g) =>
      (match ExecGroup(w.groups, w.users.Keys, g) case None => None case Some(next) => Some(w.(groups := next)))
    case OnUsers(u) =>
      (match ExecUser(w.users, w.groups, u) case None => None case Some(next) => Some(w.(users := next)))
    case OnFolders(f) =>
      (match ExecFolder(w.folders, f) case None => None case Some(next) => Some(w.(folders := next)))
    case OnHomes(h) =>
      (match ExecHome(w.homes, h) case None => None case Some(next) => Some(w.(homes := next)))
    case OnSmb(s) =>
      (match ExecSmb(w.smb, w.users.Keys, s) case None => None case Some(next) => Some(w.(smb := next)))
    case OnQuotas(q) => Some(w.(quotas := ExecQuota(w.quotas, q)))
    case OnViews(v) =>
      (match Views.ExecView(w.ns, w.folders, v) case None => None case Some(next) => Some(w.(ns := next)))
    case Unable => None
  }

  predicate Ignored(c: Call) {
    c.OnViews? && Views.Ignored(c.view)
  }

  datatype Run = Run(w: World, ok: bool)

  /** Run calls in order, stopping at the first that fails. `faults` holds the positions of the calls
      the environment fails, which then have no effect. */
  function RunCalls(w: World, cs: seq<Call>, faults: set<nat>, at: nat): Run
    decreases |cs|
  {
    if cs == [] then Run(w, true)
    else if at in faults then
      if Ignored(cs[0]) then RunCalls(w, cs[1..], faults, at + 1) else Run(w, false)
    else match Exec(w, cs[0])
      case None => Run(w, false)
      case Some(next) => RunCalls(next, cs[1..], faults, at + 1)
  }

  lemma {:induction false} CallsSplit(w: World, a: seq<Call>, b: seq<Call>, faults: set<nat>, at: nat)
    ensures RunCalls(w, a + b, faults, at) ==
              var r := RunCalls(w, a, faults, at);
              if r.ok then RunCalls(r.w, b, faults, at + |a|) else r
    decreases |a|
  {
    if a == [] {
      assert a + b == b;
    } else {
      assert (a + b)[1..] == a[1..] + b && (a + b)[0] == a[0];
      if at in faults {
        CallsSplit(w, a[1..], b, faults, at + 1);
      } else if Exec(w, a[0]).Some? {
        CallsSplit(Exec(w, a[0]).value, a[1..], b, faults, at + 1);
      }
    }
  }

  /** A call takes the world from w to next; one the environment fails does so only if that is ignored. */
  predicate Took(w: World, c: Call, failed: bool, next: World) {
    if failed then Ignored(c) && next == w else Exec(w, c) == Some(next)
  }

  predicate Stopped(w: World, c: Call, failed: bool) {
    if failed then !Ignored(c) else Exec(w, c) == None
  }

  /** Calls run one after another, each on what the one before it left, up to the first that fails: by itself,
      or because the environment fails it and that is not ignored. That one and those after it do nothing. */
  lemma {:induction false} RunTrace(w: World, cs: seq<Call>, faults: set<nat>, at: nat) returns (ws: seq<World>)
    ensures 1 <= |ws| <= |cs| + 1 && ws[0] == w
    ensures forall i :: 0 <= i < |ws| - 1 ==> Took(ws[i], cs[i], at + i in faults, ws[i + 1])
    ensures |ws| <= |cs| ==> Stopped(ws[|ws| - 1], cs[|ws| - 1], at + |ws| - 1 in faults)
    ensures RunCalls(w, cs, faults, at) == Run(ws[|ws| - 1], |ws| == |cs| + 1)
    decreases |cs|
  {
    ws := [w];
    if cs != [] {
      var next := if at in faults then (if Ignored(cs[0]) then Some(w) else None) else Exec(w, cs[0]);
      if next.Some? {
        var rest := RunTrace(next.value, cs[1..], faults, at + 1);
        ws := [w] + rest;
        forall i | 0 <= i < |ws| - 1 ensures Took(ws[i], cs[i], at + i in faults, ws[i + 1]) {
          if i > 0 { assert Took(rest[i - 1], cs[1..][i - 1], at + 1 + (i - 1) in faults, rest[i]); }
        }
      }
    }
  }

  // --- actions ---

  function FolderCalls(name: Name, gid: Id, perm: nat): seq<Call> {
    [OnFolders(MkFolder(name)), OnFolders(ChgrpFolder(name, gid)),
     OnFolders(ChmodFolder(name, if perm == 0 then 1528 else perm))]
  }

  function HomeCalls(name: Name, uid: Id): seq<Call> {
    [OnHomes(MkHome(name)), OnHomes(ChownHome(name, uid)), OnHomes(ChmodHome(name))]
  }

  function RegisterCalls(deps: Deps, name: Name): seq<Call> {
    if deps.seed then [OnSmb(SmbCreate(name, Derived(name)))] else [Unable]
  }

  /** createUser: private group and account, home, memberships, password lock, SMB account. */
  function CreateUserCalls(deps: Deps, a: Action, enable: bool): seq<Call> {
    [OnGroups(EnsurePrivateGroup(a.name, a.id)), OnUsers(EnsureAccount(a.name, a.id, a.fullName))]
    + (if a.home && !deps.posixOnly then HomeCalls(a.name, a.id) else [])
    + [OnGroups(SetGroups(a.name, SetOf(a.groups))), OnUsers(LockPassword(a.name))]
    + if deps.posixOnly then []
      else (if a.hasSmb then [] else RegisterCalls(deps, a.name))
           + [OnSmb(if enable then SmbEnable(a.name) else SmbDisable(a.name))]
  }

  function ViewCalls(cs: seq<Views.ViewCall>): seq<Call> {
    seq(|cs|, i requires 0 <= i < |cs| => OnViews(cs[i]))
  }

  /** Calls that change views alone run as the views' own calls. */
  lemma {:induction false} LiftViews(w: World, cs: seq<Views.ViewCall>, faults: set<nat>, at: nat)
    ensures var r := Views.RunViews(w.ns, w.folders, cs, faults, at);
            RunCalls(w, ViewCalls(cs), faults, at) == Run(w.(ns := r.ns), r.ok)
    decreases |cs|
  {
    if cs != [] {
      assert ViewCalls(cs)[1..] == ViewCalls(cs[1..]);
      if at in faults {
        LiftViews(w, cs[1..], faults, at + 1);
      } else {
        var next := Views.ExecView(w.ns, w.folders, cs[0]);
        if next.Some? { LiftViews(w.(ns := next.value), cs[1..], faults, at + 1); }
      }
    }
  }

  /** The calls one action makes, decided on the state it starts from. */
  ghost function Script(env: Env, w: World, a: Action): seq<Call> {
    match a.kind
    case CreateGroup =>
      [OnGroups(EnsureGroup(a.name, a.id))] + if env.deps.posixOnly then [] else FolderCalls(a.name, a.id, a.dirPerm)
    case CreateUser => CreateUserCalls(env.deps, a, true)
    case CreateUserDisabled => CreateUserCalls(env.deps, a, false)
    case UpdateUserGroups => [OnGroups(SetGroups(a.name, SetOf(a.groups)))]
    case SetGroupReaders =>
      if !env.host.viewsKnown then [Unable]
      else ViewCalls(Views.Plan(w.ns, w.folders, a.name, a.id, a.readers))
    case SetGroupAdmins =>
      if env.host.gshadow then [OnGroups(SetAdmins(a.name, SortBy(Self, a.groups)))] else []
    case EnsureHome => HomeCalls(a.name, a.id)
    case SetUserQuota => if env.host.quotaEnforced then [OnQuotas(QuotaSet(a.id, a.quota))] else [Unable]
    case ClearUserQuota => if env.host.quotaEnforced then [OnQuotas(QuotaClear(a.id))] else [Unable]
    case AddSmb => RegisterCalls(env.deps, a.name) + [OnSmb(SmbEnable(a.name))]
    case EnableUser => [OnSmb(SmbEnable(a.name))]
    case DisableUser => [OnSmb(SmbDisable(a.name))]
    case ReservedPresent | OrphanUser | RefuseUser | RefuseGroup | OrphanGroup => []
  }

  ghost function One(env: Env, w: World, a: Action, faults: set<nat>): Run {
    RunCalls(w, Script(env, w, a), faults, 0)
  }

  /** Every action runs, whatever became of those before it; ok says that none failed. */
  ghost function Apply(env: Env, w: World, acts: seq<Action>, faults: nat -> set<nat>): Run
    decreases |acts|
  {
    if acts == [] then Run(w, true)
    else
      var n := |acts| - 1;
      var before := Apply(env, w, acts[..n], faults);
      var r := One(env, before.w, acts[n], faults(n));
      Run(r.w, before.ok && r.ok)
  }

  /** What Apply reports of each action. */
  ghost function Outcomes(env: Env, w: World, acts: seq<Action>, faults: nat -> set<nat>): seq<bool>
    decreases |acts|
  {
    if acts == [] then []
    else
      var n := |acts| - 1;
      Outcomes(env, w, acts[..n], faults) + [One(env, Apply(env, w, acts[..n], faults).w, acts[n], faults(n)).ok]
  }

  lemma OutcomesStep(env: Env, w: World, acts: seq<Action>, faults: nat -> set<nat>, i: nat)
    requires i < |acts|
    ensures Outcomes(env, w, acts[..i + 1], faults) ==
              Outcomes(env, w, acts[..i], faults)
                + [One(env, Apply(env, w, acts[..i], faults).w, acts[i], faults(i)).ok]
  {
    var b := acts[..i + 1];
    assert b[..|b| - 1] == acts[..i];
  }

  lemma {:induction false} OutcomesLength(env: Env, w: World, acts: seq<Action>, faults: nat -> set<nat>)
    ensures |Outcomes(env, w, acts, faults)| == |acts|
    decreases |acts|
  {
    if acts != [] { OutcomesLength(env, w, acts[..|acts| - 1], faults); }
  }

  lemma {:induction false} OutcomesPrefix(env: Env, w: World, acts: seq<Action>, faults: nat -> set<nat>, n: nat)
    requires n <= |acts|
    ensures Outcomes(env, w, acts[..n], faults) <= Outcomes(env, w, acts, faults)
    decreases |acts| - n
  {
    if n < |acts| {
      OutcomesStep(env, w, acts, faults, n);
      OutcomesPrefix(env, w, acts, faults, n + 1);
    } else {
      assert acts[..n] == acts;
    }
  }

  /** One outcome per action, that of the action run on what those before it left. */
  lemma OutcomesExact(env: Env, w: World, acts: seq<Action>, faults: nat -> set<nat>, i: nat)
    requires i < |acts|
    ensures |Outcomes(env, w, acts, faults)| == |acts|
    ensures Outcomes(env, w, acts, faults)[i] == One(env, Apply(env, w, acts[..i], faults).w, acts[i], faults(i)).ok
  {
    OutcomesLength(env, w, acts, faults);
    OutcomesLength(env, w, acts[..i], faults);
    OutcomesStep(env, w, acts, faults, i);
    OutcomesPrefix(env, w, acts, faults, i + 1);
  }

  /** The world before action i runs. */
  ghost function Before(env: Env, w: World, acts: seq<Action>, faults: nat -> set<nat>, i: nat): World
    requires i <= |acts|
  {
    Apply(env, w, acts[..i], faults).w
  }

  lemma ApplyStep(env: Env, w: World, acts: seq<Action>, faults: nat -> set<nat>, i: nat)
    requires i < |acts|
    ensures var p, n := Apply(env, w, acts[..i], faults), Apply(env, w, acts[..i + 1], faults);
            var r := One(env, p.w, acts[i], faults(i));
            n == Run(r.w, p.ok && r.ok)
  {
    var b := acts[..i + 1];
    assert b[..|b| - 1] == acts[..i];
  }

  lemma {:induction false} ApplyPrefixOk(env: Env, w: World, acts: seq<Action>, faults: nat -> set<nat>, i: nat)
    requires i <= |acts| && Apply(env, w, acts, faults).ok
    ensures Apply(env, w, acts[..i], faults).ok
    decreases |acts|
  {
    if i == |acts| {
      assert acts[..i] == acts;
    } else {
      var n := |acts| - 1;
      ApplyPrefixOk(env, w, acts[..n], faults, i);
      assert acts[..n][..i] == acts[..i];
    }
  }

  lemma {:induction false} OkExact(env: Env, w: World, acts: seq<Action>, faults: nat -> set<nat>)
    ensures Apply(env, w, acts, faults).ok <==> false !in Outcomes(env, w, acts, faults)
    decreases |acts|
  {
    if acts != [] { OkExact(env, w, acts[..|acts| - 1], faults); }
  }

  /** What one action of a run makes of the world, and whether it succeeds. */
  ghost predicate Ran(env: Env, w: World, a: Action, faults: set<nat>, next: World, ok: bool) {
    One(env, w, a, faults) == Run(next, ok)
  }

  /** Every action runs, each on what the one before it left, failed or not; and all is well if each was. */
  lemma ApplyTrace(env: Env, w: World, acts: seq<Action>, faults: nat -> set<nat>) returns (ws: seq<World>)
    ensures |ws| == |acts| + 1 && ws[0] == w && |Outcomes(env, w, acts, faults)| == |acts|
    ensures forall i :: 0 <= i < |acts| ==>
              Ran(env, ws[i], acts[i], faults(i), ws[i + 1], Outcomes(env, w, acts, faults)[i])
    ensures Apply(env, w, acts, faults) == Run(ws[|acts|], false !in Outcomes(env, w, acts, faults))
  {
    ws := seq(|acts| + 1, i requires 0 <= i < |acts| + 1 => Before(env, w, acts, faults, i));
    OutcomesLength(env, w, acts, faults);
    OkExact(env, w, acts, faults);
    assert acts[..0] == [] && acts[..|acts|] == acts;
    forall i | 0 <= i < |acts|
      ensures Ran(env, ws[i], acts[i], faults(i), ws[i + 1], Outcomes(env, w, acts, faults)[i])
    {
      ApplyStep(env, w, acts, faults, i);
      OutcomesExact(env, w, acts, faults, i);
    }
  }

  // --- the actions a run keeps ---

  /** nssOnlyActions: what a run that owns only the POSIX accounts may do. */
  predicate NssKind(k: Kind) {
    match k
    case CreateGroup | SetGroupAdmins | SetGroupReaders | CreateUser | CreateUserDisabled | UpdateUserGroups => true
    case RefuseGroup | OrphanGroup | RefuseUser | OrphanUser | ReservedPresent => true
    case _ => false
  }

  function NssOnly(acts: seq<Action>): seq<Action> {
    if acts == [] then [] else (if NssKind(acts[0].kind) then [acts[0]] else []) + NssOnly(acts[1..])
  }

  /** What such a run leaves out: SMB accounts, homes and limits. */
  lemma {:induction false} LeftOut(acts: seq<Action>, a: Action)
    ensures a in NssOnly(acts) <==>
              && a in acts
              && a.kind !in {AddSmb, EnableUser, DisableUser, EnsureHome, SetUserQuota, ClearUserQuota}
  {
    if acts != [] {
      LeftOut(acts[1..], a);
      assert acts == [acts[0]] + acts[1..];
    }
  }

  /** needsSeed: some action registers a new SMB account. */
  predicate NeedsSeed(acts: seq<Action>) {
    exists a :: a in acts && (a.kind == AddSmb || (a.kind in {CreateUser, CreateUserDisabled} && !a.hasSmb))
  }

  // --- frames ---

  /** Nothing that was there is gone, and no id has changed. */
  ghost predicate Grows(w: World, next: World) {
    && UsersGrow(w.users, next.users) && GroupsGrow(w.groups, next.groups)
    && w.smb.Keys <= next.smb.Keys && w.homes.Keys <= next.homes.Keys && w.folders.Keys <= next.folders.Keys
  }

  ghost predicate GroupsGrow(a: map<Name, GroupEntry>, b: map<Name, GroupEntry>) {
    forall n :: n in a ==> n in b && b[n].gid == a[n].gid
  }

  ghost predicate UsersGrow(a: map<Name, Account>, b: map<Name, Account>) {
    forall n :: n in a ==> n in b && b[n].uid == a[n].uid && b[n].gid == a[n].gid && b[n].fullName == a[n].fullName
  }

  lemma GrowsTransitive(a: World, b: World, c: World)
    requires Grows(a, b) && Grows(b, c)
    ensures Grows(a, c)
  {
  }

  lemma ExecGrows(w: World, c: Call)
    requires Exec(w, c).Some?
    ensures Grows(w, Exec(w, c).value)
  {
    match c
    case OnGroups(g) => GroupCallGrows(w.groups, w.users.Keys, g);
    case OnUsers(u) => UserCallGrows(w.users, w.groups, u);
    case _ =>
  }

  lemma GroupCallGrows(groups: map<Name, GroupEntry>, users: set<Name>, c: GroupCall)
    requires ExecGroup(groups, users, c).Some?
    ensures GroupsGrow(groups, ExecGroup(groups, users, c).value)
  {
  }

  lemma UserCallGrows(users: map<Name, Account>, groups: map<Name, GroupEntry>, c: UserCall)
    requires ExecUser(users, groups, c).Some?
    ensures UsersGrow(users, ExecUser(users, groups, c).value)
  {
  }

  lemma {:induction false} RunCallsGrows(w: World, cs: seq<Call>, faults: set<nat>, at: nat)
    ensures Grows(w, RunCalls(w, cs, faults, at).w)
    decreases |cs|
  {
    if cs != [] {
      if at in faults {
        if Ignored(cs[0]) { RunCallsGrows(w, cs[1..], faults, at + 1); }
      } else if Exec(w, cs[0]).Some? {
        var next := Exec(w, cs[0]).value;
        ExecGrows(w, cs[0]);
        RunCallsGrows(next, cs[1..], faults, at + 1);
      }
    }
  }

  lemma {:induction false} ApplyGrows(env: Env, w: World, acts: seq<Action>, faults: nat -> set<nat>)
    ensures Grows(w, Apply(env, w, acts, faults).w)
    decreases |acts|
  {
    if acts != [] {
      var n := |acts| - 1;
      ApplyGrows(env, w, acts[..n], faults);
      var b := Apply(env, w, acts[..n], faults).w;
      RunCallsGrows(b, Script(env, b, acts[n]), faults(n), 0);
    }
  }
}
