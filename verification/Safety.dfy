/** Safety of a single run: whatever fails, whatever is refused, whichever half of the actions runs. */
module Safety {
  import opened Common
  import opened Names
  import opened IdRange
  import opened Roster
  import opened Validation
  import opened System
  import opened Reconcile
  import opened Executor
  import opened Agreement
  import opened Goals
  import opened Runs
  import opened Phases
  import Fits
  import Views

  /** One run: apply, or apply restricted to the POSIX accounts. */
  ghost function Turn(env: Env, ro: Roster, base: World, faults: nat -> set<nat>): World {
    Apply(env, base, TurnActions(env, ro, base), faults).w
  }

  ghost function TurnActions(env: Env, ro: Roster, base: World): seq<Action> {
    if env.deps.posixOnly then NssOnly(PlanOf(env, ro, base)) else PlanOf(env, ro, base)
  }

  lemma {:induction false} NssOnlyMembers(acts: seq<Action>, a: Action)
    ensures a in NssOnly(acts) <==> a in acts && NssKind(a.kind)
  {
    if acts != [] {
      NssOnlyMembers(acts[1..], a);
      assert acts == [acts[0]] + acts[1..];
    }
  }

  lemma TurnFits(env: Env, ro: Roster, base: World)
    ensures AllFit(env, ro, base, TurnActions(env, ro, base))
  {
    forall a | a in TurnActions(env, ro, base) ensures Fits.ActFits(env, ro, base, a) {
      NssOnlyMembers(PlanOf(env, ro, base), a);
      Fits.PlanFits(env, ro, base, a);
    }
  }

  // --- what every call keeps ---

  /** No two accounts have come to share a uid: any that do already did. */
  ghost predicate NoNewUids(base: map<Name, Account>, users: map<Name, Account>) {
    forall n, m :: n in users && m in users && users[n].uid == users[m].uid && n != m ==> n in base && m in base
  }

  /** No two groups have come to share a gid. */
  ghost predicate NoNewGids(base: map<Name, GroupEntry>, groups: map<Name, GroupEntry>) {
    forall n, m :: n in groups && m in groups && groups[n].gid == groups[m].gid && n != m ==> n in base && m in base
  }

  /** No password that was there has changed, and a new account has the one derived for its name. */
  ghost predicate PasswordsKept(base: map<Name, SmbAccount>, smb: map<Name, SmbAccount>) {
    && base.Keys <= smb.Keys
    && forall n :: n in smb ==> smb[n].password == if n in base then base[n].password else Derived(n)
  }

  ghost predicate Unmanaged(cls: Classifier, base: World, n: Name) {
    n in base.users && cls.Uid(base.users[n].uid) != Managed
  }

  /** The supplementary groups of n that were there from the start list it as they did. */
  ghost predicate Untouched(env: Env, base: World, w: World, n: Name) {
    && n in base.users && n in w.users && w.users[n] == base.users[n]
    && (forall g :: g in w.groups && n in w.groups[g].members <==> g in base.groups && n in base.groups[g].members)
    && Find(w.smb, n) == Find(base.smb, n) && Find(w.homes, n) == Find(base.homes, n)
    && Find(w.quotas, base.users[n].uid) == Find(base.quotas, base.users[n].uid)
  }

  /** Memberships outside the managed range are kept; any gained is of a declared group of the user. */
  ghost predicate ForeignKept(env: Env, ro: Roster, base: World, w: World, n: Name) {
    && ExtraMemberships(base, env.cls, n) <= ExtraMemberships(w, env.cls, n)
    && ExtraMemberships(w, env.cls, n) <= ExtraMemberships(base, env.cls, n) + DeclaredGroups(ro, n)
  }

  /** A group outside the managed range whose name no declared group has. */
  ghost predicate Bystander(cls: Classifier, ro: Roster, base: World, g: Name) {
    g in base.groups && cls.Gid(base.groups[g].gid) != Managed && forall h :: h in ro.groups ==> h.name != g
  }

  /** A membership usermod -G cannot keep: a scan does not report those of names that have no account, nor
      one in the user's own primary group. */
  ghost predicate Unseen(base: World, g: Name, m: Name)
    requires g in base.groups
  {
    m !in base.users || base.users[m].gid == base.groups[g].gid
  }

  /** Such a group keeps its gid and its administrators and gains nobody; it loses at most declared users
      that it lists unseen. */
  ghost predicate BystanderKept(env: Env, ro: Roster, base: World, w: World, g: Name) {
    && g in base.groups && g in w.groups
    && w.groups[g].gid == base.groups[g].gid && w.groups[g].admins == base.groups[g].admins
    && w.groups[g].members <= base.groups[g].members
    && forall m :: m in base.groups[g].members && m !in w.groups[g].members ==>
                     Unseen(base, g, m) && exists u :: u in ro.users && Live(env, base, u, m)
  }

  ghost predicate Safe(env: Env, ro: Roster, base: World, w: World) {
    && Inv(env, ro, base, w)
    && NoNewUids(base.users, w.users) && NoNewGids(base.groups, w.groups)
    && PasswordsKept(base.smb, w.smb)
    && (forall n :: Unmanaged(env.cls, base, n) ==> Untouched(env, base, w, n))
    && (forall n :: n in base.users ==> ForeignKept(env, ro, base, w, n))
    && (forall g :: Bystander(env.cls, ro, base, g) ==> BystanderKept(env, ro, base, w, g))
  }

  lemma SafeStart(env: Env, ro: Roster, base: World)
    ensures Safe(env, ro, base, base)
  {
  }

  lemma GidsStep(base: map<Name, GroupEntry>, groups: map<Name, GroupEntry>, users: set<Name>, c: GroupCall)
    requires ExecGroup(groups, users, c).Some? && NoNewGids(base, groups)
    ensures NoNewGids(base, ExecGroup(groups, users, c).value)
  {
    var next := ExecGroup(groups, users, c).value;
    forall n, m | n in next && m in next && next[n].gid == next[m].gid && n != m ensures n in base && m in base {
      assert n in groups ==> next[n].gid == groups[n].gid;
      assert m in groups ==> next[m].gid == groups[m].gid;
    }
  }

  lemma UidsStep(base: map<Name, Account>, users: map<Name, Account>, groups: map<Name, GroupEntry>, c: UserCall)
    requires ExecUser(users, groups, c).Some? && NoNewUids(base, users)
    ensures NoNewUids(base, ExecUser(users, groups, c).value)
  {
    var next := ExecUser(users, groups, c).value;
    forall n, m | n in next && m in next && next[n].uid == next[m].uid && n != m ensures n in base && m in base {
      assert n in users ==> next[n].uid == users[n].uid;
      assert m in users ==> next[m].uid == users[m].uid;
    }
  }

  lemma UntouchedStep(env: Env, ro: Roster, base: World, w: World, c: Call, n: Name)
    requires CallFits(env, ro, base, c) && Exec(w, c).Some?
    requires Unmanaged(env.cls, base, n) && Untouched(env, base, w, n)
    ensures Untouched(env, base, Exec(w, c).value, n)
  {
    match c
    case OnGroups(g) => UntouchedGroups(env, ro, base, w, g, n);
    case OnUsers(_) =>
    case OnFolders(_) =>
    case OnHomes(_) =>
    case OnSmb(_) =>
    case OnQuotas(_) =>
    case OnViews(_) =>
  }

  lemma UntouchedGroups(env: Env, ro: Roster, base: World, w: World, c: GroupCall, n: Name)
    requires Goals.GroupFits(env, ro, base, c) && ExecGroup(w.groups, w.users.Keys, c).Some?
    requires Unmanaged(env.cls, base, n) && Untouched(env, base, w, n)
    ensures var next := ExecGroup(w.groups, w.users.Keys, c).value;
            forall g :: g in next && n in next[g].members <==> g in base.groups && n in base.groups[g].members
  {
    if c.SetGroups? { assert c.user != n; }
  }

  lemma ForeignStep(env: Env, ro: Roster, base: World, w: World, c: Call, n: Name)
    requires CallFits(env, ro, base, c) && Exec(w, c).Some? && Grows(base, w)
    requires n in base.users && ForeignKept(env, ro, base, w, n)
    ensures ForeignKept(env, ro, base, Exec(w, c).value, n)
  {
    var next := Exec(w, c).value;
    ExecGrows(w, c);
    if c.OnGroups? {
      ForeignGroups(env, ro, base, w, c.group, n);
    } else {
      assert next.groups == w.groups && next.users[n].gid == w.users[n].gid;
    }
  }

  lemma ForeignGroups(env: Env, ro: Roster, base: World, w: World, c: GroupCall, n: Name)
    requires Goals.GroupFits(env, ro, base, c) && ExecGroup(w.groups, w.users.Keys, c).Some? && Grows(base, w)
    requires n in base.users && ForeignKept(env, ro, base, w, n)
    ensures ForeignKept(env, ro, base, w.(groups := ExecGroup(w.groups, w.users.Keys, c).value), n)
  {
    var next := w.(groups := ExecGroup(w.groups, w.users.Keys, c).value);
    GroupCallGrows(w.groups, w.users.Keys, c);
    forall g | g in ExtraMemberships(base, env.cls, n) ensures g in ExtraMemberships(next, env.cls, n) {
      assert g in ExtraMemberships(w, env.cls, n);
      assert next.groups[g].gid == w.groups[g].gid;
    }
    forall g | g in ExtraMemberships(next, env.cls, n)
      ensures g in ExtraMemberships(base, env.cls, n) + DeclaredGroups(ro, n)
    {
    }
  }

  lemma BystanderGroups(env: Env, ro: Roster, base: World, groups: map<Name, GroupEntry>, w: World, c: GroupCall,
                        g: Name)
    requires Goals.GroupFits(env, ro, base, c) && ExecGroup(w.groups, w.users.Keys, c).Some?
    requires Bystander(env.cls, ro, base, g) && BystanderKept(env, ro, base, w, g)
    requires groups == ExecGroup(w.groups, w.users.Keys, c).value
    ensures BystanderKept(env, ro, base, w.(groups := groups), g)
  {
    if c.SetGroups? {
      assert g !in DeclaredGroups(ro, c.user);
      assert c.user in base.users && c.user in base.groups[g].members && !Unseen(base, g, c.user) ==>
               g in ExtraMemberships(base, env.cls, c.user);
    }
  }

  lemma BystanderStep(env: Env, ro: Roster, base: World, w: World, c: Call, g: Name)
    requires CallFits(env, ro, base, c) && Exec(w, c).Some?
    requires Bystander(env.cls, ro, base, g) && BystanderKept(env, ro, base, w, g)
    ensures BystanderKept(env, ro, base, Exec(w, c).value, g)
  {
    if c.OnGroups? {
      BystanderGroups(env, ro, base, Exec(w, c).value.groups, w, c.group, g);
    } else {
      assert Exec(w, c).value.groups == w.groups;
    }
  }

  lemma SafeStep(env: Env, ro: Roster, base: World, w: World, c: Call)
    requires Ready(ro, env.cls) && CallFits(env, ro, base, c) && Exec(w, c).Some? && Safe(env, ro, base, w)
    ensures Safe(env, ro, base, Exec(w, c).value)
  {
    InvStep(env, ro, base, w, c);
    forall n | Unmanaged(env.cls, base, n) ensures Untouched(env, base, Exec(w, c).value, n) {
      UntouchedStep(env, ro, base, w, c, n);
    }
    forall n | n in base.users ensures ForeignKept(env, ro, base, Exec(w, c).value, n) {
      ForeignStep(env, ro, base, w, c, n);
    }
    forall g | Bystander(env.cls, ro, base, g) ensures BystanderKept(env, ro, base, Exec(w, c).value, g) {
      BystanderStep(env, ro, base, w, c, g);
    }
    SafeIds(env, ro, base, w, c);
  }

  lemma SafeIds(env: Env, ro: Roster, base: World, w: World, c: Call)
    requires CallFits(env, ro, base, c) && Exec(w, c).Some?
    ensures NoNewUids(base.users, w.users) ==> NoNewUids(base.users, Exec(w, c).value.users)
    ensures NoNewGids(base.groups, w.groups) ==> NoNewGids(base.groups, Exec(w, c).value.groups)
    ensures PasswordsKept(base.smb, w.smb) ==> PasswordsKept(base.smb, Exec(w, c).value.smb)
  {
    if c.OnGroups? && NoNewGids(base.groups, w.groups) { GidsStep(base.groups, w.groups, w.users.Keys, c.group); }
    if c.OnUsers? && NoNewUids(base.users, w.users) { UidsStep(base.users, w.users, w.groups, c.user); }
  }

  lemma {:induction false} SafeCalls(env: Env, ro: Roster, base: World, w: World, cs: seq<Call>, faults: set<nat>,
                                     at: nat)
    requires Ready(ro, env.cls) && Safe(env, ro, base, w)
    requires forall c :: c in cs ==> CallFits(env, ro, base, c)
    ensures Safe(env, ro, base, RunCalls(w, cs, faults, at).w)
    decreases |cs|
  {
    if cs != [] {
      assert cs[0] in cs && forall c :: c in cs[1..] ==> c in cs;
      if at in faults {
        if Ignored(cs[0]) { SafeCalls(env, ro, base, w, cs[1..], faults, at + 1); }
      } else if Exec(w, cs[0]).Some? {
        SafeStep(env, ro, base, w, cs[0]);
        SafeCalls(env, ro, base, Exec(w, cs[0]).value, cs[1..], faults, at + 1);
      }
    }
  }

  lemma SafeOne(env: Env, ro: Roster, base: World, w: World, a: Action, faults: set<nat>)
    requires Ready(ro, env.cls) && Fits.ActFits(env, ro, base, a) && Safe(env, ro, base, w)
    ensures Safe(env, ro, base, One(env, w, a, faults).w)
  {
    ScriptFits(env, ro, base, w, a);
    SafeCalls(env, ro, base, w, Script(env, w, a), faults, 0);
  }

  lemma {:induction false} SafeRun(env: Env, ro: Roster, base: World, acts: seq<Action>, faults: nat -> set<nat>)
    requires Ready(ro, env.cls) && AllFit(env, ro, base, acts)
    ensures Safe(env, ro, base, Apply(env, base, acts, faults).w)
    decreases |acts|
  {
    if acts == [] {
      SafeStart(env, ro, base);
    } else {
      var n := |acts| - 1;
      assert AllFit(env, ro, base, acts[..n]) && acts[n] in acts;
      SafeRun(env, ro, base, acts[..n], faults);
      SafeOne(env, ro, base, Apply(env, base, acts[..n], faults).w, acts[n], faults(n));
    }
  }

  /** Every run is safe: with refusals or without, whatever calls fail, in either half. */
  lemma TurnSafe(env: Env, ro: Roster, base: World, faults: nat -> set<nat>)
    requires Ready(ro, env.cls)
    ensures Safe(env, ro, base, Turn(env, ro, base, faults))
  {
    TurnFits(env, ro, base);
    SafeRun(env, ro, base, TurnActions(env, ro, base), faults);
  }

  // --- a posix-only run ---

  ghost predicate PosixCall(c: Call) {
    c.OnGroups? || c.OnUsers? || c.OnViews? || c.Unable?
  }

  ghost predicate SameServed(a: World, b: World) {
    a.smb == b.smb && a.homes == b.homes && a.folders == b.folders && a.quotas == b.quotas
  }

  lemma PosixOne(w: World, c: Call)
    requires PosixCall(c) && Exec(w, c).Some?
    ensures SameServed(w, Exec(w, c).value)
  {
  }

  lemma {:induction false} PosixCalls(w: World, cs: seq<Call>, faults: set<nat>, at: nat)
    requires forall c :: c in cs ==> PosixCall(c)
    ensures SameServed(w, RunCalls(w, cs, faults, at).w)
    decreases |cs|
  {
    if cs != [] {
      assert cs[0] in cs && forall c :: c in cs[1..] ==> c in cs;
      if at in faults {
        if Ignored(cs[0]) { PosixCalls(w, cs[1..], faults, at + 1); }
      } else if Exec(w, cs[0]).Some? {
        PosixOne(w, cs[0]);
        PosixCalls(Exec(w, cs[0]).value, cs[1..], faults, at + 1);
      }
    }
  }

  lemma PosixScript(env: Env, w: World, a: Action, c: Call)
    requires env.deps.posixOnly && NssKind(a.kind) && c in Script(env, w, a)
    ensures PosixCall(c)
  {
  }

  lemma {:induction false} PosixRun(env: Env, base: World, acts: seq<Action>, faults: nat -> set<nat>)
    requires env.deps.posixOnly && forall a :: a in acts ==> NssKind(a.kind)
    ensures SameServed(base, Apply(env, base, acts, faults).w)
    decreases |acts|
  {
    if acts != [] {
      var n := |acts| - 1;
      assert forall a :: a in acts[..n] ==> a in acts;
      PosixRun(env, base, acts[..n], faults);
      var w := Apply(env, base, acts[..n], faults).w;
      assert acts[n] in acts;
      forall c | c in Script(env, w, acts[n]) ensures PosixCall(c) { PosixScript(env, w, acts[n], c); }
      PosixCalls(w, Script(env, w, acts[n]), faults(n), 0);
    }
  }

  /** A posix-only run leaves SMB accounts, homes, folders and quotas exactly as they are. */
  lemma PosixOnlySafe(env: Env, ro: Roster, base: World, faults: nat -> set<nat>)
    requires env.deps.posixOnly
    ensures SameServed(base, Turn(env, ro, base, faults))
  {
    var acts := TurnActions(env, ro, base);
    forall a | a in acts ensures NssKind(a.kind) { NssOnlyMembers(PlanOf(env, ro, base), a); }
    PosixRun(env, base, acts, faults);
  }
}
