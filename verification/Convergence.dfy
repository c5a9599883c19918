/** Convergence: when one clean run brings the host to its roster, and how many runs suffice always. */
module Convergence {
  import opened Common
  import opened Names
  import opened IdRange
  import opened Roster
  import opened Validation
  import opened System
  import opened Reconcile
  import opened Executor
  import opened Agreement
  import opened Runs
  import opened Phases
  import opened Achieved
  import opened ViewEnds
  import Fits
  import Goals
  import Views

  /** What one round cannot see: a limit on the uid of an account yet to be made, a declared group that
      is its member's primary group, and views that the round's own grants put out of step. */
  ghost predicate NoResidue(env: Env, ro: Roster, base: World) {
    && (forall u :: u in ro.users ==> !QuotaResidue(env, ro, base, u))
    && (forall u :: u in ro.users && u.status != Reserved ==> Goals.PrimaryClear(ro, base, u))
    && (env.host.viewsKnown ==> forall g :: g in ro.groups && !Due(ro, base, g) ==> ViewsKept(ro, base, g))
  }

  // --- groups ---

  lemma ViewsEnd(env: Env, ro: Roster, base: World, faults: nat -> set<nat>, g: Group)
    requires Clean(env, ro, base, faults) && g in ro.groups
    ensures ViewsInSync(env.host, ro, End(env, ro, base, faults), g)
            <==> (env.host.viewsKnown && !Due(ro, base, g) ==> ViewsKept(ro, base, g))
  {
    if !env.host.viewsKnown {
      NoViews(env, ro, base, faults, g);
    } else if Due(ro, base, g) {
      DueObserved(env, ro, base, faults, g);
    } else {
      NotDueObserved(env, ro, base, faults, g);
    }
  }

  lemma GroupEnds(env: Env, ro: Roster, base: World, faults: nat -> set<nat>, g: Group)
    requires Clean(env, ro, base, faults) && g in ro.groups
    ensures GroupInSync(env.host, ro, End(env, ro, base, faults), g)
            <==> (env.host.viewsKnown && !Due(ro, base, g) ==> ViewsKept(ro, base, g))
  {
    FolderEnds(env, ro, base, faults, g);
    if env.host.gshadow { AdminsEnd(env, ro, base, faults, g); }
    ViewsEnd(env, ro, base, faults, g);
  }

  // --- users ---

  lemma ReservedEnds(env: Env, ro: Roster, base: World, faults: nat -> set<nat>, u: User)
    requires Clean(env, ro, base, faults) && u in ro.users && u.status == Reserved
    ensures UserInSync(env.host, ro, env.cls, End(env, ro, base, faults), u)
  {
    EndGrows(env, ro, base, faults);
    UserClear(env, ro, base, u);
    if u.name !in base.users {
      AbsentStays(env, ro, base, faults, u);
    } else if env.cls.Uid(base.users[u.name].uid) == Managed {
      SmbEnds(env, ro, base, faults, u);
    }
  }

  /** All but memberships and the limit of a live user. */
  lemma LiveEnds(env: Env, ro: Roster, base: World, faults: nat -> set<nat>, u: User)
    requires Clean(env, ro, base, faults) && u in ro.users && u.status != Reserved
    ensures var w := End(env, ro, base, faults);
            && u.name in w.users && w.users[u.name].uid == u.uid
            && (u.WantsHome() ==> Find(w.homes, u.name) == Some(Dir(PERM_HOME, u.uid, u.uid)))
            && (SmbOn(w, u.name) <==> u.status == Active)
  {
    UserClear(env, ro, base, u);
    if u.name !in base.users {
      NewUserEnds(env, ro, base, faults, u);
    } else {
      EndGrows(env, ro, base, faults);
      SmbEnds(env, ro, base, faults, u);
      if u.WantsHome() { HomeEnds(env, ro, base, faults, u); }
    }
  }

  /** A membership in a user's own primary group is never reported by a scan, even right after a clean
      run, so what is collected stays unlike what is declared. */
  lemma PrimaryHidden(env: Env, ro: Roster, base: World, faults: nat -> set<nat>, u: User, g: Group)
    requires Clean(env, ro, base, faults) && u in ro.users && u.name in base.users
    requires g in ro.groups && g.name in DeclaredGroups(ro, u.name) && g.gid == base.users[u.name].gid
    ensures g.name !in Memberships(End(env, ro, base, faults), u.name)
    ensures ManagedMemberships(End(env, ro, base, faults), env.cls, u.name) != DeclaredGroups(ro, u.name)
  {
    EndGrows(env, ro, base, faults);
    FolderEnds(env, ro, base, faults, g);
    var w := End(env, ro, base, faults);
    assert g.name !in Memberships(w, u.name);
    assert g.name !in ManagedMemberships(w, env.cls, u.name);
  }

  lemma MembershipsEnd(env: Env, ro: Roster, base: World, faults: nat -> set<nat>, u: User)
    requires Clean(env, ro, base, faults) && u in ro.users && u.status != Reserved
    ensures ManagedMemberships(End(env, ro, base, faults), env.cls, u.name) == DeclaredGroups(ro, u.name)
            <==> Goals.PrimaryClear(ro, base, u)
  {
    UserClear(env, ro, base, u);
    if u.name !in base.users {
      NewUserEnds(env, ro, base, faults, u);
    } else if Goals.PrimaryClear(ro, base, u) {
      JoinedEnds(env, ro, base, faults, u);
    } else {
      var g :| g in ro.groups && g.name in DeclaredGroups(ro, u.name) && g.gid == base.users[u.name].gid;
      PrimaryHidden(env, ro, base, faults, u, g);
    }
  }

  // --- a limit nobody acts on stays ---

  ghost predicate LimitsUid(a: Action, uid: Id) {
    a.kind in {SetUserQuota, ClearUserQuota} && a.id == uid
  }

  lemma ExecKeepsLimit(w: World, c: Call, uid: Id)
    requires Exec(w, c).Some? && (c.OnQuotas? ==> c.quota.uid != uid)
    ensures Find(Exec(w, c).value.quotas, uid) == Find(w.quotas, uid)
  {
    if !c.OnQuotas? { assert Exec(w, c).value.quotas == w.quotas; }
  }

  lemma {:induction false} LimitKept(w: World, cs: seq<Call>, faults: set<nat>, at: nat, uid: Id)
    requires forall c :: c in cs && c.OnQuotas? ==> c.quota.uid != uid
    ensures Find(RunCalls(w, cs, faults, at).w.quotas, uid) == Find(w.quotas, uid)
    decreases |cs|
  {
    if cs != [] {
      assert cs[0] in cs && forall c :: c in cs[1..] ==> c in cs;
      if at in faults {
        LimitKept(w, cs[1..], faults, at + 1, uid);
      } else if Exec(w, cs[0]).Some? {
        ExecKeepsLimit(w, cs[0], uid);
        LimitKept(Exec(w, cs[0]).value, cs[1..], faults, at + 1, uid);
      }
    }
  }

  lemma OneKeepsLimit(env: Env, w: World, a: Action, faults: set<nat>, uid: Id)
    requires !LimitsUid(a, uid)
    ensures Find(One(env, w, a, faults).w.quotas, uid) == Find(w.quotas, uid)
  {
    LimitKept(w, Script(env, w, a), faults, 0, uid);
  }

  lemma {:induction false} LimitStays(env: Env, base: World, acts: seq<Action>, faults: nat -> set<nat>, uid: Id)
    requires forall i :: 0 <= i < |acts| ==> !LimitsUid(acts[i], uid)
    ensures Find(Apply(env, base, acts, faults).w.quotas, uid) == Find(base.quotas, uid)
    decreases |acts|
  {
    if acts != [] {
      var n := |acts| - 1;
      LimitStays(env, base, acts[..n], faults, uid);
      OneKeepsLimit(env, Apply(env, base, acts[..n], faults).w, acts[n], faults(n), uid);
    }
  }

  /** A quota action comes from the one user with that uid. */
  lemma LimitsOwner(env: Env, ro: Roster, base: World, a: Action, u: User)
    requires Ready(ro, env.cls) && u in ro.users && a in PlanOf(env, ro, base) && LimitsUid(a, u.uid)
    ensures a in QuotaActions(u, Collect(env.host, base, env.cls))
  {
    var st := Collect(env.host, base, env.cls);
    QuotaOnly(ro, st, env.cls, a);
    UserPlanned(ro, st, env.cls, a);
    var v :| v in ro.users && a in ActionsFor(ro, st, env.cls)(v);
    QuotaOwner(ro, st, env.cls, v, a);
    assert v == u;
  }

  lemma QuotaOwner(ro: Roster, st: State, cls: Classifier, v: User, a: Action)
    requires a in ActionsFor(ro, st, cls)(v) && a.kind in {SetUserQuota, ClearUserQuota}
    ensures a in QuotaActions(v, st) && a.id == v.uid
  {
    var groups := UserGroups(SortBy(GroupKey, ro.groups), ro.users, v.name);
    if a in AccountActions(v, groups, st, cls) { AccountKinds(v, groups, st, cls, a); }
  }

  lemma QuotaOnly(ro: Roster, st: State, cls: Classifier, a: Action)
    requires a in Plan(ro, st, cls) && a.kind in {SetUserQuota, ClearUserQuota}
    ensures a in UserPart(ro, st, cls)
  {
    Parts(ro, st, cls, a);
    if a in FolderPart(ro, st, cls) {
      FolderPlanned(ro, st, cls, a);
      var g :| g in ro.groups && a in GroupActions(st, cls)(g);
      GroupKinds(st, cls, g, a);
    } else if a in OrphanGroupPart(ro, st, cls) {
      GroupsOnlyNoticed(ro, st, cls, a);
    } else if a !in UserPart(ro, st, cls) {
      LateOnly(ro, st, cls, a);
    }
  }

  lemma LateOnly(ro: Roster, st: State, cls: Classifier, a: Action)
    requires a in ReaderPart(ro, st, cls) || a in OwnerPart(ro, st, cls) || a in OrphanUserPart(ro, st, cls)
    ensures a.kind in {SetGroupReaders, SetGroupAdmins, OrphanUser, DisableUser}
  {
    ReaderPlanned(ro, st, cls, a);
    OwnerPlanned(ro, st, cls, a);
    OrphanPlanned(ro, st, cls, a);
    forall g, n
      ensures a in ReadersFor(ro, st, cls)(g) ==> a.kind == SetGroupReaders
      ensures a in OwnerActions(st, cls)(g) ==> a.kind == SetGroupAdmins
      ensures a in OrphansFor(ro, st, cls)(n) ==> a.kind in {OrphanUser, DisableUser}
    {
      Kinds(ro, st, cls, g, n, a);
    }
  }

  lemma ResidueIgnored(env: Env, ro: Roster, base: World, u: User, a: Action)
    requires Ready(ro, env.cls) && QuotaResidue(env, ro, base, u) && a in PlanOf(env, ro, base)
    ensures !LimitsUid(a, u.uid)
  {
    if LimitsUid(a, u.uid) {
      LimitsOwner(env, ro, base, a, u);
      CollectSees(env, base, u.name);
    }
  }

  lemma ResidueStays(env: Env, ro: Roster, base: World, faults: nat -> set<nat>, u: User)
    requires Clean(env, ro, base, faults) && QuotaResidue(env, ro, base, u)
    ensures QuotaOf(End(env, ro, base, faults), env.host, u.uid) != 0
  {
    var acts := PlanOf(env, ro, base);
    forall i | 0 <= i < |acts| ensures !LimitsUid(acts[i], u.uid) {
      ResidueIgnored(env, ro, base, u, acts[i]);
    }
    LimitStays(env, base, acts, faults, u.uid);
  }

  lemma QuotaEnds(env: Env, ro: Roster, base: World, faults: nat -> set<nat>, u: User)
    requires Clean(env, ro, base, faults) && u in ro.users && u.status != Reserved
    ensures (env.host.quotaEnforced ==> QuotaOf(End(env, ro, base, faults), env.host, u.uid) == DeclaredLimit(u))
            <==> !QuotaResidue(env, ro, base, u)
  {
    if QuotaResidue(env, ro, base, u) {
      ResidueStays(env, ro, base, faults, u);
    } else if env.host.quotaEnforced {
      LimitEnds(env, ro, base, faults, u);
    }
  }

  lemma UserEnds(env: Env, ro: Roster, base: World, faults: nat -> set<nat>, u: User)
    requires Clean(env, ro, base, faults) && u in ro.users
    ensures UserInSync(env.host, ro, env.cls, End(env, ro, base, faults), u)
            <==> !QuotaResidue(env, ro, base, u) && (u.status != Reserved ==> Goals.PrimaryClear(ro, base, u))
  {
    if u.status == Reserved {
      ReservedEnds(env, ro, base, faults, u);
    } else {
      LiveEnds(env, ro, base, faults, u);
      MembershipsEnd(env, ro, base, faults, u);
      QuotaEnds(env, ro, base, faults, u);
    }
  }

  lemma OrphanInSyncEnds(env: Env, ro: Roster, base: World, faults: nat -> set<nat>, n: Name)
    requires Clean(env, ro, base, faults)
    ensures n in End(env, ro, base, faults).users ==> OrphanInSync(ro, env.cls, End(env, ro, base, faults), n)
  {
    EndGrows(env, ro, base, faults);
    if n in base.users && env.cls.Uid(base.users[n].uid) == Managed && ValidName(n)
       && forall u :: u in ro.users ==> u.name != n {
      OrphanEnds(env, ro, base, faults, n);
    }
  }

  // --- SMB after a clean run ---

  /** After a clean run a managed account with a valid name is SMB-enabled exactly if the roster
      declares it active. */
  lemma SmbFollowsRoster(env: Env, ro: Roster, base: World, faults: nat -> set<nat>, n: Name)
    requires Clean(env, ro, base, faults) && ValidName(n)
    requires var w := End(env, ro, base, faults); n in w.users && env.cls.Uid(w.users[n].uid) == Managed
    ensures SmbOn(End(env, ro, base, faults), n) <==> exists u :: u in ro.users && u.name == n && u.status == Active
  {
    if u :| u in ro.users && u.name == n {
      UserEnds(env, ro, base, faults, u);
      if u.status == Reserved { ReservedEnds(env, ro, base, faults, u); } else { LiveEnds(env, ro, base, faults, u); }
      forall v | v in ro.users && v.name == n ensures v == u { Goals.SameUser(ro, env.cls, u, v); }
    } else {
      OrphanInSyncEnds(env, ro, base, faults, n);
    }
  }

  // --- one round ---

  /** An account that a clean run made is a declared, live user's, with its uid, a private group's gid, its
      full name, and a locked unix password. */
  lemma AccountsBorn(env: Env, ro: Roster, base: World, faults: nat -> set<nat>, n: Name)
    requires Clean(env, ro, base, faults)
    requires n in End(env, ro, base, faults).users && n !in base.users
    ensures var w := End(env, ro, base, faults);
            && GidInUse(w.groups, w.users[n].uid)
            && exists u :: && u in ro.users && u.name == n && u.status != Reserved
                           && w.users[n] == System.Account(u.uid, u.uid, u.fullName, true)
  {
    var acts, w := PlanOf(env, ro, base), End(env, ro, base, faults);
    PlanAllFits(env, ro, base);
    InvBefore(env, ro, base, acts, faults, |acts|);
    assert acts[..|acts|] == acts;
    var u :| u in ro.users && Goals.Live(env, base, u, n) && w.users[n].uid == u.uid
      && w.users[n].fullName == u.fullName;
    NewUserEnds(env, ro, base, faults, u);
  }

  /** One clean run brings the host to its roster exactly when it started without residue. */
  lemma OneRound(env: Env, ro: Roster, base: World, faults: nat -> set<nat>)
    requires Clean(env, ro, base, faults)
    ensures InSync(env.host, env.cls, ro, End(env, ro, base, faults)) <==> NoResidue(env, ro, base)
  {
    forall n ensures n in End(env, ro, base, faults).users ==>
                       OrphanInSync(ro, env.cls, End(env, ro, base, faults), n)
    {
      OrphanInSyncEnds(env, ro, base, faults, n);
    }
    forall u | u in ro.users
      ensures UserInSync(env.host, ro, env.cls, End(env, ro, base, faults), u)
              <==> !QuotaResidue(env, ro, base, u) && (u.status != Reserved ==> Goals.PrimaryClear(ro, base, u))
    {
      UserEnds(env, ro, base, faults, u);
    }
    forall g | g in ro.groups
      ensures GroupInSync(env.host, ro, End(env, ro, base, faults), g)
              <==> (env.host.viewsKnown && !Due(ro, base, g) ==> ViewsKept(ro, base, g))
    {
      GroupEnds(env, ro, base, faults, g);
    }
  }
}
