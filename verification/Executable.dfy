/** Executability: a refusal-free plan runs to the end without an error exactly when four conditions,
    all of them readable off the host and the roster beforehand, hold. */
module Executable {
  import opened Common
  import opened Names
  import opened IdRange
  import opened Roster
  import opened System
  import opened Reconcile
  import opened Executor
  import opened Agreement
  import opened Phases
  import opened ViewEnds
  import Fits
  import Views

  /** The environment fails no call. */
  ghost function NoFaults(): nat -> set<nat> {
    i => {}
  }

  ghost predicate NewUser(ro: Roster, base: World, u: User) {
    u in ro.users && u.status != Reserved && u.name !in base.users
  }

  ghost predicate GroupNamed(ro: Roster, n: Name) {
    exists g :: g in ro.groups && g.name == n
  }

  /** The account's private group is there; or its gid is free and so is its name; or its name is a
      declared group's, and some group the reconciler does not manage has the gid. */
  ghost predicate PrivateGroupFree(ro: Roster, base: World, u: User) {
    u.name in base.groups || (GidInUse(base.groups, u.uid) <==> GroupNamed(ro, u.name))
  }

  ghost predicate ViewsClear(ro: Roster, base: World, g: Group) {
    forall r :: r in Fits.WantedReaders(ro, g) ==> Views.PointClear(base.ns, g.name, g.gid, r)
  }

  /** The name has an account, or a live declared user. */
  ghost predicate OwnerExpected(ro: Roster, base: World, o: Name) {
    o in base.users || exists u :: u in ro.users && u.name == o && u.status != Reserved
  }

  /** The owners of a group whose administrators differ have accounts, or will. */
  ghost predicate OwnersExist(env: Env, ro: Roster, base: World, g: Group) {
    && env.host.gshadow
    && multiset(if g.name in base.groups then base.groups[g.name].admins else []) != multiset(g.owners)
    ==> forall o :: o in g.owners ==> OwnerExpected(ro, base, o)
  }

  ghost predicate ReadersPossible(env: Env, ro: Roster, base: World, g: Group) {
    if env.host.viewsKnown then Due(ro, base, g) ==> ViewsClear(ro, base, g) else DeclaredReaders(ro, g) == {}
  }

  ghost predicate Able(env: Env, ro: Roster, base: World) {
    && (forall u :: NewUser(ro, base, u) ==> PrivateGroupFree(ro, base, u))
    && (NeedsSeed(PlanOf(env, ro, base)) ==> env.deps.seed)
    && (forall g :: g in ro.groups ==> ReadersPossible(env, ro, base, g))
    && (forall g :: g in ro.groups ==> OwnersExist(env, ro, base, g))
  }

  /** A refusal-free run of both halves on a well-formed view namespace. */
  ghost predicate Admitted(env: Env, ro: Roster, base: World) {
    && Ready(ro, env.cls) && Windows(env.cls) && !env.deps.posixOnly
    && Views.Wf(base.ns) && NoRefusal(PlanOf(env, ro, base))
  }

  /** Holders of managed ids are all collected. */
  lemma HeldSeen(env: Env, base: World, id: Id, name: Name)
    ensures env.cls.Gid(id) == Managed && GidInUse(base.groups, id) && name !in base.groups ==>
              GidHeld(Collect(env.host, base, env.cls), id, name)
    ensures env.cls.Uid(id) == Managed && UidInUse(base.users, id) ==> UidHeld(Collect(env.host, base, env.cls), id)
  {
    var st := Collect(env.host, base, env.cls);
    if g :| g in base.groups && base.groups[g].gid == id && env.cls.Gid(id) == Managed {
      assert g in st.groups && st.groups[g].gid == id;
    }
    if n :| n in base.users && base.users[n].uid == id && env.cls.Uid(id) == Managed {
      assert n in st.users && st.users[n].uid == id;
    }
  }
}
