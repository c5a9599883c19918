/** When a plan without refusals, of both halves, goes through: four conditions, each of one entry of the roster. */
module Executability {
  import opened Common
  import opened Names
  import opened IdRange
  import opened Roster
  import opened System
  import opened Reconcile
  import opened Executor
  import opened Agreement
  import opened Goals
  import opened Phases
  import opened ViewEnds
  import opened Executable
  import opened Refusals
  import opened Standing
  import opened Success
  import Convergence
  import Effects
  import Fits
  import Safety
  import Views

  // --- the seed ---

  ghost predicate Derives(a: Action) {
    a.kind == AddSmb || (a.kind in {CreateUser, CreateUserDisabled} && !a.hasSmb)
  }

  lemma DerivesFor(env: Env, ro: Roster, base: World, u: User, a: Action)
    requires Ready(ro, env.cls) && Windows(env.cls) && u in ro.users
    requires a in ActionsFor(ro, Collect(env.host, base, env.cls), env.cls)(u) && Derives(a)
    ensures RegistersNow(base, u) || (Created(base, u) && u.name !in base.smb)
  {
    if a.kind == AddSmb {
      IdleFeasible(env, ro, base, u, a);
    } else if Created(base, u) {
      var rest := CreatedPlan(env, ro, base, u);
      CollectSees(env, base, u.name);
    } else if Reworked(env, ro, base, u) {
      var b, rest := ReworkedPlan(env, ro, base, u);
    } else {
      OtherPlan(env, ro, base, u);
    }
  }

  lemma DerivesSome(env: Env, ro: Roster, base: World, u: User) returns (a: Action)
    requires Ready(ro, env.cls) && Windows(env.cls) && u in ro.users
    requires RegistersNow(base, u) || (Created(base, u) && u.name !in base.smb)
    ensures a in ActionsFor(ro, Collect(env.host, base, env.cls), env.cls)(u) && Derives(a)
  {
    if RegistersNow(base, u) {
      RegistersPlanned(env, ro, base, u);
      a := UserAction(u, AddSmb);
    } else {
      var rest := CreatedPlan(env, ro, base, u);
      CollectSees(env, base, u.name);
      a := CreateAction(u, GroupsOf(env, ro, u), Collect(env.host, base, env.cls));
    }
  }

  lemma OthersDerive(env: Env, ro: Roster, base: World, a: Action)
    requires Derives(a) && a in PlanOf(env, ro, base)
    ensures a in UserPart(ro, Collect(env.host, base, env.cls), env.cls)
  {
    var st := Collect(env.host, base, env.cls);
    Parts(ro, st, env.cls, a);
    FolderPlanned(ro, st, env.cls, a);
    if g :| g in ro.groups && a in GroupActions(st, env.cls)(g) { GroupKinds(st, env.cls, g, a); }
    if a in ReaderPart(ro, st, env.cls) || a in OwnerPart(ro, st, env.cls) || a in OrphanUserPart(ro, st, env.cls) {
      Convergence.LateOnly(ro, st, env.cls, a);
    }
    if a in OrphanGroupPart(ro, st, env.cls) { GroupsOnlyNoticed(ro, st, env.cls, a); }
  }

  lemma DerivesWho(env: Env, ro: Roster, base: World, a: Action) returns (u: User)
    requires Ready(ro, env.cls) && Windows(env.cls) && a in PlanOf(env, ro, base) && Derives(a)
    ensures u in ro.users && (RegistersNow(base, u) || (Created(base, u) && u.name !in base.smb))
  {
    var st := Collect(env.host, base, env.cls);
    OthersDerive(env, ro, base, a);
    UserPlanned(ro, st, env.cls, a);
    u :| u in ro.users && a in ActionsFor(ro, st, env.cls)(u);
    DerivesFor(env, ro, base, u, a);
  }

  /** A plan needs the seed exactly if some user is to be registered. */
  lemma SeedExactly(env: Env, ro: Roster, base: World)
    requires Ready(ro, env.cls) && Windows(env.cls)
    ensures NeedsSeed(PlanOf(env, ro, base)) <==>
              exists u :: u in ro.users && (RegistersNow(base, u) || (Created(base, u) && u.name !in base.smb))
  {
    if a :| a in PlanOf(env, ro, base) && Derives(a) { var u := DerivesWho(env, ro, base, a); }
    if u :| u in ro.users && (RegistersNow(base, u) || (Created(base, u) && u.name !in base.smb)) {
      var a := DerivesSome(env, ro, base, u);
      UserPlanned(ro, Collect(env.host, base, env.cls), env.cls, a);
      Parts(ro, Collect(env.host, base, env.cls), env.cls, a);
    }
    SeedFor(PlanOf(env, ro, base));
  }

  lemma SeedFor(acts: seq<Action>)
    ensures NeedsSeed(acts) <==> exists a :: a in acts && Derives(a)
  {
  }

  // --- where nothing is refused ---

  lemma NothingRefused(env: Env, ro: Roster, base: World)
    requires Admitted(env, ro, base)
    ensures forall g :: g in ro.groups ==> !GroupRefused(base, g)
    ensures forall u :: u in ro.users ==> !UserRefused(env, base, u)
    ensures forall g :: g in ro.groups ==> g.name in base.groups || Made(ro, base, g.name)
  {
    RefusalFree(env, ro, base);
    forall g | g in ro.groups && g.name !in base.groups ensures Made(ro, base, g.name) {
      assert !GroupRefused(base, g) && MadeBy(base, g, g.name);
    }
  }

  lemma AllAvailable(env: Env, ro: Roster, base: World, u: User)
    requires Admitted(env, ro, base)
    ensures forall g :: g in DeclaredGroups(ro, u.name) ==> Available(ro, base, u, g)
  {
    NothingRefused(env, ro, base);
  }

  lemma UserServedThen(env: Env, ro: Roster, base: World, u: User)
    requires Admitted(env, ro, base) && u in ro.users
    ensures UserServed(env, ro, base, u) <==> (NewUser(ro, base, u) ==> PrivateGroupFree(ro, base, u))
    ensures NewUser(ro, base, u) ==> (BornHere(ro, base, u) <==> PrivateGroupFree(ro, base, u))
  {
    NothingRefused(env, ro, base);
    AllAvailable(env, ro, base, u);
    if NewUser(ro, base, u) {
      assert !UserRefused(env, base, u) && Created(base, u);
      assert u.name !in base.groups ==> (Made(ro, base, u.name) <==> GroupNamed(ro, u.name));
    }
  }

  lemma ReadersThen(env: Env, ro: Roster, base: World, g: Group)
    requires Admitted(env, ro, base) && g in ro.groups
    ensures ReadersSettable(env, ro, base, g) <==> ReadersPossible(env, ro, base, g)
  {
    NothingRefused(env, ro, base);
    assert !GroupRefused(base, g);
    forall r
      ensures Views.PointReady(base.ns, FolderMap(env, base, g), g.name, g.gid, r)
              <==> Views.PointClear(base.ns, g.name, g.gid, r)
    {
      Views.ReadyIsClear(base.ns, FolderMap(env, base, g), g.name, g.gid, r);
    }
  }

  lemma OwnersThen(env: Env, ro: Roster, base: World, g: Group)
    requires Admitted(env, ro, base) && g in ro.groups
    requires forall u :: u in ro.users ==> UserServed(env, ro, base, u)
    ensures OwnersSettable(env, ro, base, g) <==> OwnersExist(env, ro, base, g)
  {
    NothingRefused(env, ro, base);
    assert !GroupRefused(base, g);
    NoOwners(g.owners);
    forall o ensures o in base.users || BornIn(ro, base, ro.users, o) <==> OwnerExpected(ro, base, o) {
      if u :| u in ro.users && u.name == o && u.status != Reserved { UserServedThen(env, ro, base, u); }
    }
  }

  lemma NoOwners(owners: seq<Name>)
    ensures multiset([]) != multiset(owners) <==> owners != []
  {
    if owners != [] { assert owners[0] in multiset(owners); }
  }

  lemma UsersThen(env: Env, ro: Roster, base: World)
    requires Admitted(env, ro, base)
    ensures (forall u :: u in ro.users ==> UserServed(env, ro, base, u))
            <==> forall u :: NewUser(ro, base, u) ==> PrivateGroupFree(ro, base, u)
  {
    forall u | u in ro.users
      ensures UserServed(env, ro, base, u) <==> (NewUser(ro, base, u) ==> PrivateGroupFree(ro, base, u))
    {
      UserServedThen(env, ro, base, u);
    }
  }

  lemma AllReadersThen(env: Env, ro: Roster, base: World)
    requires Admitted(env, ro, base)
    ensures (forall g :: g in ro.groups ==> ReadersSettable(env, ro, base, g))
            <==> forall g :: g in ro.groups ==> ReadersPossible(env, ro, base, g)
  {
    forall g | g in ro.groups ensures ReadersSettable(env, ro, base, g) <==> ReadersPossible(env, ro, base, g) {
      ReadersThen(env, ro, base, g);
    }
  }

  lemma AllOwnersThen(env: Env, ro: Roster, base: World)
    requires Admitted(env, ro, base) && forall u :: u in ro.users ==> UserServed(env, ro, base, u)
    ensures (forall g :: g in ro.groups ==> OwnersSettable(env, ro, base, g))
            <==> forall g :: g in ro.groups ==> OwnersExist(env, ro, base, g)
  {
    forall g | g in ro.groups ensures OwnersSettable(env, ro, base, g) <==> OwnersExist(env, ro, base, g) {
      OwnersThen(env, ro, base, g);
    }
  }

  lemma SeededThen(env: Env, ro: Roster, base: World)
    requires Admitted(env, ro, base)
    ensures Seeded(env, ro, base) <==> (NeedsSeed(PlanOf(env, ro, base)) ==> env.deps.seed)
  {
    SeedExactly(env, ro, base);
  }

  lemma SucceedsIfAble(env: Env, ro: Roster, base: World)
    requires Admitted(env, ro, base)
    ensures Succeeds(env, ro, base) <==> Able(env, ro, base)
  {
    SeededThen(env, ro, base);
    UsersThen(env, ro, base);
    AllReadersThen(env, ro, base);
    if forall u :: u in ro.users ==> UserServed(env, ro, base, u) { AllOwnersThen(env, ro, base); }
  }

  /** A plan that refuses nothing, run to the end without faults, reports no error exactly if the four
      conditions hold. */
  lemma PlanExecutable(env: Env, ro: Roster, base: World)
    requires Admitted(env, ro, base)
    ensures Apply(env, base, PlanOf(env, ro, base), NoFaults()).ok <==> Able(env, ro, base)
  {
    SucceedsExactly(env, ro, base);
    SucceedsIfAble(env, ro, base);
  }
}
