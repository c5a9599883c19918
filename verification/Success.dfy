/** Exactly when a run in which no call is failed from outside reports no error: of either half, with refusals
    or without, read off the host and the roster. */
module Success {
  import opened Common
  import opened Names
  import opened IdRange
  import opened Roster
  import opened System
  import opened Reconcile
  import opened Executor
  import opened Agreement
  import opened Goals
  import opened Phases
  import opened ViewEnds
  import opened Calls
  import opened Safety
  import opened Executable
  import opened Refusals
  import opened Effects
  import opened Standing
  import Fits
  import ViewRounds
  import Views

  // --- read off the host and the roster ---

  /** The gid of the group's folder once the first part has run; none where there is no folder. */
  ghost function FolderThen(env: Env, base: World, g: Group): Option<Id> {
    if !env.deps.posixOnly && !GroupRefused(base, g) then Some(g.gid)
    else if g.name in base.folders then Some(base.folders[g.name].gid) else None
  }

  ghost function FolderMap(env: Env, base: World, g: Group): map<Name, Dir> {
    match FolderThen(env, base, g)
    case None => map[]
    case Some(gid) => map[g.name := Dir(0, 0, gid)]
  }

  /** The reader views of g are to be set. */
  ghost predicate ReadersPlanned(env: Env, ro: Roster, base: World, g: Group) {
    if g.name in base.groups && env.cls.Gid(base.groups[g.name].gid) == Managed && env.host.viewsKnown
    then Views.Observed(base.ns, base.folders, g.name) != SortedNames(DeclaredReaders(ro, g))
    else DeclaredReaders(ro, g) != {}
  }

  /** And can be: the mount table is known, and the point of each declared reader is ready. */
  ghost predicate ReadersSettable(env: Env, ro: Roster, base: World, g: Group) {
    ReadersPlanned(env, ro, base, g) ==>
      && env.host.viewsKnown
      && forall r :: r in Fits.WantedReaders(ro, g) ==>
                       Views.PointReady(base.ns, FolderMap(env, base, g), g.name, g.gid, r)
  }

  /** The account can be made if it is to be, and the groups it is to join are there by then. */
  ghost predicate UserServed(env: Env, ro: Roster, base: World, u: User) {
    Created(base, u) || Reworked(env, ro, base, u) ==> Rejoined(env, ro, base, u)
  }

  ghost predicate OwnersPlanned(env: Env, base: World, h: Group) {
    env.host.gshadow
    && if h.name in base.groups && env.cls.Gid(base.groups[h.name].gid) == Managed
       then multiset(h.owners) != multiset(base.groups[h.name].admins) else h.owners != []
  }

  /** The group is there by then, and so is every owner's account. */
  ghost predicate OwnersSettable(env: Env, ro: Roster, base: World, h: Group) {
    OwnersPlanned(env, base, h) ==>
      && (h.name in base.groups || Made(ro, base, h.name) || BornIn(ro, base, ro.users, h.name))
      && forall o :: o in h.owners ==> o in base.users || BornIn(ro, base, ro.users, o)
  }

  /** An account yet without SMB is to be given it. */
  ghost predicate RegistersNow(base: World, u: User) {
    u.status == Active && u.name in base.users && base.users[u.name].uid == u.uid && u.name !in base.smb
  }

  /** A password that is to be derived can be. */
  ghost predicate Seeded(env: Env, ro: Roster, base: World) {
    env.deps.posixOnly || env.deps.seed
    || forall u :: u in ro.users ==> !RegistersNow(base, u) && !(Created(base, u) && u.name !in base.smb)
  }

  ghost predicate Succeeds(env: Env, ro: Roster, base: World) {
    && Seeded(env, ro, base)
    && (forall g :: g in ro.groups ==> ReadersSettable(env, ro, base, g))
    && (forall u :: u in ro.users ==> UserServed(env, ro, base, u))
    && (forall g :: g in ro.groups ==> OwnersSettable(env, ro, base, g))
  }

  // --- the part of a plan a run keeps, without an error ---

  ghost predicate Ok(env: Env, w: World, acts: seq<Action>) {
    Apply(env, w, Kept(env, acts), NoFaults()).ok
  }

  lemma {:induction false} ApplyOkConcat(env: Env, w: World, a: seq<Action>, b: seq<Action>)
    ensures Apply(env, w, a + b, NoFaults()).ok <==>
              Apply(env, w, a, NoFaults()).ok && Apply(env, Apply(env, w, a, NoFaults()).w, b, NoFaults()).ok
    decreases |b|
  {
    if b == [] {
      assert a + b == a;
    } else {
      var n := |b| - 1;
      ApplyOkConcat(env, w, a, b[..n]);
      ApplyConcat(env, w, a, b[..n]);
      assert (a + b)[..|a + b| - 1] == a + b[..n];
    }
  }

  lemma OkConcat(env: Env, w: World, a: seq<Action>, b: seq<Action>)
    ensures Ok(env, w, a + b) <==> Ok(env, w, a) && Ok(env, Does(env, w, a), b)
  {
    NssOnlyConcat(a, b);
    ApplyOkConcat(env, w, Kept(env, a), Kept(env, b));
  }

  lemma OkOne(env: Env, w: World, a: Action)
    requires NssKind(a.kind)
    ensures Ok(env, w, [a]) <==> One(env, w, a, {}).ok
  {
    var acts, n := [a], 0;
    assert NssOnly(acts) == [a] + NssOnly(acts[1..]) && acts[1..] == [];
    assert Kept(env, acts) == acts && acts[..n] == [];
    assert Apply(env, w, acts[..n], NoFaults()) == Run(w, true);
    assert Ok(env, w, [a]) == One(env, w, acts[n], NoFaults()(n)).ok;
  }

  lemma OkNothing(env: Env, w: World)
    ensures Ok(env, w, [])
  {
  }

  lemma OkNext<T>(env: Env, base: World, f: T -> seq<Action>, q: seq<T>, i: nat)
    requires i < |q|
    ensures Ok(env, base, Flat(f, q[..i + 1])) <==>
              Ok(env, base, Flat(f, q[..i])) && Ok(env, Does(env, base, Flat(f, q[..i])), f(q[i]))
  {
    FlatStep(f, q, i);
    OkConcat(env, base, Flat(f, q[..i]), f(q[i]));
  }

  /** The i-th entry's actions succeed in the world they run in. */
  ghost predicate StepOk<T>(env: Env, base: World, f: T -> seq<Action>, q: seq<T>, i: nat)
    requires i < |q|
  {
    Ok(env, Does(env, base, Flat(f, q[..i])), f(q[i]))
  }

  lemma {:induction false} EachOk<T>(env: Env, base: World, f: T -> seq<Action>, q: seq<T>, k: nat, i: nat)
    requires i < k <= |q| && Ok(env, base, Flat(f, q[..k]))
    ensures StepOk(env, base, f, q, i)
    decreases k
  {
    OkNext(env, base, f, q, k - 1);
    if i < k - 1 { EachOk(env, base, f, q, k - 1, i); }
  }

  lemma {:induction false} SomeFails<T>(env: Env, base: World, f: T -> seq<Action>, q: seq<T>, k: nat) returns (i: nat)
    requires k <= |q| && !Ok(env, base, Flat(f, q[..k]))
    ensures i < k && !StepOk(env, base, f, q, i)
    decreases k
  {
    if k == 0 {
      OkNothing(env, base);
      assert false;
    } else {
      OkNext(env, base, f, q, k - 1);
      if Ok(env, base, Flat(f, q[..k - 1])) {
        i := k - 1;
      } else {
        i := SomeFails(env, base, f, q, k - 1);
      }
    }
  }

  lemma OkParts<T>(env: Env, base: World, f: T -> seq<Action>, q: seq<T>, good: nat -> bool)
    requires forall i: nat :: i < |q| ==> (StepOk(env, base, f, q, i) <==> good(i))
    ensures Ok(env, base, Flat(f, q)) <==> forall i: nat :: i < |q| ==> good(i)
  {
    assert q[..|q|] == q;
    if Ok(env, base, Flat(f, q)) {
      forall i: nat | i < |q| ensures good(i) { EachOk(env, base, f, q, |q|, i); }
    } else {
      var i := SomeFails(env, base, f, q, |q|);
    }
  }

  lemma StepOkIs<T>(env: Env, base: World, f: T -> seq<Action>, q: seq<T>, p: (nat, World) -> bool, fine: T -> bool,
                    i: nat)
    requires i < |q| && p(0, base)
    requires forall j: nat, w :: j < |q| && p(j, w) ==> p(j + 1, Does(env, w, f(q[j])))
    requires forall w :: p(i, w) ==> (Ok(env, w, f(q[i])) <==> fine(q[i]))
    ensures StepOk(env, base, f, q, i) <==> fine(q[i])
  {
    Turns(env, base, f, q, i, p);
  }

  lemma EachOnce<T(!new)>(q: seq<T>, s: seq<T>, fine: T -> bool, good: nat -> bool)
    requires forall x :: x in q <==> x in s
    requires forall i: nat :: i < |q| ==> (good(i) <==> fine(q[i]))
    ensures (forall i: nat :: i < |q| ==> good(i)) <==> forall x :: x in s ==> fine(x)
  {
    if forall i: nat :: i < |q| ==> good(i) {
      forall x | x in s ensures fine(x) {
        assert x in q;
        var i: nat :| i < |q| && q[i] == x;
        assert good(i);
      }
    }
    forall i: nat | i < |q| ensures q[i] in s { assert q[i] in q; }
  }

  lemma OkOnce<T(!new)>(env: Env, base: World, f: T -> seq<Action>, q: seq<T>, s: seq<T>, fine: T -> bool,
                        good: nat -> bool)
    requires forall x :: x in q <==> x in s
    requires forall i: nat :: i < |q| ==> (StepOk(env, base, f, q, i) <==> good(i))
    requires forall i: nat :: i < |q| ==> (good(i) <==> fine(q[i]))
    ensures Ok(env, base, Flat(f, q)) <==> forall x :: x in s ==> fine(x)
  {
    OkParts(env, base, f, q, good);
    EachOnce(q, s, fine, good);
  }

  /** A part, in whatever order its list is sorted, succeeds exactly if each entry's actions do, on what holds
      by then. */
  lemma OkEach<T(!new)>(env: Env, base: World, f: T -> seq<Action>, q: seq<T>, s: seq<T>, p: (nat, World) -> bool,
                        fine: T -> bool)
    requires p(0, base) && forall x :: x in q <==> x in s
    requires forall i: nat, w :: i < |q| && p(i, w) ==> p(i + 1, Does(env, w, f(q[i])))
    requires forall i: nat, w :: i < |q| && p(i, w) ==> (Ok(env, w, f(q[i])) <==> fine(q[i]))
    ensures Ok(env, base, Flat(f, q)) <==> forall x :: x in s ==> fine(x)
  {
    forall i: nat | i < |q| ensures StepOk(env, base, f, q, i) <==> fine(q[i]) {
      StepOkIs(env, base, f, q, p, fine, i);
    }
    OkOnce(env, base, f, q, s, fine, (i: nat) => i < |q| && fine(q[i]));
  }

  // --- actions that fail only for want of a seed ---

  ghost predicate Feasible(env: Env, base: World, a: Action) {
    match a.kind
    case AddSmb => a.name in base.users
    case EnableUser | DisableUser => a.name in base.smb
    case SetUserQuota | ClearUserQuota => env.host.quotaEnforced
    case EnsureHome | RefuseGroup | RefuseUser | OrphanGroup | OrphanUser | ReservedPresent => true
    case _ => false
  }

  lemma FeasibleOk(env: Env, base: World, w: World, a: Action)
    requires Grows(base, w) && Feasible(env, base, a)
    ensures One(env, w, a, {}).ok <==> (a.kind == AddSmb ==> env.deps.seed)
  {
    match a.kind
    case AddSmb => AddSmbOk(env, w, a);
    case EnableUser => SimpleOk(env, w, a);
    case DisableUser => SimpleOk(env, w, a);
    case SetUserQuota => SimpleOk(env, w, a);
    case ClearUserQuota => SimpleOk(env, w, a);
    case EnsureHome => SimpleOk(env, w, a);
    case _ =>
  }

  lemma {:induction false} FeasibleApply(env: Env, base: World, w: World, acts: seq<Action>)
    requires Grows(base, w) && forall a :: a in acts ==> Feasible(env, base, a)
    ensures Apply(env, w, acts, NoFaults()).ok <==> env.deps.seed || forall a :: a in acts ==> a.kind != AddSmb
    decreases |acts|
  {
    if acts != [] {
      var n := |acts| - 1;
      assert acts == acts[..n] + [acts[n]];
      FeasibleApply(env, base, w, acts[..n]);
      ApplyGrows(env, w, acts[..n], NoFaults());
      var v := Apply(env, w, acts[..n], NoFaults()).w;
      GrowsTransitive(base, w, v);
      FeasibleOk(env, base, v, acts[n]);
    }
  }

  /** Kept, they succeed unless a seed is wanted. */
  lemma FeasibleKept(env: Env, base: World, w: World, acts: seq<Action>)
    requires Grows(base, w) && forall a :: a in acts ==> Feasible(env, base, a)
    ensures Ok(env, w, acts) <==>
              env.deps.posixOnly || env.deps.seed || forall a :: a in acts ==> a.kind != AddSmb
  {
    forall a ensures a in Kept(env, acts) <==> a in acts && (env.deps.posixOnly ==> NssKind(a.kind)) {
      NssOnlyMembers(acts, a);
    }
    FeasibleApply(env, base, w, Kept(env, acts));
  }

  // --- the first part: groups and folders ---

  /** What the first part plans for a declared group: its creation, unless it is refused or is all there. */
  lemma GroupOutcome(env: Env, base: World, h: Group)
    requires env.cls.Gid(h.gid) == Managed
    ensures var acts := GroupActions(Collect(env.host, base, env.cls), env.cls)(h);
            || (acts == [GroupAction(h, CreateGroup)] && !GroupRefused(base, h))
            || (|acts| == 1 && acts[0].kind == RefuseGroup && GroupRefused(base, h))
            || (acts == [] && !GroupRefused(base, h) && h.name in base.folders && base.folders[h.name].gid == h.gid)
  {
    var st := Collect(env.host, base, env.cls);
    var acts := GroupActions(st, env.cls)(h);
    GroupTurnedDown(env, base, h);
    CollectSees(env, base, h.name);
    if h.name in st.groups { assert st.groups[h.name] == CollectGroup(env.host, base, h.name); }
    assert |acts| <= 1 && (acts != [] ==> acts[0] in acts);
  }

  lemma FolderCallsDo(w: World, name: Name, gid: Id, perm: nat, at: nat)
    ensures var r := RunCalls(w, FolderCalls(name, gid, perm), {}, at);
            && r.ok && r.w.ns == w.ns && name in r.w.folders && r.w.folders[name].gid == gid
            && forall n :: n != name ==> Find(r.w.folders, n) == Find(w.folders, n)
  {
    var cs := FolderCalls(name, gid, perm);
    var w1 := Exec(w, cs[0]).value;
    var w2 := Exec(w1, cs[1]).value;
    assert cs == [cs[0]] + ([cs[1]] + [cs[2]]);
    CallsSplit(w, [cs[0]], [cs[1]] + [cs[2]], {}, at);
    CallsSplit(w1, [cs[1]], [cs[2]], {}, at + 1);
    OneCall(w, cs[0], at);
    OneCall(w1, cs[1], at + 1);
    OneCall(w2, cs[2], at + 2);
  }

  lemma CreateGroupFolder(env: Env, w: World, a: Action)
    requires a.kind == CreateGroup && (a.name in w.groups || !GidInUse(w.groups, a.id))
    ensures var r := One(env, w, a, {});
            && r.ok && r.w.ns == w.ns
            && (if env.deps.posixOnly then r.w.folders == w.folders
                else a.name in r.w.folders && r.w.folders[a.name].gid == a.id)
            && forall n :: n != a.name ==> Find(r.w.folders, n) == Find(w.folders, n)
  {
    var c := OnGroups(EnsureGroup(a.name, a.id));
    var rest := if env.deps.posixOnly then [] else FolderCalls(a.name, a.id, a.dirPerm);
    CallsSplit(w, [c], rest, {}, 0);
    OneCall(w, c, 0);
    if !env.deps.posixOnly { FolderCallsDo(Exec(w, c).value, a.name, a.id, a.dirPerm, 1); }
  }

  ghost predicate FolderIs(w: World, g: Group, gid: Option<Id>) {
    (if g.name in w.folders then Some(w.folders[g.name].gid) else None) == gid
  }

  /** The folders of the groups that had their turn; those of the others as they were. */
  ghost predicate FoldersAt(env: Env, ro: Roster, base: World, hs: seq<Group>, w: World) {
    && w.ns == base.ns
    && (forall g :: g in hs ==> FolderIs(w, g, FolderThen(env, base, g)))
    && forall g :: g in ro.groups && g !in hs ==> Find(w.folders, g.name) == Find(base.folders, g.name)
  }

  /** One group's turn, which never fails. */
  ghost predicate FolderDone(env: Env, base: World, w: World, h: Group, next: World) {
    && next.ns == w.ns && FolderIs(next, h, FolderThen(env, base, h))
    && forall n :: n != h.name ==> Find(next.folders, n) == Find(w.folders, n)
  }

  lemma FolderTurn(env: Env, base: World, w: World, h: Group)
    requires env.cls.Gid(h.gid) == Managed && Find(w.folders, h.name) == Find(base.folders, h.name)
    requires !GroupRefused(base, h) ==> h.name in w.groups || !GidInUse(w.groups, h.gid)
    ensures var acts := GroupActions(Collect(env.host, base, env.cls), env.cls)(h);
            Ok(env, w, acts) && FolderDone(env, base, w, h, Does(env, w, acts))
  {
    var acts := GroupActions(Collect(env.host, base, env.cls), env.cls)(h);
    GroupOutcome(env, base, h);
    if acts == [] {
      OkNothing(env, w);
      DoesNothing(env, w);
    } else {
      assert acts == [acts[0]];
      OkOne(env, w, acts[0]);
      DoesOne(env, w, acts[0]);
      if acts[0].kind == CreateGroup { CreateGroupFolder(env, w, acts[0]); }
    }
  }

  lemma FoldersNext(env: Env, ro: Roster, base: World, hs: seq<Group>, w: World, h: Group, next: World)
    requires Ready(ro, env.cls) && h in ro.groups && h !in hs && (forall x :: x in hs ==> x in ro.groups)
    requires FoldersAt(env, ro, base, hs, w) && FolderDone(env, base, w, h, next)
    ensures FoldersAt(env, ro, base, hs + [h], next)
  {
    assert forall x :: x in hs + [h] <==> x in hs || x == h;
    forall x | x in ro.groups && x != h ensures Find(next.folders, x.name) == Find(w.folders, x.name) {
      if x.name == h.name { SameGroup(ro, env.cls, x, h); }
    }
    forall x | x in hs ensures FolderIs(next, x, FolderThen(env, base, x)) {
      assert Find(next.folders, x.name) == Find(w.folders, x.name);
    }
  }

  lemma FolderStep(env: Env, ro: Roster, base: World, i: nat, w: World)
    requires Ready(ro, env.cls) && i < |SortBy(GroupKey, ro.groups)|
    requires GroupsAt(base, SortBy(GroupKey, ro.groups)[..i], w)
    requires FoldersAt(env, ro, base, SortBy(GroupKey, ro.groups)[..i], w)
    ensures var hs := SortBy(GroupKey, ro.groups);
            var acts := GroupActions(Collect(env.host, base, env.cls), env.cls)(hs[i]);
            Ok(env, w, acts) && FoldersAt(env, ro, base, hs[..i + 1], Does(env, w, acts))
  {
    var hs := SortBy(GroupKey, ro.groups);
    GroupNext(ro, env.cls, i);
    GidStillFree(env, ro, base, hs[..i], w, hs[i]);
    FolderTurn(env, base, w, hs[i]);
    FoldersNext(env, ro, base, hs[..i], w, hs[i],
                Does(env, w, GroupActions(Collect(env.host, base, env.cls), env.cls)(hs[i])));
  }

  /** The first part never fails. */
  lemma FoldersOk(env: Env, ro: Roster, base: World)
    requires Ready(ro, env.cls)
    ensures var part := FolderPart(ro, Collect(env.host, base, env.cls), env.cls);
            Ok(env, base, part) && FoldersAt(env, ro, base, SortBy(GroupKey, ro.groups), Does(env, base, part))
  {
    var hs, f := SortBy(GroupKey, ro.groups), GroupActions(Collect(env.host, base, env.cls), env.cls);
    var p := (i: nat, w: World) => i <= |hs| && GroupsAt(base, hs[..i], w) && FoldersAt(env, ro, base, hs[..i], w);
    var fine := (g: Group) => true;
    forall i: nat, w | i < |hs| && p(i, w) ensures p(i + 1, Does(env, w, f(hs[i]))) && Ok(env, w, f(hs[i])) {
      GroupStep(env, ro, base, i, w);
      FolderStep(env, ro, base, i, w);
    }
    assert hs[..0] == [] && hs[..|hs|] == hs;
    OkEach(env, base, f, hs, hs, p, fine);
    Turns(env, base, f, hs, |hs|, p);
  }

  // --- the second part: reader views ---

  lemma ReaderPlan(env: Env, ro: Roster, base: World, g: Group)
    requires env.cls.Gid(g.gid) == Managed
    ensures ReadersFor(ro, Collect(env.host, base, env.cls), env.cls)(g)
            == if ReadersPlanned(env, ro, base, g) then [SetReaders(ro, g)] else []
  {
    var st := Collect(env.host, base, env.cls);
    WantReadersExact(ro, g);
    var want := Fits.WantedReaders(ro, g);
    assert |NamesOf(want)| == |want|;
    SortedEmpty(DeclaredReaders(ro, g));
    if g.name in st.groups { assert st.groups[g.name] == CollectGroup(env.host, base, g.name); }
  }

  /** Folders as they were, and the points of the teams yet to have their turn. */
  ghost predicate ViewsAt(ro: Roster, start: World, hs: seq<Group>, w: World) {
    && Views.Wf(w.ns) && w.folders == start.folders
    && forall g, r: Name :: g in ro.groups && g !in hs ==> Views.SameAt(start.ns, w.ns, Views.Point(r, g.name))
  }

  ghost predicate ReadersReady(w: World, ro: Roster, g: Group) {
    forall r :: r in Fits.WantedReaders(ro, g) ==> Views.PointReady(w.ns, w.folders, g.name, g.gid, r)
  }

  ghost predicate ReadersFine(env: Env, ro: Roster, base: World, start: World, g: Group) {
    ReadersPlanned(env, ro, base, g) ==> env.host.viewsKnown && ReadersReady(start, ro, g)
  }

  lemma ReaderTurn(env: Env, ro: Roster, base: World, start: World, hs: seq<Group>, w: World, g: Group)
    requires Ready(ro, env.cls) && g in ro.groups && g !in hs && ViewsAt(ro, start, hs, w)
    ensures var acts := ReadersFor(ro, Collect(env.host, base, env.cls), env.cls)(g);
            && ViewsAt(ro, start, hs + [g], Does(env, w, acts))
            && (Ok(env, w, acts) <==> ReadersFine(env, ro, base, start, g))
  {
    var acts, a := ReadersFor(ro, Collect(env.host, base, env.cls), env.cls)(g), SetReaders(ro, g);
    ReaderPlan(env, ro, base, g);
    if ReadersPlanned(env, ro, base, g) {
      OkOne(env, w, a);
      DoesOne(env, w, a);
      SetsNext(env, ro, start, hs, w, g);
      if env.host.viewsKnown { SetsReady(env, ro, start, hs, w, g); }
    } else {
      OkNothing(env, w);
      DoesNothing(env, w);
    }
  }

  lemma SetsNext(env: Env, ro: Roster, start: World, hs: seq<Group>, w: World, g: Group)
    requires Ready(ro, env.cls) && g in ro.groups && ViewsAt(ro, start, hs, w)
    ensures ViewsAt(ro, start, hs + [g], One(env, w, SetReaders(ro, g), {}).w)
    ensures !env.host.viewsKnown ==> !One(env, w, SetReaders(ro, g), {}).ok
  {
    var a := SetReaders(ro, g);
    var next := One(env, w, a, {}).w;
    ViewRounds.OneNs(env, w, a, {});
    ViewRounds.WfStep(env, w, a, {});
    forall h, r: Name | h in ro.groups && h !in hs + [g]
      ensures Views.SameAt(start.ns, next.ns, Views.Point(r, h.name))
    {
      if h.name == g.name { SameGroup(ro, env.cls, h, g); }
      assert h in ro.groups && h !in hs;
      ViewRounds.PointStep(env, w, a, {}, Views.Point(r, h.name));
    }
  }

  lemma SetsReady(env: Env, ro: Roster, start: World, hs: seq<Group>, w: World, g: Group)
    requires g in ro.groups && g !in hs && env.host.viewsKnown && ViewsAt(ro, start, hs, w)
    ensures One(env, w, SetReaders(ro, g), {}).ok <==> ReadersReady(start, ro, g)
  {
    var a, rs := SetReaders(ro, g), Fits.WantedReaders(ro, g);
    ViewRounds.OneNs(env, w, a, {});
    ViewRounds.WantedDistinct(ro, g);
    Views.EnsuredOk(w.ns, w.folders, g.name, g.gid, rs);
    forall r | r in rs
      ensures Views.PointReady(w.ns, w.folders, g.name, g.gid, r)
              <==> Views.PointReady(start.ns, start.folders, g.name, g.gid, r)
    {
      Views.PointReadySame(start.ns, w.ns, start.folders, w.folders, g.name, g.gid, r);
    }
  }

  lemma ReaderStep(env: Env, ro: Roster, base: World, start: World, i: nat, w: World)
    requires Ready(ro, env.cls) && i < |SortBy(GroupKey, ro.groups)|
    requires ViewsAt(ro, start, SortBy(GroupKey, ro.groups)[..i], w)
    ensures var hs := SortBy(GroupKey, ro.groups);
            var acts := ReadersFor(ro, Collect(env.host, base, env.cls), env.cls)(hs[i]);
            && ViewsAt(ro, start, hs[..i + 1], Does(env, w, acts))
            && (Ok(env, w, acts) <==> ReadersFine(env, ro, base, start, hs[i]))
  {
    GroupNext(ro, env.cls, i);
    ReaderTurn(env, ro, base, start, SortBy(GroupKey, ro.groups)[..i], w, SortBy(GroupKey, ro.groups)[i]);
  }

  lemma ReadersOk(env: Env, ro: Roster, base: World, start: World)
    requires Ready(ro, env.cls) && Views.Wf(start.ns)
    ensures Ok(env, start, ReaderPart(ro, Collect(env.host, base, env.cls), env.cls)) <==>
              forall g :: g in ro.groups ==> ReadersFine(env, ro, base, start, g)
  {
    var hs, f := SortBy(GroupKey, ro.groups), ReadersFor(ro, Collect(env.host, base, env.cls), env.cls);
    var p := (i: nat, w: World) => i <= |hs| && ViewsAt(ro, start, hs[..i], w);
    var fine := (g: Group) => ReadersFine(env, ro, base, start, g);
    forall i: nat, w | i < |hs| && p(i, w)
      ensures p(i + 1, Does(env, w, f(hs[i]))) && (Ok(env, w, f(hs[i])) <==> fine(hs[i]))
    {
      ReaderStep(env, ro, base, start, i, w);
    }
    SortByMembers(GroupKey, ro.groups);
    OkEach(env, start, f, hs, ro.groups, p, fine);
  }

  /** On the folders the first part leaves, that shows on the host from the start. */
  lemma ReadyFromStart(env: Env, ro: Roster, base: World, hs: seq<Group>, start: World, g: Group)
    requires FoldersAt(env, ro, base, hs, start) && g in hs
    ensures ReadersReady(start, ro, g) <==>
              forall r :: r in Fits.WantedReaders(ro, g) ==>
                            Views.PointReady(base.ns, FolderMap(env, base, g), g.name, g.gid, r)
  {
    forall r
      ensures Views.PointReady(start.ns, start.folders, g.name, g.gid, r)
              <==> Views.PointReady(base.ns, FolderMap(env, base, g), g.name, g.gid, r)
    {
      Views.PointReadySame(start.ns, base.ns, start.folders, FolderMap(env, base, g), g.name, g.gid, r);
    }
  }

  // --- the third part: accounts ---

  ghost predicate UserSeeded(env: Env, base: World, u: User) {
    env.deps.posixOnly || env.deps.seed
    || (!RegistersNow(base, u) && !(Created(base, u) && u.name !in base.smb))
  }

  lemma SmbFeasible(env: Env, base: World, u: User, a: Action)
    requires env.cls.Uid(u.uid) == Managed
    requires u.name in base.users && base.users[u.name].uid == u.uid
    requires a in SmbActions(u, Collect(env.host, base, env.cls))
    ensures Feasible(env, base, a) && (a.kind == AddSmb ==> RegistersNow(base, u))
  {
    CollectSees(env, base, u.name);
  }

  lemma AccountFeasible(env: Env, base: World, u: User, groups: seq<Name>, a: Action)
    requires env.cls.Uid(u.uid) == Managed && Idle(a.kind)
    requires a in AccountActions(u, groups, Collect(env.host, base, env.cls), env.cls)
    ensures Feasible(env, base, a) && (a.kind == AddSmb ==> RegistersNow(base, u))
  {
    var st := Collect(env.host, base, env.cls);
    CollectSees(env, base, u.name);
    if u.name in st.users && a in SmbActions(u, st) && st.users[u.name].uid == u.uid {
      SmbFeasible(env, base, u, a);
    }
  }

  lemma IdleFeasible(env: Env, ro: Roster, base: World, u: User, a: Action)
    requires env.cls.Uid(u.uid) == Managed && Idle(a.kind)
    requires a in ActionsFor(ro, Collect(env.host, base, env.cls), env.cls)(u)
    ensures Feasible(env, base, a) && (a.kind == AddSmb ==> RegistersNow(base, u))
  {
    var st, groups := Collect(env.host, base, env.cls), UserGroups(SortBy(GroupKey, ro.groups), ro.users, u.name);
    if a in AccountActions(u, groups, st, env.cls) {
      AccountFeasible(env, base, u, groups, a);
    } else {
      assert a in QuotaActions(u, st);
    }
  }

  lemma RegistersPlanned(env: Env, ro: Roster, base: World, u: User)
    requires env.cls.Uid(u.uid) == Managed && RegistersNow(base, u)
    ensures UserAction(u, AddSmb) in ActionsFor(ro, Collect(env.host, base, env.cls), env.cls)(u)
  {
    var st, groups := Collect(env.host, base, env.cls), UserGroups(SortBy(GroupKey, ro.groups), ro.users, u.name);
    CollectSees(env, base, u.name);
    assert SmbActions(u, st) == [UserAction(u, AddSmb)];
    assert UserAction(u, AddSmb) in AccountActions(u, groups, st, env.cls);
  }

  /** What follows a user's create or change of groups fails only for want of a seed. */
  lemma RestFine(env: Env, ro: Roster, base: World, w: World, u: User, lead: seq<Action>, rest: seq<Action>)
    requires env.cls.Uid(u.uid) == Managed && Grows(base, w) && AllIdle(rest)
    requires ActionsFor(ro, Collect(env.host, base, env.cls), env.cls)(u) == lead + rest
    requires forall a :: a in lead ==> a.kind != AddSmb
    ensures Ok(env, w, rest) <==> env.deps.posixOnly || env.deps.seed || !RegistersNow(base, u)
  {
    forall a | a in rest ensures Feasible(env, base, a) && (a.kind == AddSmb ==> RegistersNow(base, u)) {
      assert a in lead + rest;
      IdleFeasible(env, ro, base, u, a);
    }
    if RegistersNow(base, u) {
      RegistersPlanned(env, ro, base, u);
      assert UserAction(u, AddSmb) in lead || UserAction(u, AddSmb) in rest;
    }
    FeasibleKept(env, base, w, rest);
  }

  lemma CreateFine(env: Env, ro: Roster, base: World, w: World, u: User, a: Action)
    requires a.kind in {CreateUser, CreateUserDisabled} && a.name == u.name && a.id == u.uid && Created(base, u)
    requires a.hasSmb == (u.name in base.smb) && base.smb.Keys <= w.smb.Keys
    requires u.name !in w.users && (AccountFree(w, u.name, u.uid) <==> BornHere(ro, base, u))
    requires SetOf(a.groups) == DeclaredGroups(ro, u.name)
    requires BornHere(ro, base, u) ==>
               (DeclaredGroups(ro, u.name) <= WithOwn(w.groups, u.name, u.uid).Keys
                <==> forall g :: g in DeclaredGroups(ro, u.name) ==> Available(ro, base, u, g))
    ensures One(env, w, a, {}).ok <==> UserServed(env, ro, base, u) && UserSeeded(env, base, u)
  {
    CreateUserOk(env, w, a, a.kind == CreateUser);
    assert !Reworked(env, ro, base, u) && !RegistersNow(base, u);
    assert GroupsThen(w, u.name) == WithOwn(w.groups, u.name, u.uid).Keys;
  }

  lemma CreateOk(env: Env, ro: Roster, base: World, us: seq<User>, w: World, u: User, a: Action)
    requires Ready(ro, env.cls) && Windows(env.cls) && NextUser(ro, us, u) && Created(base, u)
    requires Stage(env, ro, base, us, w)
    requires a == CreateAction(u, GroupsOf(env, ro, u), Collect(env.host, base, env.cls))
    ensures One(env, w, a, {}).ok <==> UserServed(env, ro, base, u) && UserSeeded(env, base, u)
  {
    CollectSees(env, base, u.name);
    UserGroupsExact(ro, u.name);
    FreeNow(env, ro, base, us, w, u);
    if BornHere(ro, base, u) { CreatedGroups(env, ro, base, us, w, u); }
    CreateFine(env, ro, base, w, u, a);
  }

  lemma UpdateFine(env: Env, ro: Roster, base: World, w: World, u: User, a: Action)
    requires a.kind == UpdateUserGroups && a.name == u.name && Reworked(env, ro, base, u) && u.name in w.users
    requires SetOf(a.groups) == GroupsFor(env, ro, base, u.name)
    requires GroupsFor(env, ro, base, u.name) <= w.groups.Keys
             <==> forall g :: g in DeclaredGroups(ro, u.name) ==> Available(ro, base, u, g)
    ensures One(env, w, a, {}).ok <==> UserServed(env, ro, base, u)
  {
    OneCall(w, OnGroups(SetGroups(a.name, SetOf(a.groups))), 0);
  }

  lemma UpdateOk(env: Env, ro: Roster, base: World, us: seq<User>, w: World, u: User, a: Action)
    requires NextUser(ro, us, u) && Reworked(env, ro, base, u) && Stage(env, ro, base, us, w)
    requires a.kind == UpdateUserGroups && a.name == u.name && SetOf(a.groups) == GroupsFor(env, ro, base, u.name)
    ensures One(env, w, a, {}).ok <==> UserServed(env, ro, base, u)
  {
    ReworkedGroups(env, ro, base, us, w, u);
    UpdateFine(env, ro, base, w, u, a);
  }

  lemma LeadThenRest(env: Env, ro: Roster, base: World, w: World, u: User, a: Action, rest: seq<Action>)
    requires env.cls.Uid(u.uid) == Managed && Grows(base, w) && AllIdle(rest)
    requires ActionsFor(ro, Collect(env.host, base, env.cls), env.cls)(u) == [a] + rest
    requires NssKind(a.kind)
    ensures Ok(env, w, [a] + rest) <==>
              One(env, w, a, {}).ok && (env.deps.posixOnly || env.deps.seed || !RegistersNow(base, u))
  {
    OkConcat(env, w, [a], rest);
    OkOne(env, w, a);
    ApplyGrows(env, w, Kept(env, [a]), NoFaults());
    GrowsTransitive(base, w, Does(env, w, [a]));
    RestFine(env, ro, base, Does(env, w, [a]), u, [a], rest);
  }

  ghost predicate UserFine(env: Env, ro: Roster, base: World, u: User) {
    UserServed(env, ro, base, u) && UserSeeded(env, base, u)
  }

  lemma UserOk(env: Env, ro: Roster, base: World, us: seq<User>, w: World, u: User)
    requires Ready(ro, env.cls) && Windows(env.cls) && NextUser(ro, us, u) && Stage(env, ro, base, us, w)
    ensures Ok(env, w, ActionsFor(ro, Collect(env.host, base, env.cls), env.cls)(u)) <==> UserFine(env, ro, base, u)
  {
    if Created(base, u) {
      var a := CreateAction(u, GroupsOf(env, ro, u), Collect(env.host, base, env.cls));
      var rest := CreatedPlan(env, ro, base, u);
      CreateOk(env, ro, base, us, w, u, a);
      LeadThenRest(env, ro, base, w, u, a, rest);
    } else if Reworked(env, ro, base, u) {
      var a, rest := ReworkedPlan(env, ro, base, u);
      UpdateOk(env, ro, base, us, w, u, a);
      LeadThenRest(env, ro, base, w, u, a, rest);
    } else {
      var acts := ActionsFor(ro, Collect(env.host, base, env.cls), env.cls)(u);
      OtherPlan(env, ro, base, u);
      assert acts == [] + acts;
      RestFine(env, ro, base, w, u, [], acts);
    }
  }

  lemma UsersOk(env: Env, ro: Roster, base: World, w: World)
    requires Ready(ro, env.cls) && Windows(env.cls) && Stage(env, ro, base, [], w)
    ensures Ok(env, w, UserPart(ro, Collect(env.host, base, env.cls), env.cls)) <==>
              forall u :: u in ro.users ==> UserFine(env, ro, base, u)
  {
    var us, f := SortBy(UserKey, ro.users), ActionsFor(ro, Collect(env.host, base, env.cls), env.cls);
    var p := (i: nat, v: World) => i <= |us| && Stage(env, ro, base, us[..i], v);
    var fine := (u: User) => UserFine(env, ro, base, u);
    forall i: nat, v | i < |us| && p(i, v)
      ensures p(i + 1, Does(env, v, f(us[i]))) && (Ok(env, v, f(us[i])) <==> fine(us[i]))
    {
      UserStep(env, ro, base, i, v);
      UserNext(ro, env.cls, i);
      UserOk(env, ro, base, us[..i], v, us[i]);
    }
    SortByMembers(UserKey, ro.users);
    OkEach(env, w, f, us, ro.users, p, fine);
  }

  // --- the fourth part: administrators ---

  lemma OwnersOk(env: Env, ro: Roster, base: World, us: seq<User>, start: World, hs: seq<Group>, w: World, h: Group)
    requires Ready(ro, env.cls) && h in ro.groups
    requires (forall u :: u in us <==> u in ro.users) && Stage(env, ro, base, us, start)
    requires AdminsAt(env, ro, base, hs, start, w)
    ensures Ok(env, w, OwnerActions(Collect(env.host, base, env.cls), env.cls)(h)) <==> OwnersSettable(env, ro, base, h)
  {
    var acts := OwnerActions(Collect(env.host, base, env.cls), env.cls)(h);
    OwnersPlan(env, base, h);
    OwnersThere(ro, base, us, start, h);
    assert BornIn(ro, base, us, h.name) <==> BornIn(ro, base, ro.users, h.name);
    if acts == [] {
      OkNothing(env, w);
    } else {
      OkOne(env, w, acts[0]);
      AdminsOk(env, w, acts[0]);
    }
  }

  lemma AdminsOk(env: Env, w: World, a: Action)
    requires a.kind == SetGroupAdmins
    ensures One(env, w, a, {}).ok <==> (env.host.gshadow ==> a.name in w.groups && SetOf(a.groups) <= w.users.Keys)
  {
    if env.host.gshadow {
      OneCall(w, OnGroups(SetAdmins(a.name, SortBy(Self, a.groups))), 0);
      SortByMembers(Self, a.groups);
      assert SetOf(SortBy(Self, a.groups)) == SetOf(a.groups);
    }
  }

  lemma AllOwnersOk(env: Env, ro: Roster, base: World, us: seq<User>, start: World)
    requires Ready(ro, env.cls) && (forall u :: u in us <==> u in ro.users) && Stage(env, ro, base, us, start)
    ensures Ok(env, start, OwnerPart(ro, Collect(env.host, base, env.cls), env.cls)) <==>
              forall g :: g in ro.groups ==> OwnersSettable(env, ro, base, g)
  {
    var hs, f := SortBy(GroupKey, ro.groups), OwnerActions(Collect(env.host, base, env.cls), env.cls);
    var p := (i: nat, v: World) => i <= |hs| && AdminsAt(env, ro, base, hs[..i], start, v);
    var fine := (g: Group) => OwnersSettable(env, ro, base, g);
    AdminsStart(env, ro, base, us, start);
    SortByMembers(GroupKey, ro.groups);
    forall i: nat, v | i < |hs| && p(i, v)
      ensures p(i + 1, Does(env, v, f(hs[i]))) && (Ok(env, v, f(hs[i])) <==> fine(hs[i]))
    {
      OwnersStep(env, ro, base, us, start, i, v);
      assert hs[i] in hs;
      OwnersOk(env, ro, base, us, start, hs[..i], v, hs[i]);
    }
    OkEach(env, start, f, hs, ro.groups, p, fine);
  }

  // --- the rest, and the whole run ---

  lemma OrphansFeasible(env: Env, ro: Roster, base: World, a: Action)
    ensures var st := Collect(env.host, base, env.cls);
            a in OrphanGroupPart(ro, st, env.cls) + OrphanUserPart(ro, st, env.cls) ==>
              Feasible(env, base, a) && a.kind != AddSmb
  {
    var st := Collect(env.host, base, env.cls);
    if a in OrphanGroupPart(ro, st, env.cls) {
      GroupsOnlyNoticed(ro, st, env.cls, a);
    } else if a in OrphanUserPart(ro, st, env.cls) {
      OrphanPlanned(ro, st, env.cls, a);
      var n :| n in st.users && a in OrphansFor(ro, st, env.cls)(n);
      OrphanFeasible(env, ro, base, n, a);
    }
  }

  lemma OrphanFeasible(env: Env, ro: Roster, base: World, n: Name, a: Action)
    requires a in OrphansFor(ro, Collect(env.host, base, env.cls), env.cls)(n)
    ensures Feasible(env, base, a) && a.kind != AddSmb
  {
    CollectSees(env, base, n);
  }

  lemma SixOk(env: Env, w: World, a: seq<Action>, b: seq<Action>, c: seq<Action>, d: seq<Action>,
              e: seq<Action>, f: seq<Action>)
    requires Ok(env, w, a) && Ok(env, Does(env, w, a + b + c + d), e + f)
    ensures var w1 := Does(env, w, a);
            var w2 := Does(env, w1, b);
            var w3 := Does(env, w2, c);
            Ok(env, w, a + b + c + d + e + f) <==> Ok(env, w1, b) && Ok(env, w2, c) && Ok(env, w3, d)
  {
    OkConcat(env, w, a, b);
    OkConcat(env, w, a + b, c);
    OkConcat(env, w, a + b + c, d);
    DoesConcat(env, w, a, b);
    DoesConcat(env, w, a + b, c);
    OkThen(env, w, a + b + c + d, e, f);
  }

  lemma OkThen(env: Env, w: World, a: seq<Action>, e: seq<Action>, f: seq<Action>)
    requires Ok(env, Does(env, w, a), e + f)
    ensures Ok(env, w, a + e + f) <==> Ok(env, w, a)
  {
    OkConcat(env, w, a, e + f);
    Regroup(a, e, f);
  }

  lemma Regroup(a: seq<Action>, e: seq<Action>, f: seq<Action>)
    ensures a + e + f == a + (e + f)
  {
  }

  lemma OrphansOk(env: Env, ro: Roster, base: World, w: World)
    requires Grows(base, w)
    ensures var st := Collect(env.host, base, env.cls);
            Ok(env, w, OrphanGroupPart(ro, st, env.cls) + OrphanUserPart(ro, st, env.cls))
  {
    var st := Collect(env.host, base, env.cls);
    var acts := OrphanGroupPart(ro, st, env.cls) + OrphanUserPart(ro, st, env.cls);
    forall a | a in acts ensures Feasible(env, base, a) && a.kind != AddSmb { OrphansFeasible(env, ro, base, a); }
    FeasibleKept(env, base, w, acts);
  }

  lemma InSixParts(env: Env, ro: Roster, base: World)
    requires Ready(ro, env.cls)
    ensures var st := Collect(env.host, base, env.cls);
            Apply(env, base, TurnActions(env, ro, base), NoFaults()).ok <==>
              && Ok(env, Does(env, base, FolderPart(ro, st, env.cls)), ReaderPart(ro, st, env.cls))
              && Ok(env, AfterFolders(env, ro, base), UserPart(ro, st, env.cls))
              && Ok(env, AfterUsers(env, ro, base), OwnerPart(ro, st, env.cls))
  {
    var st, cls := Collect(env.host, base, env.cls), env.cls;
    FoldersOk(env, ro, base);
    var abcd := FolderPart(ro, st, cls) + ReaderPart(ro, st, cls) + UserPart(ro, st, cls) + OwnerPart(ro, st, cls);
    ApplyGrows(env, base, Kept(env, abcd), NoFaults());
    OrphansOk(env, ro, base, Does(env, base, abcd));
    SixOk(env, base, FolderPart(ro, st, cls), ReaderPart(ro, st, cls), UserPart(ro, st, cls),
          OwnerPart(ro, st, cls), OrphanGroupPart(ro, st, cls), OrphanUserPart(ro, st, cls));
  }

  lemma ReadersFromStart(env: Env, ro: Roster, base: World)
    requires Ready(ro, env.cls) && Views.Wf(base.ns)
    ensures var st := Collect(env.host, base, env.cls);
            Ok(env, Does(env, base, FolderPart(ro, st, env.cls)), ReaderPart(ro, st, env.cls)) <==>
              forall g :: g in ro.groups ==> ReadersSettable(env, ro, base, g)
  {
    var start := Does(env, base, FolderPart(ro, Collect(env.host, base, env.cls), env.cls));
    FoldersOk(env, ro, base);
    ReadersOk(env, ro, base, start);
    SortByMembers(GroupKey, ro.groups);
    forall g | g in ro.groups ensures ReadersFine(env, ro, base, start, g) <==> ReadersSettable(env, ro, base, g) {
      ReadyFromStart(env, ro, base, SortBy(GroupKey, ro.groups), start, g);
    }
  }

  /** A run in which no call is failed from outside, of either half, whatever is refused, reports no error
      exactly if: a seed is there if a password is to be derived; the reader views that are to be set can be;
      the accounts to be made can be, and the groups users are to join are there by their turn; and the
      administrators to be set can be. */
  lemma SucceedsExactly(env: Env, ro: Roster, base: World)
    requires Ready(ro, env.cls) && Windows(env.cls) && Views.Wf(base.ns)
    ensures Apply(env, base, TurnActions(env, ro, base), NoFaults()).ok <==> Succeeds(env, ro, base)
  {
    InSixParts(env, ro, base);
    ReadersFromStart(env, ro, base);
    FoldersDone(env, ro, base);
    UsersOk(env, ro, base, AfterFolders(env, ro, base));
    Standing.Run(env, ro, base);
    SortByMembers(UserKey, ro.users);
    AllOwnersOk(env, ro, base, SortBy(UserKey, ro.users), AfterUsers(env, ro, base));
  }

  // --- views left alone ---

  lemma SetsPlanned(env: Env, ro: Roster, base: World, g: Group, a: Action)
    requires Ready(ro, env.cls) && g in ro.groups && a in PlanOf(env, ro, base) && ViewRounds.Sets(a, g.name)
    ensures ReadersPlanned(env, ro, base, g)
  {
    var st := Collect(env.host, base, env.cls);
    ReaderOnly(ro, st, env.cls, a);
    ReaderPlanned(ro, st, env.cls, a);
    var h :| h in ro.groups && a in ReadersFor(ro, st, env.cls)(h);
    ReaderPlan(env, ro, base, h);
    SameGroup(ro, env.cls, g, h);
  }

  /** Whatever fails, and refused or not: the views of a declared group that are not to be set stay up, and
      stay down, as they were. */
  lemma ViewsLeftAlone(env: Env, ro: Roster, base: World, faults: nat -> set<nat>, g: Group, r: Name)
    requires Ready(ro, env.cls) && g in ro.groups && !ReadersPlanned(env, ro, base, g)
    ensures Views.SameAt(base.ns, Turn(env, ro, base, faults).ns, Views.Point(r, g.name))
  {
    var acts := TurnActions(env, ro, base);
    forall a | a in acts ensures !ViewRounds.Sets(a, g.name) {
      NssOnlyMembers(PlanOf(env, ro, base), a);
      if ViewRounds.Sets(a, g.name) { SetsPlanned(env, ro, base, g, a); }
    }
    ViewRounds.Untouched(env, base, acts, faults, Views.Point(r, g.name), "");
  }
}
