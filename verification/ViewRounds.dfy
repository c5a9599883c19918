/** The reader views over a whole run of actions: what SetGroupReaders leaves behind, and what the
    rest of the run does to it. */
module ViewRounds {
  import opened Common
  import opened Names
  import opened IdRange
  import opened Roster
  import opened System
  import opened Reconcile
  import opened Executor
  import opened Agreement
  import Goals
  import Runs
  import Fits
  import Views

  // --- one action ---

  lemma CallKeepsNs(w: World, c: Call)
    requires !c.OnViews? && Exec(w, c).Some?
    ensures Exec(w, c).value.ns == w.ns
  {
  }

  lemma {:induction false} KeepsNs(w: World, cs: seq<Call>, faults: set<nat>, at: nat)
    requires forall c :: c in cs ==> !c.OnViews?
    ensures RunCalls(w, cs, faults, at).w.ns == w.ns
    decreases |cs|
  {
    if cs != [] {
      assert cs[0] in cs && forall c :: c in cs[1..] ==> c in cs;
      if at in faults { KeepsNs(w, cs[1..], faults, at + 1); }
      else if Exec(w, cs[0]).Some? {
        CallKeepsNs(w, cs[0]);
        KeepsNs(Exec(w, cs[0]).value, cs[1..], faults, at + 1);
      }
    }
  }

  lemma {:induction false} KeepsFolders(w: World, cs: seq<Call>, faults: set<nat>, at: nat)
    requires forall c :: c in cs ==> !c.OnFolders?
    ensures RunCalls(w, cs, faults, at).w.folders == w.folders
    decreases |cs|
  {
    if cs != [] {
      assert cs[0] in cs && forall c :: c in cs[1..] ==> c in cs;
      if at in faults { KeepsFolders(w, cs[1..], faults, at + 1); }
      else if Exec(w, cs[0]).Some? { KeepsFolders(Exec(w, cs[0]).value, cs[1..], faults, at + 1); }
    }
  }

  /** Only SetGroupReaders changes views, and it changes nothing else. */
  lemma OneNs(env: Env, w: World, a: Action, faults: set<nat>)
    ensures a.kind != SetGroupReaders || !env.host.viewsKnown ==> One(env, w, a, faults).w.ns == w.ns
    ensures a.kind == SetGroupReaders && env.host.viewsKnown ==>
              var e := Views.Ensured(w.ns, w.folders, a.name, a.id, a.readers, faults);
              One(env, w, a, faults) == Run(w.(ns := e.ns), e.ok)
    ensures a.kind != CreateGroup ==> One(env, w, a, faults).w.folders == w.folders
  {
    var cs := Script(env, w, a);
    if a.kind == SetGroupReaders && env.host.viewsKnown {
      LiftViews(w, Views.Plan(w.ns, w.folders, a.name, a.id, a.readers), faults, 0);
    } else {
      KeepsNs(w, cs, faults, 0);
      if a.kind != CreateGroup { KeepsFolders(w, cs, faults, 0); }
    }
  }

  // --- the directories and points a run leaves ---

  ghost predicate Sets(a: Action, team: Name) {
    a.kind == SetGroupReaders && a.name == team
  }

  ghost predicate Grants(a: Action, reader: Name) {
    a.kind == SetGroupReaders && reader in Views.ReaderNames(a.readers)
  }

  lemma WfStep(env: Env, w: World, a: Action, faults: set<nat>)
    requires Views.Wf(w.ns)
    ensures Views.Wf(One(env, w, a, faults).w.ns)
  {
    OneNs(env, w, a, faults);
    Views.RunWf(w.ns, w.folders, Views.Plan(w.ns, w.folders, a.name, a.id, a.readers), faults, 0);
  }

  lemma {:induction false} WfBefore(env: Env, base: World, acts: seq<Action>, faults: nat -> set<nat>, n: nat)
    requires n <= |acts| && Views.Wf(base.ns)
    ensures Views.Wf(Before(env, base, acts, faults, n).ns)
  {
    if n > 0 {
      WfBefore(env, base, acts, faults, n - 1);
      ApplyStep(env, base, acts, faults, n - 1);
      WfStep(env, Before(env, base, acts, faults, n - 1), acts[n - 1], faults(n - 1));
    }
  }

  lemma PointStep(env: Env, w: World, a: Action, faults: set<nat>, p: Views.Point)
    requires !Sets(a, p.team)
    ensures Views.SameAt(w.ns, One(env, w, a, faults).w.ns, p)
  {
    OneNs(env, w, a, faults);
    if a.kind == SetGroupReaders && env.host.viewsKnown {
      Views.OtherTeams(w.ns, w.folders, a.name, a.id, a.readers, faults, p);
    }
  }

  /** The points of a team no action sets stay as they were. */
  lemma {:induction false} PointsBefore(env: Env, base: World, acts: seq<Action>, faults: nat -> set<nat>, n: nat,
                                        p: Views.Point)
    requires n <= |acts| && forall i :: 0 <= i < n ==> !Sets(acts[i], p.team)
    ensures Views.SameAt(base.ns, Before(env, base, acts, faults, n).ns, p)
  {
    if n > 0 {
      PointsBefore(env, base, acts, faults, n - 1, p);
      ApplyStep(env, base, acts, faults, n - 1);
      PointStep(env, Before(env, base, acts, faults, n - 1), acts[n - 1], faults(n - 1), p);
    }
  }

  lemma DirStep(env: Env, w: World, a: Action, faults: set<nat>, r: Name)
    requires !Grants(a, r)
    ensures Views.SameDir(w.ns, One(env, w, a, faults).w.ns, r)
  {
    OneNs(env, w, a, faults);
    if a.kind == SetGroupReaders && env.host.viewsKnown {
      Views.DirAfter(w.ns, w.folders, a.name, a.id, a.readers, faults, r);
    }
  }

  /** The directory of a reader no action grants stays as it was. */
  lemma {:induction false} DirsBefore(env: Env, base: World, acts: seq<Action>, faults: nat -> set<nat>, n: nat,
                                      r: Name)
    requires n <= |acts| && forall i :: 0 <= i < n ==> !Grants(acts[i], r)
    ensures Views.SameDir(base.ns, Before(env, base, acts, faults, n).ns, r)
  {
    if n > 0 {
      DirsBefore(env, base, acts, faults, n - 1, r);
      ApplyStep(env, base, acts, faults, n - 1);
      DirStep(env, Before(env, base, acts, faults, n - 1), acts[n - 1], faults(n - 1), r);
    }
  }

  lemma Untouched(env: Env, base: World, acts: seq<Action>, faults: nat -> set<nat>, p: Views.Point, r: Name)
    ensures (forall a :: a in acts ==> !Sets(a, p.team)) ==>
              Views.SameAt(base.ns, Apply(env, base, acts, faults).w.ns, p)
    ensures (forall a :: a in acts ==> !Grants(a, r)) ==> Views.SameDir(base.ns, Apply(env, base, acts, faults).w.ns, r)
  {
    assert acts[..|acts|] == acts;
    assert forall i :: 0 <= i < |acts| ==> acts[i] in acts;
    if forall a :: a in acts ==> !Sets(a, p.team) { PointsBefore(env, base, acts, faults, |acts|, p); }
    if forall a :: a in acts ==> !Grants(a, r) { DirsBefore(env, base, acts, faults, |acts|, r); }
  }

  /** Every SetGroupReaders action gives the readers it names their declared gids. */
  ghost predicate Granting(ro: Roster, acts: seq<Action>) {
    forall a, r :: a in acts && a.kind == SetGroupReaders && r in a.readers ==>
      exists h :: h in ro.groups && h.name == r.name && h.gid == r.gid
  }

  lemma GrantingFits(env: Env, ro: Roster, base: World, acts: seq<Action>)
    requires Runs.AllFit(env, ro, base, acts)
    ensures Granting(ro, acts)
  {
    forall a, r | a in acts && a.kind == SetGroupReaders && r in a.readers
      ensures exists h :: h in ro.groups && h.name == r.name && h.gid == r.gid
    {
      assert Fits.ActFits(env, ro, base, a);
      var g :| g in ro.groups && Fits.ForGroup(g, a) && a.readers == Fits.WantedReaders(ro, g);
      Runs.WantedReader(ro, g, r);
    }
  }

  // --- a team some action sets ---

  ghost predicate TeamSettled(env: Env, ro: Roster, w: World, g: Group) {
    Views.Settled(w.ns, w.folders, g.name, Fits.WantedReaders(ro, g))
  }

  lemma WantedDistinct(ro: Roster, g: Group)
    ensures Distinct(Views.ReaderKey, Fits.WantedReaders(ro, g))
    ensures Views.ReaderNames(Fits.WantedReaders(ro, g)) == DeclaredReaders(ro, g)
  {
    var rs := Fits.WantedReaders(ro, g);
    WantReadersExact(ro, g);
    var names := SortedNames(DeclaredReaders(ro, g));
    assert NamesOf(rs) == names && |rs| == |names|;
    AscendingDistinct(Self, names);
    forall i, j | 0 <= i < j < |rs| ensures Views.ReaderKey(rs[i]) != Views.ReaderKey(rs[j]) {
      assert NamesOf(rs)[i] == names[i] && NamesOf(rs)[j] == names[j];
      assert Self(names[i]) != Self(names[j]);
    }
    assert forall i :: 0 <= i < |rs| ==> NamesOf(rs)[i] == rs[i].name && rs[i] in rs;
    assert Views.ReaderNames(rs) == SetOf(names);
  }

  /** The action for a team that succeeds leaves it settled. */
  lemma SetsSettles(env: Env, ro: Roster, base: World, w: World, a: Action, faults: set<nat>, g: Group)
    requires Ready(ro, env.cls) && Views.Wf(w.ns) && g in ro.groups
    requires Fits.ActFits(env, ro, base, a) && Sets(a, g.name)
    requires One(env, w, a, faults).ok
    ensures env.host.viewsKnown && TeamSettled(env, ro, One(env, w, a, faults).w, g)
  {
    var h :| h in ro.groups && Fits.ForGroup(h, a) && a.readers == Fits.WantedReaders(ro, h);
    Goals.SameGroup(ro, env.cls, g, h);
    OneNs(env, w, a, faults);
    assert !env.host.viewsKnown ==> Script(env, w, a) == [Unable];
    if env.host.viewsKnown {
      WantedDistinct(ro, g);
      Views.EnsuredSettled(w.ns, w.folders, a.name, a.id, a.readers, faults);
    }
  }

  /** Actions that set other teams, or no team, leave it settled. */
  lemma SettledStep(env: Env, ro: Roster, w: World, acts: seq<Action>, a: Action, faults: set<nat>, g: Group)
    requires Ready(ro, env.cls) && Granting(ro, acts) && a in acts && g in ro.groups
    requires TeamSettled(env, ro, w, g) && a.kind != CreateGroup && !Sets(a, g.name)
    ensures TeamSettled(env, ro, One(env, w, a, faults).w, g)
  {
    OneNs(env, w, a, faults);
    var rs := Fits.WantedReaders(ro, g);
    if a.kind == SetGroupReaders && env.host.viewsKnown {
      forall x, y | x in rs && y in a.readers && x.name == y.name ensures x.gid == y.gid {
        Runs.WantedReader(ro, g, x);
        var h :| h in ro.groups && h.name == x.name && h.gid == x.gid;
      }
      Views.StaysSettled(w.ns, w.folders, g.name, rs, a.name, a.id, a.readers, faults);
    }
  }
}
