/** One run of apply: collect, reconcile, filter, execute (internal/cmd/apply.go). */
module Driver {
  import opened Common
  import opened Names
  import opened IdRange
  import opened Roster
  import opened System
  import opened Reconcile
  import opened Executor
  import opened Agreement
  import opened Phases
  import opened Safety
  import Fits
  import Machine
  import Reconciler
  import ViewEnds
  import ViewRounds
  import Views

  lemma {:induction false} NssOnlyStep(acts: seq<Action>, i: nat)
    requires i < |acts|
    ensures NssOnly(acts[..i + 1]) == NssOnly(acts[..i]) + if NssKind(acts[i].kind) then [acts[i]] else []
    decreases |acts|
  {
    if i == 0 {
      assert acts[..1] == [acts[0]] && acts[..1][1..] == [] && acts[..0] == [];
    } else {
      NssOnlyStep(acts[1..], i - 1);
      assert acts[..i + 1][1..] == acts[1..][..i] && acts[..i][1..] == acts[1..][..i - 1];
    }
  }

  /** nssOnlyActions: what a run that owns only the POSIX accounts keeps, in order. */
  method NssOnlyActions(acts: seq<Action>) returns (out: seq<Action>)
    ensures out == NssOnly(acts)
  {
    out := [];
    for i := 0 to |acts|
      invariant out == NssOnly(acts[..i])
    {
      NssOnlyStep(acts, i);
      if NssKind(acts[i].kind) { out := out + [acts[i]]; }
    }
    assert acts[..|acts|] == acts;
  }

  /** needsSeed: is there an action that derives a password? */
  method SeedNeeded(acts: seq<Action>) returns (needed: bool)
    ensures needed <==> NeedsSeed(acts)
  {
    for i := 0 to |acts|
      invariant forall a :: a in acts[..i] ==>
                  !(a.kind == AddSmb || (a.kind in {CreateUser, CreateUserDisabled} && !a.hasSmb))
    {
      assert acts[..i + 1] == acts[..i] + [acts[i]];
      var a := acts[i];
      if a.kind == AddSmb || (a.kind in {CreateUser, CreateUserDisabled} && !a.hasSmb) { return true; }
    }
    assert acts[..|acts|] == acts;
    return false;
  }

  /** The seed could not be loaded; or the actions ran, each with its result. */
  datatype Outcome = NoSeed | Applied(results: seq<bool>, ok: bool)

  ghost function Environment(host: Host, cls: Classifier, nssOnly: bool, needed: bool): Env {
    Env(host, Deps(nssOnly, needed), cls)
  }

  lemma PlannedReaders(ro: Roster, st: State, cls: Classifier, a: Action)
    requires a in Plan(ro, st, cls) && a.kind == SetGroupReaders
    ensures Distinct(Views.ReaderKey, a.readers)
  {
    ViewEnds.ReaderOnly(ro, st, cls, a);
    ReaderPlanned(ro, st, cls, a);
    var g :| g in ro.groups && a in ReadersFor(ro, st, cls)(g);
    ViewRounds.WantedDistinct(ro, g);
    ReadersOfAction(ro, st, cls, g, a);
  }

  lemma ReadersOfAction(ro: Roster, st: State, cls: Classifier, g: Group, a: Action)
    requires a in ReadersFor(ro, st, cls)(g)
    ensures a.readers == Fits.WantedReaders(ro, g)
  {
  }

  /** The actions of a run, and whether they need a seed. */
  method Prepare(m: Machine.Machine, host: Host, cls: Classifier, ro: Roster, nssOnly: bool)
    returns (acts: seq<Action>, needed: bool)
    requires Windows(cls)
    ensures acts == TurnActions(Environment(host, cls, nssOnly, false), ro, m.Value())
    ensures needed <==> !nssOnly && NeedsSeed(acts)
    ensures forall a :: a in acts && a.kind == SetGroupReaders ==> Distinct(Views.ReaderKey, a.readers)
  {
    var st := m.Collect(host, cls);
    acts := Reconciler.ReconcileRoster(ro, st, cls);
    forall a | a in acts && a.kind == SetGroupReaders ensures Distinct(Views.ReaderKey, a.readers) {
      PlannedReaders(ro, st, cls, a);
    }
    ghost var all := acts;
    if nssOnly { acts := NssOnlyActions(acts); }
    forall a | a in acts ensures a in all { NssOnlyMembers(all, a); }
    needed := false;
    if !nssOnly { needed := SeedNeeded(acts); }
  }

  /** runApplyOnce: without a seed that is needed, nothing is touched; otherwise the host goes through
      exactly the turn whose safety and convergence the other modules are about. */
  method RunApplyOnce(m: Machine.Machine, host: Host, cls: Classifier, ro: Roster, nssOnly: bool, seed: bool,
                      fs: nat -> set<nat>)
    returns (outcome: Outcome)
    requires Windows(cls)
    modifies m, m.views
    ensures outcome.NoSeed? ==> m.Value() == old(m.Value())
    ensures outcome.NoSeed?
            <==> !nssOnly && !seed && NeedsSeed(PlanOf(Environment(host, cls, nssOnly, true), ro, old(m.Value())))
    ensures outcome.Applied? ==>
              var env := Environment(host, cls, nssOnly, seed);
              var run := Executor.Apply(env, old(m.Value()), TurnActions(env, ro, old(m.Value())), fs);
              m.Value() == run.w && outcome.ok == run.ok
  {
    var acts, needed := Prepare(m, host, cls, ro, nssOnly);
    if needed && !seed { return NoSeed; }
    var env := Env(host, Deps(nssOnly, seed), cls);
    var results, ok := m.Apply(env, acts, fs);
    return Applied(results, ok);
  }
}
