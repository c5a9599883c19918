/** EnsureReaderViews, team after team: at the end all teams agree with their declaration at once. */
module AllTeams {
  import opened Common
  import opened Names
  import opened Views

  datatype Team = Team(name: Name, gid: Id, readers: seq<Reader>)

  function TeamKey(t: Team): Name { t.name }

  /** The teams one after another, each on the namespace the one before left; ok if all succeeded. */
  ghost function EnsureAll(ns: Ns, folders: map<Name, Dir>, ts: seq<Team>, faults: nat -> set<nat>): ViewRun
    decreases |ts|
  {
    if ts == [] then ViewRun(ns, true)
    else
      var n := |ts| - 1;
      var before, t := EnsureAll(ns, folders, ts[..n], faults), ts[n];
      var r := Ensured(before.ns, folders, t.name, t.gid, t.readers, faults(n));
      ViewRun(r.ns, before.ok && r.ok)
  }

  /** Each team once, each reader once per team, and one gid per reader. */
  ghost predicate Coherent(ts: seq<Team>) {
    && Distinct(TeamKey, ts)
    && (forall t :: t in ts ==> Distinct(ReaderKey, t.readers))
    && forall s, t :: s in ts && t in ts ==> Agree(s.readers, t.readers)
  }

  lemma {:induction false} AllWf(ns: Ns, folders: map<Name, Dir>, ts: seq<Team>, faults: nat -> set<nat>)
    requires Wf(ns)
    ensures Wf(EnsureAll(ns, folders, ts, faults).ns)
    decreases |ts|
  {
    if ts != [] {
      var n := |ts| - 1;
      AllWf(ns, folders, ts[..n], faults);
      var before, t := EnsureAll(ns, folders, ts[..n], faults).ns, ts[n];
      RunWf(before, folders, Plan(before, folders, t.name, t.gid, t.readers), faults(n), 0);
    }
  }

  ghost predicate Agrees(ns: Ns, folders: map<Name, Dir>, t: Team) {
    Settled(ns, folders, t.name, t.readers)
  }

  lemma LastAgrees(before: Ns, folders: map<Name, Dir>, t: Team, faults: set<nat>)
    requires Wf(before) && Distinct(ReaderKey, t.readers)
    requires Ensured(before, folders, t.name, t.gid, t.readers, faults).ok
    ensures Agrees(Ensured(before, folders, t.name, t.gid, t.readers, faults).ns, folders, t)
  {
    EnsuredSettled(before, folders, t.name, t.gid, t.readers, faults);
  }

  lemma StillAgrees(before: Ns, folders: map<Name, Dir>, t: Team, last: Team, faults: set<nat>)
    requires Agrees(before, folders, t) && t.name != last.name && Agree(t.readers, last.readers)
    ensures Agrees(Ensured(before, folders, last.name, last.gid, last.readers, faults).ns, folders, t)
  {
    StaysSettled(before, folders, t.name, t.readers, last.name, last.gid, last.readers, faults);
  }

  lemma {:induction false} AllSettled(ns: Ns, folders: map<Name, Dir>, ts: seq<Team>, faults: nat -> set<nat>, k: nat,
                                      m: nat)
    requires Wf(ns) && Coherent(ts) && k < m <= |ts| && EnsureAll(ns, folders, ts[..m], faults).ok
    ensures Agrees(EnsureAll(ns, folders, ts[..m], faults).ns, folders, ts[k])
    decreases m
  {
    var n := m - 1;
    assert ts[..m][..n] == ts[..n];
    var before, last := EnsureAll(ns, folders, ts[..n], faults).ns, ts[n];
    AllWf(ns, folders, ts[..n], faults);
    assert ts[n] in ts && ts[k] in ts;
    if k == n {
      LastAgrees(before, folders, last, faults(n));
    } else {
      assert TeamKey(ts[k]) != TeamKey(ts[n]);
      AllSettled(ns, folders, ts, faults, k, n);
      StillAgrees(before, folders, ts[k], last, faults(n));
    }
  }

  /** After a pass over all teams, every team is observed to have exactly its declared readers. */
  lemma AllAgree(ns: Ns, folders: map<Name, Dir>, ts: seq<Team>, faults: nat -> set<nat>)
    requires Wf(ns) && Coherent(ts) && EnsureAll(ns, folders, ts, faults).ok
    ensures forall t :: t in ts ==>
              Observed(EnsureAll(ns, folders, ts, faults).ns, folders, t.name) == SortedNames(ReaderNames(t.readers))
  {
    var after := EnsureAll(ns, folders, ts, faults).ns;
    forall t | t in ts ensures Observed(after, folders, t.name) == SortedNames(ReaderNames(t.readers)) {
      var k :| 0 <= k < |ts| && ts[k] == t;
      assert ts[..|ts|] == ts;
      AllSettled(ns, folders, ts, faults, k, |ts|);
      SettledObserved(after, folders, t.name, t.readers);
    }
  }
}
