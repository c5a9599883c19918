/** Where the groups and accounts a run leaves came from. */
module Origins {
  import opened Common
  import opened Names
  import opened IdRange
  import opened Roster
  import opened System
  import opened Reconcile
  import opened Executor
  import opened Agreement
  import opened Goals
  import opened Runs
  import Fits
  import Views

  ghost predicate Declared(ro: Roster, n: Name, gid: Id) {
    exists g :: g in ro.groups && g.name == n && g.gid == gid
  }

  ghost predicate Private(env: Env, ro: Roster, base: World, n: Name, gid: Id) {
    n !in base.users && exists u :: u in ro.users && Live(env, base, u, n) && u.uid == gid
  }

  /** A group the run made is a declared one, or the private group of an account it is making. */
  ghost predicate Known(env: Env, ro: Roster, base: World, groups: map<Name, GroupEntry>) {
    forall n :: n in groups && n !in base.groups ==>
      Declared(ro, n, groups[n].gid) || Private(env, ro, base, n, groups[n].gid)
  }

  /** A group the run made shares its gid with no other. */
  ghost predicate Fresh(base: World, groups: map<Name, GroupEntry>) {
    forall n, m :: n in groups && n !in base.groups && m in groups && m != n ==> groups[m].gid != groups[n].gid
  }

  /** Every account the run made found its private gid in use. */
  ghost predicate Housed(base: World, users: map<Name, Account>, groups: map<Name, GroupEntry>) {
    forall n :: n in users && n !in base.users ==> GidInUse(groups, users[n].uid)
  }

  ghost predicate Traced(env: Env, ro: Roster, base: World, w: World) {
    && Known(env, ro, base, w.groups) && Fresh(base, w.groups) && Housed(base, w.users, w.groups)
  }

  lemma TracedStep(env: Env, ro: Roster, base: World, w: World, c: Call)
    requires CallFits(env, ro, base, c) && Exec(w, c).Some? && Traced(env, ro, base, w) && Grows(base, w)
    ensures Traced(env, ro, base, Exec(w, c).value)
  {
    var next := Exec(w, c).value;
    if c.OnGroups? {
      TracedGroups(env, ro, base, w, c.group);
    } else if c.OnUsers? {
      TracedUsers(env, ro, base, w, c.user);
    } else {
      assert next.groups == w.groups && next.users == w.users;
    }
  }

  lemma TracedGroups(env: Env, ro: Roster, base: World, w: World, c: GroupCall)
    requires Goals.GroupFits(env, ro, base, c) && ExecGroup(w.groups, w.users.Keys, c).Some?
    requires Traced(env, ro, base, w) && GroupsGrow(base.groups, w.groups)
    ensures Traced(env, ro, base, w.(groups := ExecGroup(w.groups, w.users.Keys, c).value))
  {
    GroupCallGrows(w.groups, w.users.Keys, c);
  }

  lemma TracedUsers(env: Env, ro: Roster, base: World, w: World, c: UserCall)
    requires ExecUser(w.users, w.groups, c).Some? && Traced(env, ro, base, w)
    ensures Traced(env, ro, base, w.(users := ExecUser(w.users, w.groups, c).value))
  {
  }

  lemma {:induction false} TracedRun(env: Env, ro: Roster, base: World, w: World, cs: seq<Call>, faults: set<nat>,
                                     at: nat)
    requires forall c :: c in cs ==> CallFits(env, ro, base, c)
    requires Traced(env, ro, base, w) && Grows(base, w)
    ensures Traced(env, ro, base, RunCalls(w, cs, faults, at).w)
    decreases |cs|
  {
    if cs != [] {
      assert cs[0] in cs && forall c :: c in cs[1..] ==> c in cs;
      if at in faults {
        if Ignored(cs[0]) { TracedRun(env, ro, base, w, cs[1..], faults, at + 1); }
      } else if Exec(w, cs[0]).Some? {
        TracedStep(env, ro, base, w, cs[0]);
        ExecGrows(w, cs[0]);
        TracedRun(env, ro, base, Exec(w, cs[0]).value, cs[1..], faults, at + 1);
      }
    }
  }

  lemma TracedOne(env: Env, ro: Roster, base: World, w: World, a: Action, faults: set<nat>)
    requires Ready(ro, env.cls) && Fits.ActFits(env, ro, base, a)
    requires Traced(env, ro, base, w) && Grows(base, w)
    ensures Traced(env, ro, base, One(env, w, a, faults).w)
  {
    ScriptFits(env, ro, base, w, a);
    TracedRun(env, ro, base, w, Script(env, w, a), faults, 0);
  }

  lemma {:induction false} TracedBefore(env: Env, ro: Roster, base: World, acts: seq<Action>, faults: nat -> set<nat>,
                                        n: nat)
    requires Ready(ro, env.cls) && AllFit(env, ro, base, acts) && n <= |acts|
    ensures Traced(env, ro, base, Before(env, base, acts, faults, n))
    decreases n
  {
    if n > 0 {
      TracedBefore(env, ro, base, acts, faults, n - 1);
      InvBefore(env, ro, base, acts, faults, n - 1);
      ApplyStep(env, base, acts, faults, n - 1);
      assert acts[n - 1] in acts;
      TracedOne(env, ro, base, Before(env, base, acts, faults, n - 1), acts[n - 1], faults(n - 1));
    }
  }
}
