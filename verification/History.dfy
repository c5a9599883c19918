/** Safety over whole histories: any sequence of runs, with any accepted rosters, under any faults. */
module History {
  import opened Common
  import opened Names
  import opened IdRange
  import opened Roster
  import opened Validation
  import opened System
  import opened Reconcile
  import opened Executor
  import opened Agreement
  import opened Goals
  import opened Runs
  import opened Safety
  import Origins
  import Views

  /** One run of a history: its environment, the roster file as loaded, and the calls that fail. */
  datatype Stage = Stage(env: Env, full: Roster, policy: Policy, faults: nat -> set<nat>)

  ghost predicate Loaded(t: Stage) {
    Accepted(t.full, t.env.cls, t.policy)
  }

  ghost function Narrow(t: Stage): Roster {
    Narrowed(t.full, t.env.cls)
  }

  ghost function Step(t: Stage, w: World): World {
    Turn(t.env, Narrow(t), w, t.faults)
  }

  ghost function After(w: World, ts: seq<Stage>): World
    decreases |ts|
  {
    if ts == [] then w else After(Step(ts[0], w), ts[1..])
  }

  lemma LoadedReady(t: Stage)
    requires Loaded(t)
    ensures Ready(Narrow(t), t.env.cls)
  {
    NarrowedUnique(t.full, t.env.cls, t.policy);
  }

  lemma StepSafe(t: Stage, w: World)
    requires Loaded(t)
    ensures Safe(t.env, Narrow(t), w, Step(t, w))
  {
    LoadedReady(t);
    TurnSafe(t.env, Narrow(t), w, t.faults);
  }

  // --- nothing disappears, ids stay, passwords stay ---

  /** Nothing ever disappears and no id changes; no two accounts and no two groups come to share an id,
      however many shared one before; a password, once it exists, is never
      overwritten, and a new SMB account starts with the one derived for its name. */
  lemma {:induction false} HistorySafe(w: World, ts: seq<Stage>)
    requires forall t :: t in ts ==> Loaded(t)
    ensures Grows(w, After(w, ts))
    ensures NoNewUids(w.users, After(w, ts).users) && NoNewGids(w.groups, After(w, ts).groups)
    ensures PasswordsKept(w.smb, After(w, ts).smb)
    decreases |ts|
  {
    if ts != [] {
      assert ts[0] in ts && forall t :: t in ts[1..] ==> t in ts;
      var next := Step(ts[0], w);
      StepSafe(ts[0], w);
      HistorySafe(next, ts[1..]);
      NoNewTwice(w, next, After(next, ts[1..]));
    }
  }

  lemma NoNewTwice(a: World, b: World, c: World)
    requires Grows(a, b) && Grows(b, c)
    requires NoNewUids(a.users, b.users) && NoNewUids(b.users, c.users)
    requires NoNewGids(a.groups, b.groups) && NoNewGids(b.groups, c.groups)
    ensures NoNewUids(a.users, c.users) && NoNewGids(a.groups, c.groups)
  {
    forall n, m | n in c.users && m in c.users && c.users[n].uid == c.users[m].uid && n != m
      ensures n in a.users && m in a.users
    {
      assert b.users[n].uid == c.users[n].uid && b.users[m].uid == c.users[m].uid;
    }
    forall n, m | n in c.groups && m in c.groups && c.groups[n].gid == c.groups[m].gid && n != m
      ensures n in a.groups && m in a.groups
    {
      assert b.groups[n].gid == c.groups[n].gid && b.groups[m].gid == c.groups[m].gid;
    }
  }

  /** Each managed uid has one account. */
  ghost predicate ManagedUidsOnce(cls: Classifier, w: World) {
    forall n, m :: (n in w.users && m in w.users && w.users[n].uid == w.users[m].uid
                    && cls.Uid(w.users[n].uid) == Managed) ==> n == m
  }

  /** Each managed gid has one group. */
  ghost predicate ManagedGidsOnce(cls: Classifier, w: World) {
    forall n, m :: (n in w.groups && m in w.groups && w.groups[n].gid == w.groups[m].gid
                    && cls.Gid(w.groups[n].gid) == Managed) ==> n == m
  }

  /** So managed ids stay unique, whatever ids the rest of the host shares, under any configuration. */
  lemma ManagedIdsUnique(cls: Classifier, w: World, ts: seq<Stage>)
    requires forall t :: t in ts ==> Loaded(t)
    ensures ManagedUidsOnce(cls, w) ==> ManagedUidsOnce(cls, After(w, ts))
    ensures ManagedGidsOnce(cls, w) ==> ManagedGidsOnce(cls, After(w, ts))
  {
    HistorySafe(w, ts);
  }

  // --- uids ---

  /** Some entry of the roster, of whatever status, holds this uid under this name. */
  ghost predicate Assigns(full: Roster, uid: Id, name: Name) {
    exists u :: u in full.users && u.uid == uid && u.name == name
  }

  ghost predicate Withheld(full: Roster, uid: Id, name: Name) {
    exists u :: u in full.users && u.uid == uid && u.name == name && u.status == Reserved
  }

  /** A run gives a uid that its roster names to nobody else, and one it reserves to nobody at all. */
  lemma StepUid(t: Stage, w: World, uid: Id, name: Name, n: Name)
    requires Loaded(t) && Assigns(t.full, uid, name)
    requires n in Step(t, w).users && n !in w.users && Step(t, w).users[n].uid == uid
    ensures n == name && !Withheld(t.full, uid, name)
  {
    StepSafe(t, w);
    NarrowedMembers(t.full, t.env.cls);
    var v :| v in Narrow(t).users && Live(t.env, w, v, n) && v.uid == uid;
    forall u | u in t.full.users && u.uid == uid ensures u == v { SameUid(t.full, u, v); }
  }

  lemma SameUid(full: Roster, u: User, v: User)
    requires UsersUnique(full.users) && u in full.users && v in full.users && u.uid == v.uid
    ensures u == v
  {
    var i :| 0 <= i < |full.users| && full.users[i] == u;
    var j :| 0 <= j < |full.users| && full.users[j] == v;
  }

  /** Over a whole history, a uid that every roster names for one name is never given to another. */
  lemma {:induction false} UidReserved(w: World, ts: seq<Stage>, uid: Id, name: Name, n: Name)
    requires forall t :: t in ts ==> Loaded(t) && Assigns(t.full, uid, name)
    requires n in After(w, ts).users && After(w, ts).users[n].uid == uid
    ensures n == name || (n in w.users && w.users[n].uid == uid)
    decreases |ts|
  {
    if ts != [] {
      assert ts[0] in ts && forall t :: t in ts[1..] ==> t in ts;
      var next := Step(ts[0], w);
      UidReserved(next, ts[1..], uid, name, n);
      if n != name {
        StepSafe(ts[0], w);
        if n !in w.users { StepUid(ts[0], w, uid, name, n); }
      }
    }
  }

  /** And one that every roster reserves is never given to anybody. */
  lemma {:induction false} UidWithheld(w: World, ts: seq<Stage>, uid: Id, name: Name, n: Name)
    requires forall t :: t in ts ==> Loaded(t) && Withheld(t.full, uid, name)
    requires n in After(w, ts).users && After(w, ts).users[n].uid == uid
    ensures n in w.users && w.users[n].uid == uid
    decreases |ts|
  {
    if ts != [] {
      assert ts[0] in ts && forall t :: t in ts[1..] ==> t in ts;
      UidWithheld(Step(ts[0], w), ts[1..], uid, name, n);
      StepSafe(ts[0], w);
      assert Assigns(ts[0].full, uid, name);
      if n !in w.users { StepUid(ts[0], w, uid, name, n); }
    }
  }

  // --- what usersync does not manage ---

  /** An account outside the managed range goes through any history of one configuration untouched. */
  lemma {:induction false} UnmanagedUntouched(env: Env, w: World, ts: seq<Stage>, n: Name)
    requires forall t :: t in ts ==> Loaded(t) && t.env.cls == env.cls
    requires Unmanaged(env.cls, w, n)
    ensures Untouched(env, w, After(w, ts), n)
    decreases |ts|
  {
    if ts != [] {
      assert ts[0] in ts && forall t :: t in ts[1..] ==> t in ts;
      var next := Step(ts[0], w);
      StepSafe(ts[0], w);
      assert Untouched(ts[0].env, w, next, n);
      UnmanagedUntouched(env, next, ts[1..], n);
    }
  }

  /** The declared groups of a user in some roster of the history. */
  ghost predicate EverDeclared(ts: seq<Stage>, n: Name, g: Name) {
    exists t :: t in ts && g in DeclaredGroups(Narrow(t), n)
  }

  /** Memberships outside the managed range survive any history; the only ones gained are in groups
      some roster declares the user in. */
  lemma {:induction false} ForeignForever(env: Env, w: World, ts: seq<Stage>, n: Name)
    requires forall t :: t in ts ==> Loaded(t) && t.env.cls == env.cls
    requires n in w.users
    ensures ExtraMemberships(w, env.cls, n) <= ExtraMemberships(After(w, ts), env.cls, n)
    ensures forall g :: g in ExtraMemberships(After(w, ts), env.cls, n) ==>
              g in ExtraMemberships(w, env.cls, n) || EverDeclared(ts, n, g)
    decreases |ts|
  {
    if ts != [] {
      assert ts[0] in ts && forall t :: t in ts[1..] ==> t in ts;
      var next := Step(ts[0], w);
      StepSafe(ts[0], w);
      assert ForeignKept(ts[0].env, Narrow(ts[0]), w, next, n);
      ForeignForever(env, next, ts[1..], n);
    }
  }

  /** A live user of that name is declared by some roster of the history. */
  ghost predicate EverLive(ts: seq<Stage>, m: Name) {
    exists t, u :: t in ts && u in Narrow(t).users && u.name == m && u.status != Reserved
  }

  /** A group that a run makes is managed, unless a live user without an account has its name: then it may be
      that account's private group. */
  lemma MadeManaged(t: Stage, w: World, g: Name)
    requires Loaded(t) && g in Step(t, w).groups && g !in w.groups
    requires g in w.users || forall u :: u in Narrow(t).users && u.name == g ==> u.status == Reserved
    ensures t.env.cls.Gid(Step(t, w).groups[g].gid) == Managed
  {
    var acts := TurnActions(t.env, Narrow(t), w);
    LoadedReady(t);
    TurnFits(t.env, Narrow(t), w);
    Origins.TracedBefore(t.env, Narrow(t), w, acts, t.faults, |acts|);
    assert acts[..|acts|] == acts;
  }

  /** So a name that is managed, or free and no live user's without an account, is never an unmanaged group's. */
  lemma {:induction false} StaysManaged(cls: Classifier, w: World, ts: seq<Stage>, g: Name)
    requires forall t :: t in ts ==> Loaded(t) && t.env.cls == cls
    requires if g in w.groups then cls.Gid(w.groups[g].gid) == Managed else g in w.users || !EverLive(ts, g)
    ensures g in After(w, ts).groups ==> cls.Gid(After(w, ts).groups[g].gid) == Managed
    decreases |ts|
  {
    if ts != [] {
      assert ts[0] in ts && forall t :: t in ts[1..] ==> t in ts;
      var next := Step(ts[0], w);
      StepSafe(ts[0], w);
      if g !in w.groups && g in next.groups {
        forall u | u in Narrow(ts[0]).users && u.name == g && g !in w.users ensures u.status == Reserved {
          assert u.status != Reserved ==> EverLive(ts, g);
        }
        MadeManaged(ts[0], w, g);
      }
      StaysManaged(cls, next, ts[1..], g);
    }
  }

  /** What can be seen of a declared group before a history: n is to be given no membership outside the
      managed range through it. */
  ghost predicate OursFromStart(cls: Classifier, w: World, ts: seq<Stage>, n: Name, g: Name)
    requires n in w.users
  {
    if g in w.groups then
      || cls.Gid(w.groups[g].gid) == Managed || w.groups[g].gid == w.users[n].gid
      || g in ExtraMemberships(w, cls, n)
    else g in w.users || !EverLive(ts, g)
  }

  /** Where each group a roster declares the user in is at the start managed, the user's primary one, or one
      that lists it, or else is not there and has the name of no live user who has yet to get an account, the
      memberships outside the managed range are exactly the same before and after, whatever was refused or
      failed in between. */
  lemma ForeignSame(env: Env, w: World, ts: seq<Stage>, n: Name)
    requires forall t :: t in ts ==> Loaded(t) && t.env.cls == env.cls
    requires n in w.users
    requires forall g :: EverDeclared(ts, n, g) ==> OursFromStart(env.cls, w, ts, n, g)
    ensures ExtraMemberships(After(w, ts), env.cls, n) == ExtraMemberships(w, env.cls, n)
  {
    ForeignForever(env, w, ts, n);
    HistorySafe(w, ts);
    forall g | g in ExtraMemberships(After(w, ts), env.cls, n) ensures g in ExtraMemberships(w, env.cls, n) {
      if g !in ExtraMemberships(w, env.cls, n) { StaysManaged(env.cls, w, ts, g); }
    }
  }

  /** A group outside the managed range that no roster names goes through any history with its gid and its
      administrators, gaining nobody, and losing only declared users that a scan does not see in it. */
  lemma {:induction false} BystandersForever(env: Env, w: World, ts: seq<Stage>, g: Name)
    requires forall t :: t in ts ==> Loaded(t) && t.env.cls == env.cls && Bystander(env.cls, Narrow(t), w, g)
    requires g in w.groups
    ensures var next := After(w, ts);
            && g in next.groups
            && next.groups[g].gid == w.groups[g].gid && next.groups[g].admins == w.groups[g].admins
            && next.groups[g].members <= w.groups[g].members
            && forall m :: m in w.groups[g].members && m !in next.groups[g].members ==>
              Unseen(w, g, m) && EverLive(ts, m)
    decreases |ts|
  {
    if ts != [] {
      assert ts[0] in ts && forall t :: t in ts[1..] ==> t in ts;
      var next := Step(ts[0], w);
      StepSafe(ts[0], w);
      assert BystanderKept(ts[0].env, Narrow(ts[0]), w, next, g);
      forall t | t in ts[1..] ensures Bystander(env.cls, Narrow(t), next, g) {
        assert Bystander(env.cls, Narrow(t), w, g);
      }
      BystandersForever(env, next, ts[1..], g);
    }
  }
}
