/** Hosts and rosters, written out, on which what one would expect of a run fails: each condition stated
    elsewhere as exact is needed. */
module Witnesses {
  import opened Common
  import opened Names
  import opened IdRange
  import opened Roster
  import opened System
  import opened Reconcile
  import opened Executor
  import opened Agreement
  import opened Goals
  import opened Runs
  import opened Phases
  import opened Achieved
  import opened ViewEnds
  import opened Executable
  import opened Refusals
  import opened Sharpness
  import Executability
  import Fits
  import Rounds
  import Safety
  import Standing
  import ViewRounds
  import Views

  const ANN := User("ann", 10001, "", Active, "", None, Some(false))

  const BOB := User("bob", 10002, "", Reserved, "", None, Some(false))

  /** The team t, with these members and owners. */
  function TeamOf(name: Name, members: seq<Name>, owners: seq<Name>): Group {
    Group(name, 20001, "", owners, [], AnonNone, members, All(false, ""), false, false)
  }

  const NO_VIEWS := Views.Ns(map[], map[], map[])

  function Bare(users: map<Name, Account>, groups: map<Name, GroupEntry>): World {
    World(users, groups, map[], map[], map[], map[], NO_VIEWS)
  }

  /** At most one group and one user, with managed ids. */
  ghost predicate Small(ro: Roster) {
    && |ro.groups| <= 1 && |ro.users| <= 1
    && (forall g :: g in ro.groups ==> CLS.Gid(g.gid) == Managed && g.readers == [] && !g.readAll)
    && (forall u :: u in ro.users ==> CLS.Uid(u.uid) == Managed)
  }

  lemma SmallReady(ro: Roster)
    requires Small(ro)
    ensures Ready(ro, CLS) && Windows(CLS)
    ensures forall g :: g in ro.groups ==> DeclaredReaders(ro, g) == {}
  {
    forall g | g in ro.groups ensures DeclaredReaders(ro, g) == {} {
      forall h | h in ro.groups ensures !Reads(ro.groups, h.name, g) {}
    }
  }

  lemma NoReaders(ro: Roster, g: Group)
    requires DeclaredReaders(ro, g) == {}
    ensures Fits.WantedReaders(ro, g) == []
  {
    WantReadersExact(ro, g);
    SortedEmpty({});
    assert |NamesOf(Fits.WantedReaders(ro, g))| == |Fits.WantedReaders(ro, g)|;
  }

  /** What is left of the conditions for a run to go through: new accounts, the seed and the owners. */
  lemma SmallAble(env: Env, ro: Roster, w: World)
    requires Small(ro) && env.cls == CLS
    ensures Able(env, ro, w) <==>
              && (forall u :: NewUser(ro, w, u) ==> PrivateGroupFree(ro, w, u))
              && (NeedsSeed(PlanOf(env, ro, w)) ==> env.deps.seed)
              && forall g :: g in ro.groups ==> OwnersExist(env, ro, w, g)
  {
    SmallReady(ro);
    forall g | g in ro.groups ensures ReadersPossible(env, ro, w, g) { NoReaders(ro, g); }
  }

  /** A small roster of which nothing is refused, on a host without views. */
  ghost predicate SmallCase(env: Env, ro: Roster, w: World) {
    && Small(ro) && env.cls == CLS && !env.deps.posixOnly && w.ns == NO_VIEWS
    && (forall g :: g in ro.groups ==> !GroupRefused(w, g)) && forall u :: u in ro.users ==> !UserRefused(env, w, u)
  }

  /** No call is failed from outside, nothing is refused, and yet some action fails. */
  ghost predicate FailsByItself(env: Env, ro: Roster, w: World) {
    Admitted(env, ro, w) && !Apply(env, w, PlanOf(env, ro, w), NoFaults()).ok
  }

  lemma SmallRuns(env: Env, ro: Roster, w: World)
    requires SmallCase(env, ro, w)
    ensures Admitted(env, ro, w)
    ensures FailsByItself(env, ro, w) <==>
              || (exists u :: NewUser(ro, w, u) && !PrivateGroupFree(ro, w, u))
              || (NeedsSeed(PlanOf(env, ro, w)) && !env.deps.seed)
              || exists g :: g in ro.groups && !OwnersExist(env, ro, w, g)
  {
    SmallReady(ro);
    RefusalFree(env, ro, w);
    SmallAble(env, ro, w);
    Executability.PlanExecutable(env, ro, w);
  }

  // --- the gid a private group needs is held ---

  const ONLY_ANN := Roster({}, [], [ANN])

  const HELD := Bare(map[], map["x" := GroupEntry(10001, {}, [])])

  lemma GidHeldFails()
    ensures FailsByItself(ENV, ONLY_ANN, HELD) && !PrivateGroupFree(ONLY_ANN, HELD, ANN)
  {
    HeldCase();
    SmallRuns(ENV, ONLY_ANN, HELD);
  }

  lemma HeldCase()
    ensures SmallCase(ENV, ONLY_ANN, HELD)
    ensures NewUser(ONLY_ANN, HELD, ANN) && !PrivateGroupFree(ONLY_ANN, HELD, ANN)
  {
    var w, ro := HELD, ONLY_ANN;
    assert ro.users == [ANN] && ANN in ro.users;
    assert "x" in w.groups && w.groups["x"].gid == 10001;
  }

  // --- a declared group carries the account's name ---

  const NAMESAKES := Roster({}, [TeamOf("ann", [], [])], [ANN])

  const EMPTY := Bare(map[], map[])

  lemma NamesakeFails()
    ensures FailsByItself(ENV, NAMESAKES, EMPTY) && !PrivateGroupFree(NAMESAKES, EMPTY, ANN)
  {
    NamesakeCase();
    SmallRuns(ENV, NAMESAKES, EMPTY);
  }

  lemma NamesakeCase()
    ensures SmallCase(ENV, NAMESAKES, EMPTY)
    ensures NewUser(NAMESAKES, EMPTY, ANN) && !PrivateGroupFree(NAMESAKES, EMPTY, ANN)
  {
    var ro, g := NAMESAKES, TeamOf("ann", [], []);
    assert ro.users == [ANN] && ANN in ro.users && ro.groups == [g] && g in ro.groups && g.name == "ann";
    assert GroupNamed(ro, "ann");
  }

  // --- an owner has no account and gets none ---

  const OWNED := Roster({}, [TeamOf("t", [], ["bob"])], [BOB])

  lemma ReservedOwnerFails()
    ensures FailsByItself(ENV, OWNED, EMPTY) && !OwnersExist(ENV, OWNED, EMPTY, TeamOf("t", [], ["bob"]))
  {
    OwnedCase();
    SmallRuns(ENV, OWNED, EMPTY);
  }

  lemma OwnedCase()
    ensures SmallCase(ENV, OWNED, EMPTY)
    ensures var t := TeamOf("t", [], ["bob"]); t in OWNED.groups && !OwnersExist(ENV, OWNED, EMPTY, t)
  {
    var w, ro, t := EMPTY, OWNED, TeamOf("t", [], ["bob"]);
    assert ro.users == [BOB] && ro.groups == [t] && t in ro.groups && t.owners[0] == "bob";
    assert multiset(t.owners) != multiset([]) && "bob" in t.owners;
  }

  // --- no seed to derive a password from ---

  const UNSEEDED := ENV.(deps := Deps(false, false))

  lemma NoSeedFails()
    ensures FailsByItself(UNSEEDED, ONLY_ANN, EMPTY) && NeedsSeed(PlanOf(UNSEEDED, ONLY_ANN, EMPTY))
  {
    var env, w, ro := UNSEEDED, EMPTY, ONLY_ANN;
    assert ro.users == [ANN] && ANN in ro.users;
    SmallRuns(env, ro, w);
    var st, groups := Collect(env.host, w, CLS), UserGroups(SortBy(GroupKey, ro.groups), ro.users, "ann");
    UserClear(env, ro, w, ANN);
    AbsentPlan(ANN, groups, st, CLS);
    AccountPlanned(env, ro, w, ANN, CreateAction(ANN, groups, st));
  }

  // --- something that is not a view is mounted where one should be ---

  const TEAMS := Roster({}, [Team("a", 20001, ["r"]), R], [])

  const BLOCKED := World(
    map[], map["a" := GroupEntry(20001, {}, []), "r" := GroupEntry(20003, {}, [])], map[], map[],
    map["a" := Dir(1528, 0, 20001), "r" := Dir(1528, 0, 20003)], map[],
    Views.Ns(map["r" := 20003], map[Views.Point("r", "a") := Views.Ours], map[Views.Point("r", "a") := Views.Foreign]))

  lemma TeamsReady()
    ensures Ready(TEAMS, CLS) && Windows(CLS) && DeclaredReaders(TEAMS, Team("a", 20001, ["r"])) == {"r"}
  {
    var ro, a := TEAMS, Team("a", 20001, ["r"]);
    assert ro.groups == [a, R] && GroupKey(a) == "a" && GroupKey(R) == "r" && ro.groups[1] == R;
    assert a.readers[0] == "r";
    forall n ensures n in DeclaredReaders(ro, a) <==> n == "r" {
      if n == "r" { assert R in ro.groups && Reads(ro.groups, "r", a); }
    }
  }

  lemma BlockedDue()
    ensures var g := Team("a", 20001, ["r"]); g in TEAMS.groups && !ReadersPossible(ENV, TEAMS, BLOCKED, g)
  {
    var ro, w, g := TEAMS, BLOCKED, Team("a", 20001, ["r"]);
    TeamsReady();
    assert ro.groups[0] == g;
    NotSeen(w.ns, w.folders, "a");
    ViewRounds.WantedDistinct(ro, g);
    assert "r" in Views.ReaderNames(Fits.WantedReaders(ro, g));
    var r :| r in Fits.WantedReaders(ro, g) && r.name == "r";
    assert !Views.PointClear(w.ns, "a", 20001, r);
  }

  lemma ForeignMountFails()
    ensures FailsByItself(ENV, TEAMS, BLOCKED)
    ensures var p := Views.Point("r", "a"); p in BLOCKED.ns.mounts && BLOCKED.ns.mounts[p] == Views.Foreign
  {
    BlockedAdmitted();
    BlockedDue();
    Executability.PlanExecutable(ENV, TEAMS, BLOCKED);
  }

  lemma BlockedAdmitted()
    ensures Admitted(ENV, TEAMS, BLOCKED)
  {
    TeamsReady();
    NoneTaken();
    GroupsOnly(ENV, TEAMS, BLOCKED);
  }

  lemma GroupsOnly(env: Env, ro: Roster, w: World)
    requires Ready(ro, env.cls) && Windows(env.cls) && !env.deps.posixOnly && Views.Wf(w.ns)
    requires ro.users == [] && forall g :: g in ro.groups ==> !GroupRefused(w, g)
    ensures Admitted(env, ro, w)
  {
    RefusalFree(env, ro, w);
  }

  lemma NoneTaken()
    ensures TEAMS.users == [] && forall g :: g in TEAMS.groups ==> !GroupRefused(BLOCKED, g)
  {
    assert TEAMS.groups == [Team("a", 20001, ["r"]), R];
  }

  // --- a declared group is its member's primary group ---

  const STAFF := Roster({}, [TeamOf("t", ["ann"], [])], [ANN])

  const PRIMARY := Bare(map["ann" := System.Account(10001, 20001, "", true)], map["t" := GroupEntry(20001, {}, [])])

  /** A run goes through without a refusal or a failure, and, as everywhere where a primary group is in the
      way, no number of such runs ends in sync. */
  lemma PrimaryNeverClean(fs: seq<nat -> set<nat>>)
    ensures Clean(ENV, STAFF, PRIMARY, NoFaults()) && !Rounds.PrimariesClear(STAFF, PRIMARY)
    ensures fs != [] && Rounds.AllClean(ENV, STAFF, PRIMARY, fs) ==>
              !InSync(ENV.host, ENV.cls, STAFF, Rounds.AfterRounds(ENV, STAFF, PRIMARY, fs))
  {
    PrimaryCase();
    SmallRuns(ENV, STAFF, PRIMARY);
    if fs != [] && Rounds.AllClean(ENV, STAFF, PRIMARY, fs) { Rounds.NeverConverges(ENV, STAFF, PRIMARY, fs); }
  }

  lemma PrimaryCase()
    ensures SmallCase(ENV, STAFF, PRIMARY) && !Rounds.PrimariesClear(STAFF, PRIMARY)
    ensures (forall u :: !NewUser(STAFF, PRIMARY, u)) && ENV.deps.seed
    ensures forall g :: g in STAFF.groups ==> OwnersExist(ENV, STAFF, PRIMARY, g)
  {
    var ro, w, t := STAFF, PRIMARY, TeamOf("t", ["ann"], []);
    assert ro.users == [ANN] && ro.groups == [t] && t in ro.groups && ANN in ro.users;
    assert GroupMembership(ro.users, t)[0] == "ann";
    assert "t" in DeclaredGroups(ro, "ann");
  }

  // --- a refused group is changed ---

  const WHEEL := TeamOf("wheel", ["ann"], ["ann"])

  const TAKEN := Roster({}, [WHEEL], [ANN])

  const SYSTEM := Bare(map["ann" := System.Account(10001, 10001, "", true)],
                       map["wheel" := GroupEntry(10, {"root"}, ["root"]), "ann" := GroupEntry(10001, {}, [])])

  /** The declared group has the name of one outside the managed range. It is refused, and the same run puts
      its declared member into the other and makes its declared owner the only administrator there. */
  lemma RefusedYetChanged()
    ensures Refuses(PlanOf(ENV, TAKEN, SYSTEM), RefuseGroup, "wheel")
    ensures ENV.cls.Gid(SYSTEM.groups["wheel"].gid) != Managed
    ensures var e := Safety.Turn(ENV, TAKEN, SYSTEM, NoFaults()).groups;
            "wheel" in e && e["wheel"] == GroupEntry(10, {"root", "ann"}, ["ann"])
  {
    TakenReady();
    GroupRefusedExactly(ENV, TAKEN, SYSTEM, WHEEL);
    TakenMembers();
    TakenAdmins();
  }

  lemma TakenMembers()
    ensures var e := Safety.Turn(ENV, TAKEN, SYSTEM, NoFaults()).groups;
            "wheel" in e && e["wheel"].gid == 10 && e["wheel"].members == {"root", "ann"}
  {
    TakenReady();
    TakenJoined();
    OneJoins(ENV, TAKEN, SYSTEM, "wheel", "ann");
  }

  lemma TakenAdmins()
    ensures var e := Safety.Turn(ENV, TAKEN, SYSTEM, NoFaults()).groups; "wheel" in e && e["wheel"].admins == ["ann"]
  {
    TakenReady();
    TakenJoined();
    Standing.OwnersEnd(ENV, TAKEN, SYSTEM, WHEEL);
    assert WHEEL.owners == ["ann"] && SortBy(Self, ["ann"]) == ["ann"];
  }

  /** Where usermod is run for one user only, and given the group. */
  lemma OneJoins(env: Env, ro: Roster, w: World, g: Name, n: Name)
    requires Ready(ro, env.cls) && Windows(env.cls) && g in w.groups
    requires forall m :: Standing.RejoinedIn(env, ro, w, ro.users, m) <==> m == n
    requires g in GroupsFor(env, ro, w, n)
    ensures var e := Safety.Turn(env, ro, w, NoFaults()).groups;
            g in e && e[g].gid == w.groups[g].gid && e[g].members == w.groups[g].members + {n}
  {
    IsMember(env, ro, w, g, n, n);
    var now := Safety.Turn(env, ro, w, NoFaults()).groups[g].members;
    forall m ensures m in now <==> m in w.groups[g].members || m == n { IsMember(env, ro, w, g, n, m); }
    OneMore(w.groups[g].members, now, n);
  }

  lemma OneMore(was: set<Name>, now: set<Name>, n: Name)
    requires forall m :: m in now <==> m in was || m == n
    ensures now == was + {n}
  {
  }

  lemma IsMember(env: Env, ro: Roster, w: World, g: Name, n: Name, m: Name)
    requires Ready(ro, env.cls) && Windows(env.cls) && g in w.groups
    requires Standing.RejoinedIn(env, ro, w, ro.users, m) <==> m == n
    requires g in GroupsFor(env, ro, w, n)
    ensures var e := Safety.Turn(env, ro, w, NoFaults()).groups;
            g in e && e[g].gid == w.groups[g].gid && (m in e[g].members <==> m in w.groups[g].members || m == n)
  {
    Standing.MembersEnd(env, ro, w, g, m);
  }

  lemma TakenReady()
    ensures Ready(TAKEN, CLS) && Windows(CLS) && WHEEL in TAKEN.groups && GroupRefused(SYSTEM, WHEEL)
  {
    var ro := TAKEN;
    assert ro.users == [ANN] && ro.groups == [WHEEL] && WHEEL in ro.groups;
    SmallReady(ro);
  }

  lemma TakenJoined()
    ensures forall m :: Standing.RejoinedIn(ENV, TAKEN, SYSTEM, TAKEN.users, m) <==> m == "ann"
    ensures "wheel" in GroupsFor(ENV, TAKEN, SYSTEM, "ann")
    ensures Standing.AdminsSet(ENV, TAKEN, SYSTEM, WHEEL)
  {
    var ro, w := TAKEN, SYSTEM;
    assert ro.users == [ANN] && ro.groups == [WHEEL] && WHEEL in ro.groups && ANN in ro.users;
    assert GroupMembership(ro.users, WHEEL)[0] == "ann";
    assert DeclaredGroups(ro, "ann") == {"wheel"};
    assert Standing.Rejoined(ENV, ro, w, ANN);
    forall o | o in WHEEL.owners ensures o in w.users { assert WHEEL.owners == ["ann"]; }
  }

  // --- a refused group is stood in for by a private one ---

  const BEN := User("ben", 10002, "", Active, "", None, Some(false))

  const STAND_IN := Roster({}, [TeamOf("ann", ["ben"], [])], [ANN, BEN])

  const CROWDED := Bare(map["ben" := System.Account(10002, 10002, "", true)], map["x" := GroupEntry(20001, {}, [])])

  lemma StandInReady()
    ensures Ready(STAND_IN, CLS) && Windows(CLS)
    ensures forall u :: u in STAND_IN.users <==> u == ANN || u == BEN
    ensures forall g :: g in STAND_IN.groups <==> g == TeamOf("ann", ["ben"], [])
  {
    var ro := STAND_IN;
    assert ro.users == [ANN, BEN] && ro.users[0] == ANN && ro.users[1] == BEN;
    assert UserKey(ANN) == "ann" && UserKey(BEN) == "ben";
    assert ro.groups == [TeamOf("ann", ["ben"], [])] && ro.groups[0] == TeamOf("ann", ["ben"], []);
  }

  lemma StandInGroups(n: Name)
    ensures DeclaredGroups(STAND_IN, n) == if n == "ben" then {"ann"} else {}
  {
    StandInReady();
    var ro, t := STAND_IN, TeamOf("ann", ["ben"], []);
    assert GroupMembership(ro.users, t) == ["ben"] && GroupMembership(ro.users, t)[0] == "ben" && t in ro.groups;
  }

  /** The account ann is made, and the group of its name is its private one. */
  lemma StandInBorn()
    ensures Standing.BornHere(STAND_IN, CROWDED, ANN) && !Standing.Made(STAND_IN, CROWDED, "ann")
    ensures GroupRefused(CROWDED, TeamOf("ann", ["ben"], []))
  {
    StandInReady();
    var w := CROWDED;
    assert "x" in w.groups && w.groups["x"].gid == 20001;
    assert GidInUse(w.groups, 20001) && !GidInUse(w.groups, 10001);
  }

  lemma StandInJoined()
    ensures Standing.RejoinedIn(ENV, STAND_IN, CROWDED, STAND_IN.users, "ben")
    ensures "ben" in CROWDED.users && Standing.NewForeign(ENV, STAND_IN, CROWDED, "ben", "ann")
    ensures ExtraMemberships(CROWDED, ENV.cls, "ben") == {}
  {
    StandInReady();
    StandInGroups("ben");
    StandInBorn();
    assert !Less("ben", "ann");
    assert "ann" in DeclaredGroups(STAND_IN, "ben");
    assert Standing.Available(STAND_IN, CROWDED, BEN, "ann");
    assert Standing.Rejoined(ENV, STAND_IN, CROWDED, BEN);
  }

  /** The declared group ann is refused, its gid being held. In the same run the account ann is made with a
      private group, not managed, and the group's declared member is put into that: no group of that name was
      there outside the managed range, and the membership gained is. */
  lemma StandInGained()
    ensures Refuses(PlanOf(ENV, STAND_IN, CROWDED), RefuseGroup, "ann") && "ann" !in CROWDED.groups
    ensures ExtraMemberships(CROWDED, ENV.cls, "ben") == {}
    ensures "ann" in ExtraMemberships(Safety.Turn(ENV, STAND_IN, CROWDED, NoFaults()), ENV.cls, "ben")
  {
    StandInReady();
    StandInBorn();
    StandInJoined();
    StandInGroups("ben");
    GroupRefusedExactly(ENV, STAND_IN, CROWDED, TeamOf("ann", ["ben"], []));
    Standing.ForeignEnds(ENV, STAND_IN, CROWDED, "ben", "ann");
  }
}
