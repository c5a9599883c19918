/** The declared state: users, groups, readers and memberships (internal/roster/roster.go). */
module Roster {
  import opened Common
  import opened Names
  import opened IdRange

  datatype Status = Active | Disabled | Reserved

  datatype Anonymous = AnonNone | AnonRead | AnonWrite {
    /** The mode of a group's folder, setgid folded in as 0o2000: 02770, 02775 or 02777. */
    function FolderPerm(): nat {
      match this
      case AnonNone => 1528
      case AnonRead => 1533
      case AnonWrite => 1535
    }
  }

  /** A whole cohort as a membership: everyone active, or one profile's active users. */
  datatype All = All(everyone: bool, profile: Name) {
    predicate IsSet() { everyone || profile != "" }
  }

  datatype Group = Group(
    name: Name, gid: Id, description: string, owners: seq<Name>, readers: seq<Name>,
    anonymous: Anonymous, members: seq<Name>, all: All, readAll: bool, readAllExempt: bool)

  datatype User = User(
    name: Name, uid: Id, fullName: string, status: Status, profile: Name,
    quota: Option<Bytes>, home: Option<bool>)
  {
    predicate WantsHome() { home.None? || home.value }

    function EffectiveProfile(): Name { if profile != "" then profile else "default" }
  }

  datatype Roster = Roster(profiles: set<Name>, groups: seq<Group>, users: seq<User>)

  function GroupKey(g: Group): Name { g.name }

  function UserKey(u: User): Name { u.name }

  // --- who reads what ---

  /** read_all group r reads g without being named. */
  predicate ReadAllReaches(r: Group, g: Group) {
    r.readAll && r.name != g.name && g.anonymous == AnonNone && !g.readAllExempt
  }

  function AddReaders(out: seq<Name>, gs: seq<Group>, g: Group): seq<Name>
    decreases |gs|
  {
    if gs == [] then out
    else AddReaders(if ReadAllReaches(gs[0], g) && gs[0].name !in out then out + [gs[0].name] else out, gs[1..], g)
  }

  /** The groups that may read g's folder: declared ones, then every read_all group reaching it. */
  function GroupReaders(gs: seq<Group>, g: Group): seq<Name> {
    AddReaders(g.readers, gs, g)
  }

  method ComputeGroupReaders(gs: seq<Group>, g: Group) returns (out: seq<Name>)
    ensures out == GroupReaders(gs, g)
  {
    out := g.readers;
    for i := 0 to |gs|
      invariant AddReaders(out, gs[i..], g) == GroupReaders(gs, g)
    {
      assert gs[i..][1..] == gs[i + 1..];
      if ReadAllReaches(gs[i], g) && gs[i].name !in out {
        out := out + [gs[i].name];
      }
    }
    assert gs[|gs|..] == [];
  }

  /** r reads g: g lists it, or it is the name of another group that reads all, and g is neither anonymous
      nor exempt. */
  ghost predicate Reads(gs: seq<Group>, r: Name, g: Group) {
    || r in g.readers
    || (r != g.name && g.anonymous == AnonNone && !g.readAllExempt && exists x :: x in gs && x.name == r && x.readAll)
  }

  lemma {:induction false} AddReadersMembers(out: seq<Name>, gs: seq<Group>, g: Group, r: Name)
    ensures r in AddReaders(out, gs, g) <==> r in out || exists x :: x in gs && x.name == r && ReadAllReaches(x, g)
    decreases |gs|
  {
    if gs != [] {
      var next := if ReadAllReaches(gs[0], g) && gs[0].name !in out then out + [gs[0].name] else out;
      AddReadersMembers(next, gs[1..], g, r);
      assert gs == [gs[0]] + gs[1..];
    }
  }

  /** GroupReaders resolves the reader relation exactly. */
  lemma GroupReadersExact(gs: seq<Group>, g: Group, r: Name)
    ensures r in GroupReaders(gs, g) <==> Reads(gs, r, g)
  {
    AddReadersMembers(g.readers, gs, g, r);
  }

  /** An exempt group and an anonymous one have the readers they list, and no others. */
  lemma {:induction false} OnlyListed(gs: seq<Group>, g: Group)
    requires g.readAllExempt || g.anonymous != AnonNone
    ensures GroupReaders(gs, g) == g.readers
    decreases |gs|
  {
    if gs != [] { OnlyListed(gs[1..], g); }
  }

  /** The names, in roster order, of the other groups that read all and are not listed. */
  function Unlisted(gs: seq<Group>, g: Group): seq<Name> {
    if gs == [] then []
    else
      (if gs[0].readAll && gs[0].name != g.name && gs[0].name !in g.readers then [gs[0].name] else [])
      + Unlisted(gs[1..], g)
  }

  lemma {:induction false} AddedInOrder(out: seq<Name>, gs: seq<Group>, g: Group)
    requires g.anonymous == AnonNone && !g.readAllExempt && Distinct(GroupKey, gs)
    requires forall x :: x in gs ==> (x.name in out <==> x.name in g.readers)
    ensures AddReaders(out, gs, g) == out + Unlisted(gs, g)
    decreases |gs|
  {
    if gs != [] {
      var next := if ReadAllReaches(gs[0], g) && gs[0].name !in out then out + [gs[0].name] else out;
      forall x | x in gs[1..] ensures x.name != gs[0].name {
        var i :| 0 <= i < |gs[1..]| && gs[1..][i] == x;
        assert GroupKey(gs[0]) != GroupKey(gs[i + 1]);
      }
      AddedInOrder(next, gs[1..], g);
    }
  }

  /** Any other group has first the readers it lists, and then those, in roster order. */
  lemma ReadersInOrder(gs: seq<Group>, g: Group)
    requires Distinct(GroupKey, gs) && g.anonymous == AnonNone && !g.readAllExempt
    ensures GroupReaders(gs, g) == g.readers + Unlisted(gs, g)
  {
    AddedInOrder(g.readers, gs, g);
  }

  lemma {:induction false} AddReadersDistinct(out: seq<Name>, gs: seq<Group>, g: Group)
    requires Distinct(Self, out)
    ensures Distinct(Self, AddReaders(out, gs, g))
    decreases |gs|
  {
    if gs != [] {
      var next := if ReadAllReaches(gs[0], g) && gs[0].name !in out then out + [gs[0].name] else out;
      assert Distinct(Self, next);
      AddReadersDistinct(next, gs[1..], g);
    }
  }

  // --- who is a member ---

  predicate InCohort(u: User, all: All) {
    u.status == Active && (all.everyone || u.EffectiveProfile() == all.profile)
  }

  function CohortOf(all: All): User -> seq<Name> {
    (u: User) => if InCohort(u, all) then [u.name] else []
  }

  function Cohort(us: seq<User>, all: All): seq<Name> {
    Flat(CohortOf(all), us)
  }

  /** The accounts a group contains. */
  function GroupMembership(us: seq<User>, g: Group): seq<Name> {
    if g.all.IsSet() then Cohort(us, g.all) else g.members
  }

  method ComputeGroupMembership(us: seq<User>, g: Group) returns (out: seq<Name>)
    ensures out == GroupMembership(us, g)
  {
    if !g.all.IsSet() { return g.members; }
    out := [];
    for i := 0 to |us|
      invariant out == Cohort(us[..i], g.all)
    {
      FlatStep(CohortOf(g.all), us, i);
      if InCohort(us[i], g.all) {
        out := out + [us[i].name];
      }
    }
    assert us[..|us|] == us;
  }

  /** A group that selects everyone, or a profile, contains the active users it selects; a user without a
      profile has the one named default. Any other group contains the users it lists. */
  ghost predicate Contains(us: seq<User>, g: Group, n: Name) {
    if g.all.everyone || g.all.profile != "" then
      exists u :: && u in us && u.name == n && u.status == Active
                  && (g.all.everyone || g.all.profile == if u.profile == "" then "default" else u.profile)
    else n in g.members
  }

  lemma MembershipExact(us: seq<User>, g: Group, n: Name)
    ensures n in GroupMembership(us, g) <==> Contains(us, g, n)
  {
    CohortMembers(us, g.all, n);
    if g.all.IsSet() && Contains(us, g, n) {
      var u :| && u in us && u.name == n && u.status == Active
               && (g.all.everyone || g.all.profile == if u.profile == "" then "default" else u.profile);
      assert InCohort(u, g.all);
    }
  }

  /** A cohort keeps the order of the roster: its names are those of users at ascending places. */
  lemma {:induction false} CohortInOrder(us: seq<User>, all: All) returns (at: seq<nat>)
    ensures |at| == |Cohort(us, all)|
    ensures forall i :: 0 <= i < |at| ==> at[i] < |us| && us[at[i]].name == Cohort(us, all)[i]
    ensures forall i, j :: 0 <= i < j < |at| ==> at[i] < at[j]
    decreases |us|
  {
    if us == [] {
      at := [];
    } else {
      var n := |us| - 1;
      assert us == us[..n] + [us[n]];
      FlatAppend(CohortOf(all), us[..n], us[n]);
      at := CohortInOrder(us[..n], all);
      if InCohort(us[n], all) { at := at + [n]; }
    }
  }

  lemma CohortMembers(us: seq<User>, all: All, n: Name)
    ensures n in Cohort(us, all) <==> exists u :: u in us && u.name == n && InCohort(u, all)
  {
    FlatMember(CohortOf(all), us, n);
  }
}
