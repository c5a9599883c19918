/** SetSupplementaryGroups without usermod: a diff applied one membership at a time
    (internal/provider/busybox.go). */
module Busybox {
  import opened Common
  import opened Names
  import opened Validation
  import opened System
  import opened Executor

  /** addgroup user group, delgroup user group. */
  function Joined(groups: map<Name, GroupEntry>, user: Name, g: Name): map<Name, GroupEntry> {
    if g in groups then groups[g := groups[g].(members := groups[g].members + {user})] else groups
  }

  function Left(groups: map<Name, GroupEntry>, user: Name, g: Name): map<Name, GroupEntry> {
    if g in groups then groups[g := groups[g].(members := groups[g].members - {user})] else groups
  }

  ghost predicate In(groups: map<Name, GroupEntry>, user: Name, g: Name) {
    g in groups && user in groups[g].members
  }

  /** The same groups, but for who of them lists the user. */
  ghost predicate SameBut(a: map<Name, GroupEntry>, b: map<Name, GroupEntry>, user: Name) {
    && a.Keys == b.Keys
    && forall g :: g in a ==>
      b[g].gid == a[g].gid && b[g].admins == a[g].admins && b[g].members - {user} == a[g].members - {user}
  }

  /** What a scan shows the user in: not the groups of its primary gid. */
  function Current(groups: map<Name, GroupEntry>, users: map<Name, Account>, user: Name): set<Name> {
    if user !in users then {}
    else set g | g in groups && user in groups[g].members && groups[g].gid != users[user].gid
  }

  /** The group is to be joined, and cannot be. */
  ghost predicate Fails(groups: map<Name, GroupEntry>, users: map<Name, Account>, user: Name, desired: set<Name>,
                        g: Name) {
    g in desired && g !in Current(groups, users, user) && ValidName(g) && !(user in users && g in groups)
  }

  lemma NotBefore(names: seq<Name>, i: nat)
    requires Ascending(Self, names) && i < |names|
    ensures forall k :: i <= k < |names| ==> !Less(names[k], names[i])
  {
    forall k | i <= k < |names| ensures !Less(names[k], names[i]) {
      assert i < k ==> Less(Self(names[i]), Self(names[k]));
      if Less(names[k], names[i]) { LessAsymmetric(names[k], names[i]); }
    }
  }

  lemma FailsFirst(groups: map<Name, GroupEntry>, next: map<Name, GroupEntry>, users: map<Name, Account>, user: Name,
                   desired: set<Name>, add: seq<Name>, i: nat)
    requires add == SortedNames(desired - Current(groups, users, user)) && i < |add| && SameBut(groups, next, user)
    requires forall k :: 0 <= k < i && ValidName(add[k]) ==> user in users && add[k] in groups
    requires ValidName(add[i]) && !(user in users && add[i] in groups)
    requires forall g :: g in groups ==>
               (In(next, user, g) <==> In(groups, user, g) || (ValidName(g) && g in add[..i]))
    ensures Fails(groups, users, user, desired, add[i])
    ensures forall g :: Less(g, add[i]) ==> !Fails(groups, users, user, desired, g)
    ensures forall g :: g in groups ==>
              (In(next, user, g) <==> In(groups, user, g) || (Less(g, add[i]) && ValidName(g) && g in desired))
  {
    var adds := desired - Current(groups, users, user);
    assert SetOf(add) == adds && add[i] in SetOf(add);
    forall g ensures g in add[..i] <==> g in adds && Less(g, add[i]) {
      if g in add[..i] {
        var k :| 0 <= k < i && add[k] == g;
        assert g in SetOf(add) && Less(Self(add[k]), Self(add[i]));
      }
      if g in adds && Less(g, add[i]) {
        assert g in SetOf(add);
        var k :| 0 <= k < |add| && add[k] == g;
        NotBefore(add, i);
      }
    }
    forall g | g in groups && g in desired && g !in adds ensures In(groups, user, g) {}
  }

  /** The diff, in sorted order, skipping names that are not safe as arguments. A command naming a user or a
      group that does not exist fails and ends the run; the groups before it have been joined by then. */
  method SetSupplementaryGroups(groups: map<Name, GroupEntry>, users: map<Name, Account>, user: Name, want: seq<Name>)
    returns (next: map<Name, GroupEntry>, ok: bool)
    ensures ok <==> forall g :: g in want && g !in Current(groups, users, user) && ValidName(g) ==>
                                  user in users && g in groups
    ensures SameBut(groups, next, user)
    ensures ok ==> forall g :: g in groups ==>
                     (In(next, user, g) <==> After(groups, users, user, SetOf(want), g))
    ensures !ok ==> exists bad ::
                      && Fails(groups, users, user, SetOf(want), bad)
                      && (forall g :: Less(g, bad) ==> !Fails(groups, users, user, SetOf(want), g))
                      && forall g :: g in groups ==>
                           (In(next, user, g) <==>
                            In(groups, user, g) || (Less(g, bad) && ValidName(g) && g in want))
  {
    var current, desired := Current(groups, users, user), SetOf(want);
    var add := Sorted(desired - current);
    var remove := Sorted(current - desired);
    ghost var adds, removes := desired - current, current - desired;
    assert forall g :: g in add <==> g in SetOf(add);
    assert forall g :: g in remove <==> g in SetOf(remove);
    next := groups;
    for i := 0 to |add|
      invariant SameBut(groups, next, user)
      invariant forall k :: 0 <= k < i && ValidName(add[k]) ==> user in users && add[k] in groups
      invariant forall g :: g in groups ==>
                  (In(next, user, g) <==> In(groups, user, g) || (ValidName(g) && g in add[..i]))
    {
      assert add[..i + 1] == add[..i] + [add[i]];
      if ValidName(add[i]) {
        if user !in users || add[i] !in next {
          FailsFirst(groups, next, users, user, desired, add, i);
          return next, false;
        }
        next := Joined(next, user, add[i]);
      }
    }
    assert add[..|add|] == add;
    for i := 0 to |remove|
      invariant SameBut(groups, next, user)
      invariant forall g :: g in groups ==>
                  (In(next, user, g) <==> (In(groups, user, g) || (ValidName(g) && g in adds))
                                          && !(ValidName(g) && g in remove[..i]))
    {
      assert remove[..i + 1] == remove[..i] + [remove[i]];
      if ValidName(remove[i]) {
        assert remove[i] in removes;
        next := Left(next, user, remove[i]);
      }
    }
    assert remove[..|remove|] == remove;
    ok := true;
    forall g | g in want && g !in current && ValidName(g) ensures user in users && g in groups {
      assert g in adds && g in SetOf(add);
      var k :| 0 <= k < |add| && add[k] == g;
    }
  }

  /** Where the diff leaves the user. */
  ghost predicate After(groups: map<Name, GroupEntry>, users: map<Name, Account>, user: Name, desired: set<Name>,
                        g: Name) {
    if !ValidName(g) then In(groups, user, g)
    else if g in Current(groups, users, user) then g in desired
    else In(groups, user, g) || g in desired
  }

  /** Compared with usermod -G, which replaces the set: the same membership for every group with a safe
      name outside the user's primary gid, for any current and desired set; groups with unsafe names keep
      the user as they had it, and a primary group is never left. */
  lemma RefinesReplace(groups: map<Name, GroupEntry>, users: map<Name, Account>, user: Name, desired: set<Name>,
                       g: Name)
    requires user in users && g in groups
    ensures ValidName(g) && groups[g].gid != users[user].gid ==>
              (After(groups, users, user, desired, g) <==> In(ReplaceMemberships(groups, user, desired), user, g))
    ensures !ValidName(g) ==> (After(groups, users, user, desired, g) <==> In(groups, user, g))
    ensures ValidName(g) && groups[g].gid == users[user].gid ==>
              (After(groups, users, user, desired, g) <==> In(groups, user, g) || g in desired)
  {
  }

  /** So where all names are safe the supplementary groups a scan reports afterwards are those desired. */
  lemma ScansAsDesired(groups: map<Name, GroupEntry>, next: map<Name, GroupEntry>, users: map<Name, Account>,
                       user: Name,
                       desired: set<Name>)
    requires user in users && SameBut(groups, next, user) && desired <= groups.Keys
    requires forall g :: g in groups ==> ValidName(g) && (In(next, user, g) <==> After(groups, users, user, desired, g))
    ensures Current(next, users, user) == set g | g in desired && groups[g].gid != users[user].gid
  {
    forall g ensures g in Current(next, users, user) <==> g in desired && groups[g].gid != users[user].gid {
      if g in groups { RefinesReplace(groups, users, user, desired, g); }
    }
  }
}
