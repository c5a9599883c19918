/** The plan does not depend on the order in which the roster lists its groups and users. */
module OrderFree {
  import opened Common
  import opened Names
  import opened IdRange
  import opened Roster
  import opened Validation
  import opened System
  import opened Reconcile
  import opened Agreement
  import Views

  /** The same entries, each once, in any two orders. */
  ghost predicate Permuted(a: Roster, b: Roster) {
    && Distinct(GroupKey, a.groups) && Distinct(GroupKey, b.groups)
    && Distinct(UserKey, a.users) && Distinct(UserKey, b.users)
    && (forall g :: g in a.groups <==> g in b.groups) && (forall u :: u in a.users <==> u in b.users)
  }

  lemma SameReaders(a: Roster, b: Roster, gidOf: map<Name, Id>, g: Group)
    requires Permuted(a, b)
    ensures WantReaders(a.groups, gidOf, g) == WantReaders(b.groups, gidOf, g)
  {
    var na, nb := GroupReaders(a.groups, g), GroupReaders(b.groups, g);
    forall n ensures n in na <==> n in nb {
      GroupReadersExact(a.groups, g, n);
      GroupReadersExact(b.groups, g, n);
    }
    assert (set n | n in na && n in gidOf) == set n | n in nb && n in gidOf;
  }

  /** A member list without repetition gives the group once, or not at all. */
  lemma {:induction false} HitsOnce(members: seq<Name>, user: Name, group: Name)
    requires Distinct(Self, members)
    ensures Hits(members, user, group) == if user in members then [group] else []
  {
    if members != [] {
      HitsOnce(members[1..], user, group);
      assert members == [members[0]] + members[1..];
      assert Self(members[0]) == members[0];
    }
  }

  lemma {:induction false} CohortDistinct(us: seq<User>, all: All)
    requires Distinct(UserKey, us)
    ensures Distinct(Self, Cohort(us, all))
  {
    if us != [] {
      CohortDistinct(us[1..], all);
      var rest := Cohort(us[1..], all);
      forall n | n in rest ensures n != us[0].name {
        CohortMembers(us[1..], all, n);
        var u :| u in us[1..] && u.name == n;
        assert UserKey(u) != UserKey(us[0]);
      }
      if InCohort(us[0], all) {
        var whole := [us[0].name] + rest;
        assert Cohort(us, all) == whole;
        assert forall i :: 1 <= i < |whole| ==> whole[i] == rest[i - 1] && whole[i] in rest;
      } else {
        assert Cohort(us, all) == rest;
      }
    }
  }

  lemma SameJoined(a: Roster, b: Roster, user: Name, g: Group)
    requires Permuted(a, b)
    ensures JoinedBy(a.users, user)(g) == JoinedBy(b.users, user)(g)
  {
    if g.all.IsSet() {
      CohortDistinct(a.users, g.all);
      CohortDistinct(b.users, g.all);
      HitsOnce(Cohort(a.users, g.all), user, g.name);
      HitsOnce(Cohort(b.users, g.all), user, g.name);
      CohortMembers(a.users, g.all, user);
      CohortMembers(b.users, g.all, user);
    }
  }

  lemma SameUserGroups(a: Roster, b: Roster, gs: seq<Group>, user: Name)
    requires Permuted(a, b)
    ensures UserGroups(gs, a.users, user) == UserGroups(gs, b.users, user)
  {
    forall g ensures JoinedBy(a.users, user)(g) == JoinedBy(b.users, user)(g) { SameJoined(a, b, user, g); }
    FlatPointwise(JoinedBy(a.users, user), JoinedBy(b.users, user), gs);
  }

  lemma SameSorted(a: Roster, b: Roster)
    requires Permuted(a, b)
    ensures SortBy(GroupKey, a.groups) == SortBy(GroupKey, b.groups)
    ensures SortBy(UserKey, a.users) == SortBy(UserKey, b.users)
  {
    SortByPermuted(GroupKey, a.groups, b.groups);
    SortByPermuted(UserKey, a.users, b.users);
  }

  lemma SameReaderPart(a: Roster, b: Roster, st: State, cls: Classifier)
    requires Permuted(a, b)
    ensures ReaderPart(a, st, cls) == ReaderPart(b, st, cls)
  {
    SameSorted(a, b);
    var gs := SortBy(GroupKey, a.groups);
    var f, h := ReaderActions(a.groups, GidTable(gs), st, cls), ReaderActions(b.groups, GidTable(gs), st, cls);
    forall g ensures f(g) == h(g) { SameReaders(a, b, GidTable(gs), g); }
    FlatPointwise(f, h, gs);
  }

  lemma SameUserPart(a: Roster, b: Roster, st: State, cls: Classifier)
    requires Permuted(a, b)
    ensures UserPart(a, st, cls) == UserPart(b, st, cls)
  {
    SameSorted(a, b);
    var gs := SortBy(GroupKey, a.groups);
    var f, h := UserActions(gs, a.users, st, cls), UserActions(gs, b.users, st, cls);
    forall u ensures f(u) == h(u) { SameUserGroups(a, b, gs, u.name); }
    FlatPointwise(f, h, SortBy(UserKey, a.users));
  }

  lemma SameKeys<T(!new)>(key: T -> Name, a: seq<T>, b: seq<T>)
    requires forall x :: x in a <==> x in b
    ensures KeysOf(key, a) == KeysOf(key, b)
  {
    forall n ensures n in KeysOf(key, a) <==> n in KeysOf(key, b) {
      KeysOfExact(key, a, n);
      KeysOfExact(key, b, n);
    }
  }

  /** Permuting the roster's groups and users leaves the plan identical, action for action. */
  lemma PlanPermuted(a: Roster, b: Roster, st: State, cls: Classifier)
    requires Permuted(a, b)
    ensures Plan(a, st, cls) == Plan(b, st, cls)
  {
    SameSorted(a, b);
    SameReaderPart(a, b, st, cls);
    SameUserPart(a, b, st, cls);
    SameKeys(GroupKey, a.groups, b.groups);
    SameKeys(UserKey, a.users, b.users);
  }
}
