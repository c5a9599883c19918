/** Reconcile as it runs: loops over the sorted roster that append actions (internal/reconcile/reconcile.go). */
module Reconciler {
  import opened Common
  import opened Names
  import opened IdRange
  import opened Roster
  import opened Validation
  import opened System
  import opened Reconcile
  import Views

  // --- helpers over lists ---

  ghost predicate Ordered(s: seq<Name>) {
    forall i, j :: 0 <= i < j < |s| ==> s[i] == s[j] || Less(s[i], s[j])
  }

  lemma SetOfAppend(s: seq<Name>, x: Name)
    ensures SetOf(s + [x]) == SetOf(s) + {x}
  {
  }

  /** dedupSorted: drop repeats from a sorted list, in place; the first n elements are what is left. */
  method DedupSorted(a: array<Name>) returns (n: nat)
    requires Ordered(a[..])
    modifies a
    ensures n <= a.Length && Ascending(Self, a[..n]) && SetOf(a[..n]) == SetOf(old(a[..]))
  {
    n := 0;
    ghost var was := a[..];
    for i := 0 to a.Length
      invariant n <= i && a[i..] == was[i..]
      invariant Ascending(Self, a[..n]) && SetOf(a[..n]) == SetOf(was[..i])
      invariant i > 0 ==> a[i - 1] == was[i - 1]
    {
      assert a[i] == was[i];
      if i == 0 || a[i] != a[i - 1] {
        ghost var kept := a[..n];
        KeptNext(was, i, kept);
        a[n] := a[i];
        n := n + 1;
        assert a[..n] == kept + [was[i]];
      } else {
        Repeated(was, i);
      }
      assert a[i + 1..] == was[i + 1..];
    }
    assert was[..a.Length] == was;
  }

  /** In a sorted list a value unlike its predecessor is above everything kept so far. */
  lemma KeptAbove(was: seq<Name>, i: nat, kept: seq<Name>)
    requires i < |was| && Ordered(was)
    requires SetOf(kept) == SetOf(was[..i]) && Ascending(Self, kept)
    requires i == 0 || was[i] != was[i - 1]
    ensures Ascending(Self, kept + [was[i]])
  {
    forall k | 0 <= k < |kept| ensures Less(kept[k], was[i]) {
      assert kept[k] in SetOf(kept);
      var j :| 0 <= j < i && was[j] == kept[k];
      if j < i - 1 && was[j] != was[i - 1] { LessTransitive(was[j], was[i - 1], was[i]); }
    }
  }

  lemma KeptNext(was: seq<Name>, i: nat, kept: seq<Name>)
    requires i < |was| && Ordered(was)
    requires SetOf(kept) == SetOf(was[..i]) && Ascending(Self, kept)
    requires i == 0 || was[i] != was[i - 1]
    ensures Ascending(Self, kept + [was[i]]) && SetOf(kept + [was[i]]) == SetOf(was[..i + 1])
  {
    KeptAbove(was, i, kept);
    SetOfAppend(kept, was[i]);
    SetOfAppend(was[..i], was[i]);
    assert was[..i + 1] == was[..i] + [was[i]];
  }

  lemma Repeated(was: seq<Name>, i: nat)
    requires 0 < i < |was| && was[i] == was[i - 1]
    ensures SetOf(was[..i + 1]) == SetOf(was[..i])
  {
    SetOfAppend(was[..i], was[i]);
    assert was[..i + 1] == was[..i] + [was[i]];
    assert was[..i][i - 1] == was[i];
  }

  /** A sorted copy of a list. */
  method SortedCopy(s: seq<Name>) returns (a: array<Name>)
    ensures fresh(a) && a[..] == SortBy(Self, s) && Ordered(a[..])
    ensures SetOf(a[..]) == SetOf(s)
  {
    var q := SortBy(Self, s);
    SortByOrdered(s);
    SortByMembers(Self, s);
    assert SetOf(q) == SetOf(s);
    a := new Name[|q|](i requires 0 <= i < |q| => q[i]);
    assert a[..] == q;
  }

  lemma {:induction false} InsertOrdered(x: Name, s: seq<Name>)
    requires Ordered(s)
    ensures Ordered(InsertBy(Self, x, s))
  {
    if s != [] {
      if Less(s[0], x) {
        InsertOrdered(x, s[1..]);
        InsertByMembers(Self, x, s[1..]);
        forall y | y in InsertBy(Self, x, s[1..]) ensures s[0] == y || Less(s[0], y) {}
      } else {
        LessTotal(s[0], x);
        forall y | y in s ensures x == y || Less(x, y) {
          if x != s[0] && y != s[0] { LessTransitive(x, s[0], y); }
        }
      }
    }
  }

  lemma {:induction false} SortByOrdered(s: seq<Name>)
    ensures Ordered(SortBy(Self, s))
  {
    if s != [] {
      SortByOrdered(s[1..]);
      InsertOrdered(s[0], SortBy(Self, s[1..]));
    }
  }

  /** The set of a list, as the ascending first part of an array. */
  method Canonical(s: seq<Name>) returns (a: array<Name>, n: nat)
    ensures fresh(a) && n <= a.Length && a[..n] == SortedNames(SetOf(s))
  {
    a := SortedCopy(s);
    n := DedupSorted(a);
    SortedNamesIs(a[..n], SetOf(s));
  }

  /** sameGroupSet: two lists, compared as sets by sorting and deduplicating both. */
  method SameGroupSet(a: seq<Name>, b: seq<Name>) returns (same: bool)
    ensures same <==> SetOf(a) == SetOf(b)
  {
    var x, m := Canonical(a);
    var y, n := Canonical(b);
    assert SetOf(x[..m]) == SetOf(a) && SetOf(y[..n]) == SetOf(b);
    if m != n { return false; }
    for i := 0 to m
      invariant forall k :: 0 <= k < i ==> x[k] == y[k]
    {
      if x[i] != y[i] {
        assert x[..m][i] != y[..n][i];
        return false;
      }
    }
    assert x[..m] == y[..n];
    return true;
  }

  /** mergeGroups: the sorted union, built through a seen-set. */
  method MergeGroups(desired: seq<Name>, preserved: seq<Name>) returns (out: seq<Name>)
    ensures out == Reconcile.MergeGroups(desired, SetOf(preserved))
  {
    var seen: set<Name> := {};
    out := [];
    for i := 0 to |desired|
      invariant seen == SetOf(out) == SetOf(desired[..i]) && Distinct(Self, out)
    {
      assert desired[..i + 1] == desired[..i] + [desired[i]];
      if desired[i] !in seen {
        AppendDistinct(out, desired[i]);
        seen, out := seen + {desired[i]}, out + [desired[i]];
      }
    }
    assert desired[..|desired|] == desired;
    for i := 0 to |preserved|
      invariant seen == SetOf(out) == SetOf(desired) + SetOf(preserved[..i]) && Distinct(Self, out)
    {
      assert preserved[..i + 1] == preserved[..i] + [preserved[i]];
      if preserved[i] !in seen {
        AppendDistinct(out, preserved[i]);
        seen, out := seen + {preserved[i]}, out + [preserved[i]];
      }
    }
    assert preserved[..|preserved|] == preserved;
    SortByAscending(Self, out);
    SortByMembers(Self, out);
    ghost var s := SetOf(out);
    out := SortBy(Self, out);
    assert SetOf(out) == s;
    SortedNamesIs(out, s);
  }

  lemma AppendDistinct(s: seq<Name>, x: Name)
    requires Distinct(Self, s) && x !in SetOf(s)
    ensures Distinct(Self, s + [x]) && SetOf(s + [x]) == SetOf(s) + {x}
  {
    forall i | 0 <= i < |s| ensures s[i] != x { assert s[i] in SetOf(s); }
  }

  /** resolveReaders: readers with a gid, once each, sorted by name. */
  method ResolveReaders(names: seq<Name>, gidOf: map<Name, Id>) returns (out: seq<Views.Reader>)
    ensures out == Reconcile.ResolveReaders(names, gidOf)
  {
    var seen: seq<Name> := [];
    out := [];
    for i := 0 to |names|
      invariant SetOf(seen) == (set n | n in names[..i] && n in gidOf) && Distinct(Self, seen)
      invariant |out| == |seen| && forall k :: 0 <= k < |seen| ==>
                  seen[k] in gidOf && out[k] == Views.Reader(seen[k], gidOf[seen[k]])
    {
      assert names[..i + 1] == names[..i] + [names[i]];
      if names[i] in gidOf && names[i] !in seen {
        AppendDistinct(seen, names[i]);
        seen, out := seen + [names[i]], out + [Views.Reader(names[i], gidOf[names[i]])];
      }
    }
    assert names[..|names|] == names;
    ResolvedSorted(seen, out, names, gidOf);
    out := SortBy(Views.ReaderKey, out);
  }

  lemma ResolvedSorted(seen: seq<Name>, rs: seq<Views.Reader>, names: seq<Name>, gidOf: map<Name, Id>)
    requires SetOf(seen) == (set n | n in names && n in gidOf) && Distinct(Self, seen)
    requires |rs| == |seen| && forall k :: 0 <= k < |seen| ==>
               seen[k] in gidOf && rs[k] == Views.Reader(seen[k], gidOf[seen[k]])
    ensures SortBy(Views.ReaderKey, rs) == Reconcile.ResolveReaders(names, gidOf)
  {
    var known := SortedNames(set n | n in names && n in gidOf);
    assert forall n :: n in known <==> n in SetOf(known);
    assert forall n :: n in seen <==> n in SetOf(seen);
    var want := PairUp(known, gidOf);
    forall i, j | 0 <= i < j < |rs| ensures Views.ReaderKey(rs[i]) != Views.ReaderKey(rs[j]) {
      assert Self(seen[i]) != Self(seen[j]);
    }
    forall i, j | 0 <= i < j < |want| ensures Less(Views.ReaderKey(want[i]), Views.ReaderKey(want[j])) {
      assert Less(Self(known[i]), Self(known[j]));
    }
    SortByAscending(Views.ReaderKey, rs);
    SortByMembers(Views.ReaderKey, rs);
    forall r ensures r in SortBy(Views.ReaderKey, rs) <==> r in want {
      SameReaders(seen, known, rs, want, gidOf, r);
    }
    AscendingUnique(Views.ReaderKey, SortBy(Views.ReaderKey, rs), want);
  }

  lemma SameReaders(seen: seq<Name>, known: seq<Name>, rs: seq<Views.Reader>, want: seq<Views.Reader>,
                    gidOf: map<Name, Id>,
                    r: Views.Reader)
    requires forall n :: n in seen <==> n in known
    requires forall n :: n in known ==> n in gidOf
    requires |rs| == |seen| && forall k :: 0 <= k < |seen| ==>
               seen[k] in gidOf && rs[k] == Views.Reader(seen[k], gidOf[seen[k]])
    requires want == PairUp(known, gidOf)
    ensures r in rs <==> r in want
  {
    if r in rs {
      var k :| 0 <= k < |rs| && rs[k] == r;
      assert seen[k] in known;
      var j :| 0 <= j < |known| && known[j] == seen[k];
      assert want[j] == r;
    }
    if r in want {
      var j :| 0 <= j < |want| && want[j] == r;
      assert known[j] in seen;
      var k :| 0 <= k < |seen| && seen[k] == known[j];
      assert rs[k] == r;
    }
  }

  // --- indexes over the state and the roster ---

  /** The owner of each id in use. */
  ghost predicate UidIndex(st: State, owner: map<Id, Name>) {
    && (forall id :: id in owner <==> UidHeld(st, id))
    && forall id :: id in owner ==> owner[id] in st.users && st.users[owner[id]].uid == id
  }

  ghost predicate GidIndex(st: State, owner: map<Id, Name>) {
    && (forall n :: n in st.groups ==> st.groups[n].gid in owner)
    && forall id :: id in owner ==> owner[id] in st.groups && st.groups[owner[id]].gid == id
  }

  predicate HeldByOther(owner: map<Id, Name>, id: Id, name: Name) {
    id in owner && owner[id] != name
  }

  method IndexUids(st: State) returns (owner: map<Id, Name>)
    ensures UidIndex(st, owner)
  {
    owner := map[];
    var todo := st.users.Keys;
    while todo != {}
      invariant todo <= st.users.Keys
      invariant forall id :: id in owner ==> owner[id] in st.users && st.users[owner[id]].uid == id
      invariant forall n :: n in st.users && n !in todo ==> st.users[n].uid in owner
      decreases |todo|
    {
      var n :| n in todo;
      owner, todo := owner[st.users[n].uid := n], todo - {n};
    }
  }

  method IndexGids(st: State) returns (owner: map<Id, Name>)
    ensures GidIndex(st, owner)
  {
    owner := map[];
    var todo := st.groups.Keys;
    while todo != {}
      invariant todo <= st.groups.Keys
      invariant forall id :: id in owner ==> owner[id] in st.groups && st.groups[owner[id]].gid == id
      invariant forall n :: n in st.groups && n !in todo ==> st.groups[n].gid in owner
      decreases |todo|
    {
      var n :| n in todo;
      owner, todo := owner[st.groups[n].gid := n], todo - {n};
    }
  }

  /** The windows are apart, and every collected group is in the window for gids. Two groups may share a
      gid; the one the index then names depends on the map's order, but no answer does: the only use of
      the name is for a uid, which no managed group has for a gid. */
  ghost predicate Collected(st: State, cls: Classifier) {
    Windows(cls) && forall n :: n in st.groups ==> cls.Gid(st.groups[n].gid) == Managed
  }

  function Joined(m: map<Name, seq<Name>>, n: Name): seq<Name> {
    if n in m then m[n] else []
  }

  lemma {:induction false} HitsStep(members: seq<Name>, user: Name, group: Name, j: nat)
    requires j < |members|
    ensures Hits(members[..j + 1], user, group) ==
              Hits(members[..j], user, group) + if members[j] == user then [group] else []
    decreases |members|
  {
    if j == 0 {
      assert members[..1] == [members[0]] && members[..1][1..] == [] && members[..0] == [];
    } else {
      HitsStep(members[1..], user, group, j - 1);
      assert members[..j + 1][1..] == members[1..][..j] && members[..j][1..] == members[1..][..j - 1];
    }
  }

  lemma AddedStep(was: map<Name, seq<Name>>, m: map<Name, seq<Name>>, members: seq<Name>, group: Name, j: nat, n: Name)
    requires j < |members| && Joined(m, n) == Joined(was, n) + Hits(members[..j], n, group)
    ensures Joined(m[members[j] := Joined(m, members[j]) + [group]], n)
            == Joined(was, n) + Hits(members[..j + 1], n, group)
  {
    HitsStep(members, n, group, j);
    if n == members[j] {
      assert Joined(was, n) + Hits(members[..j], n, group) + [group]
          == Joined(was, n) + (Hits(members[..j], n, group) + [group]);
    }
  }

  /** One group's members: each gets the group appended. */
  method AddMembers(was: map<Name, seq<Name>>, members: seq<Name>, group: Name) returns (m: map<Name, seq<Name>>)
    ensures forall n :: Joined(m, n) == Joined(was, n) + Hits(members, n, group)
  {
    m := was;
    for j := 0 to |members|
      invariant forall n :: Joined(m, n) == Joined(was, n) + Hits(members[..j], n, group)
    {
      var next := m[members[j] := Joined(m, members[j]) + [group]];
      forall n ensures Joined(next, n) == Joined(was, n) + Hits(members[..j + 1], n, group) {
        AddedStep(was, m, members, group, j, n);
      }
      m := next;
    }
    assert members[..|members|] == members;
  }

  /** The groups' memberships, inverted into each user's groups. */
  method InvertMemberships(gs: seq<Group>, us: seq<User>) returns (m: map<Name, seq<Name>>)
    ensures forall n :: Joined(m, n) == UserGroups(gs, us, n)
  {
    m := map[];
    for i := 0 to |gs|
      invariant forall n :: Joined(m, n) == UserGroups(gs[..i], us, n)
    {
      var members := ComputeGroupMembership(us, gs[i]);
      forall n ensures UserGroups(gs[..i + 1], us, n) == UserGroups(gs[..i], us, n) + Hits(members, n, gs[i].name) {
        FlatStep(JoinedBy(us, n), gs, i);
      }
      m := AddMembers(m, members, gs[i].name);
    }
    assert gs[..|gs|] == gs;
  }

  // --- one entry ---

  method GroupStep(g: Group, st: State, cls: Classifier, gidOwner: map<Id, Name>) returns (acts: seq<Action>)
    requires GidIndex(st, gidOwner)
    ensures acts == GroupActions(st, cls)(g)
  {
    if cls.Gid(g.gid) != Managed { return [GroupAction(g, RefuseGroup, NotManaged)]; }
    if g.name !in st.groups {
      if g.name in st.allGroups { return [GroupAction(g, RefuseGroup, NameOutside)]; }
      if g.gid in gidOwner && gidOwner[g.gid] != g.name { return [GroupAction(g, RefuseGroup, IdHeld)]; }
      return [GroupAction(g, CreateGroup)];
    }
    if st.groups[g.name].gid != g.gid { return [GroupAction(g, RefuseGroup, IdDiffers)]; }
    if FolderDrifted(g, st.groups[g.name]) { return [GroupAction(g, CreateGroup)]; }
    return [];
  }

  /** adminsDrifted: both lists sorted, then compared. */
  method AdminsDiffer(want: seq<Name>, have: seq<Name>) returns (differ: bool)
    ensures differ <==> multiset(want) != multiset(have)
  {
    var a, b := SortBy(Self, want), SortBy(Self, have);
    SortByMultiset(Self, want);
    SortByMultiset(Self, have);
    SortByOrdered(want);
    SortByOrdered(have);
    differ := a != b;
    if multiset(a) == multiset(b) { OrderedUnique(a, b); }
  }

  lemma SameHead(a: seq<Name>, b: seq<Name>)
    requires Ordered(a) && Ordered(b) && multiset(a) == multiset(b) && a != []
    ensures b != [] && a[0] == b[0]
  {
    assert a[0] in multiset(a) && a[0] in b;
    assert b[0] in multiset(b) && b[0] in a;
    if a[0] != b[0] { LessAsymmetric(a[0], b[0]); }
  }

  lemma {:induction false} OrderedUnique(a: seq<Name>, b: seq<Name>)
    requires Ordered(a) && Ordered(b) && multiset(a) == multiset(b)
    ensures a == b
  {
    if a == [] {
      assert |multiset(b)| == 0;
    } else {
      SameHead(a, b);
      assert a == [a[0]] + a[1..] && b == [b[0]] + b[1..];
      assert multiset(a[1..]) == multiset(a) - multiset{a[0]} && multiset(b[1..]) == multiset(b) - multiset{b[0]};
      OrderedUnique(a[1..], b[1..]);
    }
  }

  method OwnerStep(g: Group, st: State, cls: Classifier) returns (acts: seq<Action>)
    ensures acts == OwnerActions(st, cls)(g)
  {
    if cls.Gid(g.gid) != Managed { return []; }
    var due := g.name !in st.groups && |g.owners| > 0;
    if g.name in st.groups && st.groups[g.name].adminsKnown {
      due := AdminsDiffer(g.owners, st.groups[g.name].admins);
    }
    if due { return [Action(SetGroupAdmins, g.name, g.gid, groups := g.owners)]; }
    return [];
  }

  method ReaderStep(g: Group, gs: seq<Group>, gidOf: map<Name, Id>, st: State, cls: Classifier)
    returns (acts: seq<Action>)
    ensures acts == ReaderActions(gs, gidOf, st, cls)(g)
  {
    if cls.Gid(g.gid) != Managed { return []; }
    var names := ComputeGroupReaders(gs, g);
    var want := ResolveReaders(names, gidOf);
    if g.name !in st.groups || !st.groups[g.name].readerViewsKnown {
      if |want| == 0 { return []; }
    } else if NamesOf(want) == st.groups[g.name].readerViews {
      return [];
    }
    return [Action(SetGroupReaders, g.name, g.gid, readers := want)];
  }

  method PresentStep(u: User, groups: seq<Name>, cur: UserState) returns (acts: seq<Action>)
    ensures acts == PresentUserActions(u, groups, cur)
  {
    acts := [];
    var current := Sorted(cur.groups);
    var same := SameGroupSet(groups, current);
    if !same {
      var extra := Sorted(cur.extraGroups);
      var merged := MergeGroups(groups, extra);
      acts := acts + [UserAction(u, UpdateUserGroups).(groups := merged)];
    }
    if HomeDrifted(u, cur) { acts := acts + [UserAction(u, EnsureHome)]; }
  }

  method ReconcileUser(u: User, groups: seq<Name>, st: State, cls: Classifier, uidOwner: map<Id, Name>,
                       gidOwner: map<Id, Name>)
    returns (acts: seq<Action>)
    requires UidIndex(st, uidOwner) && GidIndex(st, gidOwner) && Collected(st, cls)
    ensures acts == AccountActions(u, groups, st, cls)
  {
    if cls.Uid(u.uid) != Managed { return [UserAction(u, RefuseUser, NotManaged)]; }
    var present := u.name in st.users;
    if present && st.users[u.name].uid != u.uid { return [UserAction(u, RefuseUser, IdDiffers)]; }
    if !present && u.status != Reserved {
      if u.name in st.allUsers { return [UserAction(u, RefuseUser, NameOutside)]; }
      if u.name in st.allGroups && st.allGroups[u.name] != u.uid {
        return [UserAction(u, RefuseUser, PrivateGroupTaken)];
      }
      if HeldByOther(uidOwner, u.uid, u.name) { return [UserAction(u, RefuseUser, IdHeld)]; }
      if HeldByOther(gidOwner, u.uid, u.name) { return [UserAction(u, RefuseUser, PrivateGidHeld)]; }
    }
    if u.status == Reserved {
      if !present { return []; }
      return [UserAction(u, ReservedPresent)] + SmbActions(u, st);
    }
    if !present { return [CreateAction(u, groups, st)]; }
    acts := PresentStep(u, groups, st.users[u.name]);
    acts := acts + SmbActions(u, st);
  }

  // --- the whole plan ---

  method GroupPlans(ro: Roster, gs: seq<Group>, gidOf: map<Name, Id>, st: State, cls: Classifier,
                    gidOwner: map<Id, Name>)
    returns (out: seq<Action>, owners: seq<Action>, readers: seq<Action>)
    requires GidIndex(st, gidOwner)
    ensures out == Flat(GroupActions(st, cls), gs)
    ensures owners == Flat(OwnerActions(st, cls), gs)
    ensures readers == Flat(ReaderActions(ro.groups, gidOf, st, cls), gs)
  {
    out, owners, readers := [], [], [];
    for i := 0 to |gs|
      invariant out == Flat(GroupActions(st, cls), gs[..i])
      invariant owners == Flat(OwnerActions(st, cls), gs[..i])
      invariant readers == Flat(ReaderActions(ro.groups, gidOf, st, cls), gs[..i])
    {
      FlatStep(GroupActions(st, cls), gs, i);
      FlatStep(OwnerActions(st, cls), gs, i);
      FlatStep(ReaderActions(ro.groups, gidOf, st, cls), gs, i);
      var a := GroupStep(gs[i], st, cls, gidOwner);
      var b := OwnerStep(gs[i], st, cls);
      var c := ReaderStep(gs[i], ro.groups, gidOf, st, cls);
      out, owners, readers := out + a, owners + b, readers + c;
    }
    assert gs[..|gs|] == gs;
  }

  /** refusedUser. */
  method RefusedUser(acts: seq<Action>) returns (refused: bool)
    ensures refused <==> Refused(acts)
  {
    for k := 0 to |acts|
      invariant forall j :: 0 <= j < k ==> acts[j].kind != RefuseUser
    {
      if acts[k].kind == RefuseUser { return true; }
    }
    return false;
  }

  method UserStep(u: User, groups: seq<Name>, st: State, cls: Classifier, uidOwner: map<Id, Name>,
                  gidOwner: map<Id, Name>)
    returns (acts: seq<Action>)
    requires UidIndex(st, uidOwner) && GidIndex(st, gidOwner) && Collected(st, cls)
    ensures var account := AccountActions(u, groups, st, cls);
            acts == if Refused(account) then account else account + QuotaActions(u, st)
  {
    acts := ReconcileUser(u, groups, st, cls, uidOwner, gidOwner);
    var refused := RefusedUser(acts);
    if !refused { acts := acts + QuotaActions(u, st); }
  }

  method UserPlans(gs: seq<Group>, us: seq<User>, all: seq<User>, st: State, cls: Classifier,
                   uidOwner: map<Id, Name>, gidOwner: map<Id, Name>) returns (out: seq<Action>)
    requires UidIndex(st, uidOwner) && GidIndex(st, gidOwner) && Collected(st, cls)
    ensures out == Flat(UserActions(gs, all, st, cls), us)
  {
    var joined := InvertMemberships(gs, all);
    out := [];
    for i := 0 to |us|
      invariant out == Flat(UserActions(gs, all, st, cls), us[..i])
    {
      FlatStep(UserActions(gs, all, st, cls), us, i);
      var groups := Joined(joined, us[i].name);
      assert groups == UserGroups(gs, all, us[i].name);
      var acts := UserStep(us[i], groups, st, cls, uidOwner, gidOwner);
      out := out + acts;
    }
    assert us[..|us|] == us;
  }

  method OrphanGroups(names: seq<Name>, declared: set<Name>, st: State, cls: Classifier) returns (out: seq<Action>)
    ensures out == Flat(OrphanGroupActions(st, cls, declared), names)
  {
    out := [];
    for i := 0 to |names|
      invariant out == Flat(OrphanGroupActions(st, cls, declared), names[..i])
    {
      FlatStep(OrphanGroupActions(st, cls, declared), names, i);
      var n := names[i];
      if n !in declared && n in st.groups && cls.Gid(st.groups[n].gid) == Managed {
        out := out + [Action(OrphanGroup, n, st.groups[n].gid)];
      }
    }
    assert names[..|names|] == names;
  }

  method OrphanUserStep(n: Name, declared: set<Name>, st: State, cls: Classifier) returns (acts: seq<Action>)
    ensures acts == OrphanUserActions(st, cls, declared)(n)
  {
    if n in declared || n !in st.users || cls.Uid(st.users[n].uid) != Managed { return []; }
    acts := [Action(OrphanUser, n, st.users[n].uid)];
    if ValidName(n) && n in st.smb && st.smb[n] { acts := acts + [Action(DisableUser, n, st.users[n].uid)]; }
  }

  method OrphanUsers(names: seq<Name>, declared: set<Name>, st: State, cls: Classifier) returns (out: seq<Action>)
    ensures out == Flat(OrphanUserActions(st, cls, declared), names)
  {
    out := [];
    for i := 0 to |names|
      invariant out == Flat(OrphanUserActions(st, cls, declared), names[..i])
    {
      FlatStep(OrphanUserActions(st, cls, declared), names, i);
      var acts := OrphanUserStep(names[i], declared, st, cls);
      out := out + acts;
    }
    assert names[..|names|] == names;
  }

  method GidsOf(gs: seq<Group>) returns (gidOf: map<Name, Id>)
    ensures gidOf == GidTable(gs)
  {
    gidOf := map[];
    for i := 0 to |gs|
      invariant gidOf == GidTable(gs[..i])
    {
      assert gs[..i + 1][..i] == gs[..i];
      gidOf := gidOf[gs[i].name := gs[i].gid];
    }
    assert gs[..|gs|] == gs;
  }

  /** Reconcile: exactly the plan. */
  method ReconcileRoster(ro: Roster, st: State, cls: Classifier) returns (out: seq<Action>)
    requires Collected(st, cls)
    ensures out == Plan(ro, st, cls)
  {
    var gs, us := SortBy(GroupKey, ro.groups), SortBy(UserKey, ro.users);
    var gidOf := GidsOf(gs);
    var uidOwner := IndexUids(st);
    var gidOwner := IndexGids(st);
    var folders, owners, readers := GroupPlans(ro, gs, gidOf, st, cls, gidOwner);
    var users := UserPlans(gs, us, ro.users, st, cls, uidOwner, gidOwner);
    var groupNames := Sorted(st.groups.Keys);
    var orphanGroups := OrphanGroups(groupNames, KeysOf(GroupKey, ro.groups), st, cls);
    var userNames := Sorted(st.users.Keys);
    var orphanUsers := OrphanUsers(userNames, KeysOf(UserKey, ro.users), st, cls);
    out := folders + readers + users + owners + orphanGroups + orphanUsers;
  }
}
