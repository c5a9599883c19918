/** Editing the roster file: the groups of a parsed document, changed in place (internal/roster/edit.go).
    A document's groups are a list of entries, each a list of key/value pairs in file order. */
module RosterEdit {
  import opened Common
  import opened Names

  datatype Value = Scalar(text: Name) | List(items: seq<Name>) | Nested

  datatype Pair = Pair(key: Name, value: Value)

  datatype Entry = Mapping(pairs: seq<Pair>) | NotMapping

  datatype Error = NoSuchGroup | NotEditable

  datatype Result<+T> = Ok(value: T) | Err(error: Error)

  // --- looking things up ---

  predicate Named(e: Entry, name: Name) {
    e.Mapping? && exists i :: 0 <= i < |e.pairs| && e.pairs[i] == Pair("name", Scalar(name))
  }

  /** The first entry of that name. */
  function IndexOf(gs: seq<Entry>, name: Name): Option<nat> {
    if gs == [] then None
    else if Named(gs[0], name) then Some(0)
    else match IndexOf(gs[1..], name) case None => None case Some(i) => Some(i + 1)
  }

  /** The first pair of that key. */
  function KeyAt(pairs: seq<Pair>, key: Name): Option<nat> {
    if pairs == [] then None
    else if pairs[0].key == key then Some(0)
    else match KeyAt(pairs[1..], key) case None => None case Some(i) => Some(i + 1)
  }

  lemma {:induction false} IndexOfExact(gs: seq<Entry>, name: Name)
    ensures match IndexOf(gs, name)
            case Some(i) => i < |gs| && Named(gs[i], name) && forall k :: 0 <= k < i ==> !Named(gs[k], name)
            case None => forall k :: 0 <= k < |gs| ==> !Named(gs[k], name)
  {
    if gs != [] && !Named(gs[0], name) {
      IndexOfExact(gs[1..], name);
      assert forall k :: 1 <= k < |gs| ==> gs[k] == gs[1..][k - 1];
    }
  }

  lemma {:induction false} KeyAtExact(pairs: seq<Pair>, key: Name)
    ensures match KeyAt(pairs, key)
            case Some(i) => i < |pairs| && pairs[i].key == key && forall k :: 0 <= k < i ==> pairs[k].key != key
            case None => forall k :: 0 <= k < |pairs| ==> pairs[k].key != key
  {
    if pairs != [] && pairs[0].key != key {
      KeyAtExact(pairs[1..], key);
      assert forall k :: 1 <= k < |pairs| ==> pairs[k] == pairs[1..][k - 1];
    }
  }

  /** membersOf: no key means no members; any value but a list is not the editor's to change. */
  function MembersOf(pairs: seq<Pair>): Result<seq<Name>> {
    match KeyAt(pairs, "members")
    case None => Ok([])
    case Some(i) =>
      KeyAtExact(pairs, "members");
      if pairs[i].value.List? then Ok(pairs[i].value.items) else Err(NotEditable)
  }

  function Members(gs: seq<Entry>, group: Name): Result<seq<Name>> {
    match IndexOf(gs, group)
    case None => Err(NoSuchGroup)
    case Some(i) => IndexOfExact(gs, group); MembersOf(gs[i].pairs)
  }

  // --- changing them ---

  /** The pairs with this member list: no key for an empty one, else the key where it was, or at the end. */
  function WithMembers(pairs: seq<Pair>, members: seq<Name>): seq<Pair> {
    match KeyAt(pairs, "members")
    case None => if members == [] then pairs else pairs + [Pair("members", List(members))]
    case Some(i) =>
      KeyAtExact(pairs, "members");
      if members == [] then pairs[..i] + pairs[i + 1..] else pairs[i := Pair("members", List(members))]
  }

  function Replaced(gs: seq<Entry>, group: Name, members: seq<Name>): Result<seq<Entry>> {
    match IndexOf(gs, group)
    case None => Err(NoSuchGroup)
    case Some(i) =>
      IndexOfExact(gs, group);
      if MembersOf(gs[i].pairs).Err? then Err(NotEditable)
      else Ok(gs[i := Mapping(WithMembers(gs[i].pairs, members))])
  }

  function Without(names: seq<Name>, name: Name): seq<Name> {
    if names == [] then [] else (if names[0] == name then [] else [names[0]]) + Without(names[1..], name)
  }

  datatype Op = Add(group: Name, user: Name) | Remove(group: Name, user: Name)

  /** The member list an edit wants. */
  function Wanted(op: Op, have: seq<Name>): seq<Name> {
    match op
    case Add(_, u) => if u in have then have else SortBy(Self, have + [u])
    case Remove(_, u) => if u in have then Without(have, u) else have
  }

  datatype Edit = Edit(changed: bool, groups: seq<Entry>)

  /** An edit of the groups; without a change nothing is rewritten. */
  function Edited(gs: seq<Entry>, op: Op): Result<Edit> {
    match Members(gs, op.group)
    case Err(e) => Err(e)
    case Ok(have) =>
      if Wanted(op, have) == have then Ok(Edit(false, gs))
      else match Replaced(gs, op.group, Wanted(op, have)) case Err(e) => Err(e) case Ok(next) => Ok(Edit(true, next))
  }

  lemma {:induction false} WithoutMembers(names: seq<Name>, name: Name)
    ensures forall n :: n in Without(names, name) <==> n in names && n != name
    ensures |Without(names, name)| < |names| <==> name in names
    ensures |Without(names, name)| <= |names|
  {
    if names != [] {
      WithoutMembers(names[1..], name);
      assert names == [names[0]] + names[1..];
    }
  }

  /** No name is listed after a greater one. */
  ghost predicate InOrder(names: seq<Name>) {
    forall i, j :: 0 <= i < j < |names| ==> !Less(names[j], names[i])
  }

  lemma {:induction false} InsertedInOrder(n: Name, names: seq<Name>)
    requires InOrder(names)
    ensures InOrder(InsertBy(Self, n, names))
  {
    if names != [] && Less(names[0], n) {
      InsertedInOrder(n, names[1..]);
      InsertByMembers(Self, n, names[1..]);
      var rest := InsertBy(Self, n, names[1..]);
      forall x | x in rest ensures !Less(x, names[0]) {
        if x == n { LessAsymmetric(names[0], n); }
      }
      assert forall i :: 0 <= i < |rest| ==> rest[i] in rest;
    } else if names != [] {
      forall x | x in names ensures !Less(x, n) {
        LessTotal(names[0], n);
        LessTotal(x, names[0]);
        if Less(x, n) && Less(n, names[0]) { LessTransitive(x, n, names[0]); }
      }
      assert forall i :: 0 <= i < |names| ==> names[i] in names;
    }
  }

  lemma {:induction false} SortedInOrder(names: seq<Name>)
    ensures InOrder(SortBy(Self, names))
  {
    if names != [] {
      SortedInOrder(names[1..]);
      InsertedInOrder(names[0], SortBy(Self, names[1..]));
    }
  }

  /** To add somebody who is not listed: the listed names and that one, once, in order. */
  lemma AddedExact(have: seq<Name>, user: Name)
    ensures var next := SortBy(Self, have + [user]);
            && multiset(next) == multiset(have) + multiset{user} && InOrder(next)
            && (Distinct(Self, have) && user !in have ==> Ascending(Self, next))
  {
    var all := have + [user];
    SortByMultiset(Self, all);
    SortedInOrder(all);
    if Distinct(Self, have) && user !in have {
      assert Distinct(Self, all);
      SortByAscending(Self, all);
    }
  }

  lemma {:induction false} RemovedCounts(have: seq<Name>, user: Name)
    ensures multiset(Without(have, user)) == multiset(have)[user := 0]
  {
    if have != [] {
      RemovedCounts(have[1..], user);
      assert have == [have[0]] + have[1..];
    }
  }

  /** To remove somebody: the others, in the order they had. */
  lemma {:induction false} RemovedInOrder(have: seq<Name>, user: Name) returns (at: seq<nat>)
    ensures |at| == |Without(have, user)|
    ensures forall i :: 0 <= i < |at| ==> at[i] < |have| && have[at[i]] == Without(have, user)[i]
    ensures forall i, j :: 0 <= i < j < |at| ==> at[i] < at[j]
    decreases |have|
  {
    if have == [] {
      at := [];
    } else {
      var k := |have| - 1;
      assert have[..k + 1] == have;
      WithoutStep(have, user, k);
      at := RemovedInOrder(have[..k], user);
      if have[k] != user { at := at + [k]; }
    }
  }

  /** An edit wants a different list exactly when the membership is not as asked already. */
  lemma WantedExact(op: Op, have: seq<Name>)
    ensures forall n :: n in Wanted(op, have) <==> (if n == op.user then op.Add? else n in have)
    ensures Wanted(op, have) == have <==> (op.user in have <==> op.Add?)
  {
    match op
    case Add(_, u) =>
      SortByMembers(Self, have + [u]);
    case Remove(_, u) =>
      WithoutMembers(have, u);
  }

  // --- the document ---

  class Document {
    var groups: seq<Entry>

    constructor (gs: seq<Entry>)
      ensures groups == gs
    {
      groups := gs;
    }

    /** groupNode. */
    method GroupNode(name: Name) returns (i: Option<nat>)
      ensures i == IndexOf(groups, name)
      ensures i.Some? ==> i.value < |groups| && groups[i.value].Mapping?
    {
      IndexOfExact(groups, name);
      for k := 0 to |groups|
        invariant forall j :: 0 <= j < k ==> !Named(groups[j], name)
      {
        if groups[k].Mapping? {
          for j := 0 to |groups[k].pairs|
            invariant forall l :: 0 <= l < j ==> groups[k].pairs[l] != Pair("name", Scalar(name))
          {
            if groups[k].pairs[j] == Pair("name", Scalar(name)) { return Some(k); }
          }
        }
      }
      return None;
    }

    /** membersOf: where the member list is, and what it holds. */
    method FindMembers(pairs: seq<Pair>) returns (at: Option<nat>, have: Result<seq<Name>>)
      ensures at == KeyAt(pairs, "members") && have == MembersOf(pairs)
      ensures at.Some? ==> at.value < |pairs|
    {
      KeyAtExact(pairs, "members");
      for k := 0 to |pairs|
        invariant forall j :: 0 <= j < k ==> pairs[j].key != "members"
      {
        if pairs[k].key == "members" {
          return Some(k), if pairs[k].value.List? then Ok(pairs[k].value.items) else Err(NotEditable);
        }
      }
      return None, Ok([]);
    }

    method ReadMembers(group: Name) returns (r: Result<seq<Name>>)
      ensures r == Members(groups, group)
    {
      var i := GroupNode(group);
      if i.None? { return Err(NoSuchGroup); }
      var at, have := FindMembers(groups[i.value].pairs);
      return have;
    }

    /** SetMembers. */
    method SetMembers(group: Name, members: seq<Name>) returns (r: Result<bool>)
      modifies this
      ensures match Replaced(old(groups), group, members)
              case Ok(next) => r == Ok(true) && groups == next
              case Err(e) => r == Err(e) && groups == old(groups)
    {
      var i := GroupNode(group);
      if i.None? { return Err(NoSuchGroup); }
      var pairs := groups[i.value].pairs;
      var at, have := FindMembers(pairs);
      if have.Err? { return Err(NotEditable); }
      if |members| == 0 {
        if at.Some? { groups := groups[i.value := Mapping(pairs[..at.value] + pairs[at.value + 1..])]; }
        assert at.None? ==> old(groups)[i.value := Mapping(pairs)] == old(groups);
        return Ok(true);
      }
      if at.None? {
        groups := groups[i.value := Mapping(pairs + [Pair("members", List(members))])];
      } else {
        groups := groups[i.value := Mapping(pairs[at.value := Pair("members", List(members))])];
      }
      return Ok(true);
    }

    /** AddMember. */
    method AddMember(group: Name, user: Name) returns (r: Result<bool>)
      modifies this
      ensures match Edited(old(groups), Add(group, user))
              case Ok(e) => r == Ok(e.changed) && groups == e.groups
              case Err(e) => r == Err(e) && groups == old(groups)
    {
      var have := ReadMembers(group);
      if have.Err? { return Err(have.error); }
      WantedExact(Add(group, user), have.value);
      if user in have.value { return Ok(false); }
      var done := SetMembers(group, SortBy(Self, have.value + [user]));
      return done;
    }

    /** RemoveMember. */
    method RemoveMember(group: Name, user: Name) returns (r: Result<bool>)
      modifies this
      ensures match Edited(old(groups), Remove(group, user))
              case Ok(e) => r == Ok(e.changed) && groups == e.groups
              case Err(e) => r == Err(e) && groups == old(groups)
    {
      var have := ReadMembers(group);
      if have.Err? { return Err(have.error); }
      WantedExact(Remove(group, user), have.value);
      if user !in have.value { return Ok(false); }
      var next := Drop(have.value, user);
      var done := SetMembers(group, next);
      return done;
    }
  }

  /** slices.DeleteFunc. */
  method Drop(names: seq<Name>, name: Name) returns (out: seq<Name>)
    ensures out == Without(names, name)
  {
    out := [];
    for k := 0 to |names|
      invariant out == Without(names[..k], name)
    {
      WithoutStep(names, name, k);
      if names[k] != name { out := out + [names[k]]; }
    }
    assert names[..|names|] == names;
  }

  lemma {:induction false} WithoutStep(names: seq<Name>, name: Name, k: nat)
    requires k < |names|
    ensures Without(names[..k + 1], name) == Without(names[..k], name) + if names[k] == name then [] else [names[k]]
    decreases |names|
  {
    if k == 0 {
      assert names[..1] == [names[0]] && names[..1][1..] == [] && names[..0] == [];
    } else {
      WithoutStep(names[1..], name, k - 1);
      assert names[..k + 1][1..] == names[1..][..k] && names[..k][1..] == names[1..][..k - 1];
    }
  }

  // --- what an edit does to the memberships ---

  function PairKey(p: Pair): Name { p.key }

  /** As a document that loads is: keys once per entry, and no two groups of one name. */
  ghost predicate Loadable(gs: seq<Entry>) {
    && (forall e :: e in gs && e.Mapping? ==> Distinct(PairKey, e.pairs))
    && forall i, j, n :: 0 <= i < j < |gs| && Named(gs[i], n) ==> !Named(gs[j], n)
  }

  ghost predicate In(gs: seq<Entry>, group: Name, user: Name) {
    Members(gs, group).Ok? && user in Members(gs, group).value
  }

  lemma Appended(pairs: seq<Pair>, p: Pair)
    requires Distinct(PairKey, pairs) && forall k :: 0 <= k < |pairs| ==> pairs[k].key != p.key
    ensures KeyAt(pairs + [p], p.key) == Some(|pairs|) && Distinct(PairKey, pairs + [p])
  {
    var next := pairs + [p];
    KeyAtExact(next, p.key);
    assert next[|pairs|] == p;
    assert forall k :: 0 <= k < |pairs| ==> next[k] == pairs[k];
  }

  lemma Deleted(pairs: seq<Pair>, i: nat)
    requires Distinct(PairKey, pairs) && i < |pairs|
    ensures var next := pairs[..i] + pairs[i + 1..];
            && KeyAt(next, pairs[i].key) == None && Distinct(PairKey, next)
            && forall p: Pair :: p.key != pairs[i].key ==> (p in next <==> p in pairs)
  {
    var next := pairs[..i] + pairs[i + 1..];
    assert forall j :: 0 <= j < |next| ==> next[j] == pairs[if j < i then j else j + 1];
    forall j | 0 <= j < |next| ensures next[j].key != pairs[i].key {
      assert PairKey(pairs[if j < i then j else j + 1]) != PairKey(pairs[i]);
    }
    KeyAtExact(next, pairs[i].key);
    assert pairs == pairs[..i] + [pairs[i]] + pairs[i + 1..];
  }

  lemma Updated(pairs: seq<Pair>, i: nat, p: Pair)
    requires Distinct(PairKey, pairs) && i < |pairs| && p.key == pairs[i].key
    ensures var next := pairs[i := p];
            && KeyAt(next, p.key) == Some(i) && Distinct(PairKey, next)
            && forall q: Pair :: q.key != p.key ==> (q in next <==> q in pairs)
  {
    var next := pairs[i := p];
    forall j | 0 <= j < |pairs| && j != i ensures pairs[j].key != p.key {
      assert PairKey(pairs[j]) != PairKey(pairs[i]);
    }
    KeyAtExact(next, p.key);
    assert next[i] == p;
    forall q: Pair | q.key != p.key && q in pairs ensures q in next {
      var j :| 0 <= j < |pairs| && pairs[j] == q;
      assert next[j] == q;
    }
  }

  /** The pairs of every other key, in file order. */
  function Others(pairs: seq<Pair>): seq<Pair> {
    if pairs == [] then []
    else (if pairs[0].key == "members" then [] else [pairs[0]]) + Others(pairs[1..])
  }

  lemma {:induction false} OthersConcat(a: seq<Pair>, b: seq<Pair>)
    ensures Others(a + b) == Others(a) + Others(b)
  {
    if a == [] {
      assert a + b == b;
    } else {
      OthersConcat(a[1..], b);
      assert (a + b)[1..] == a[1..] + b && (a + b)[0] == a[0];
      if a[0].key != "members" {
        assert Others(a) == [a[0]] + Others(a[1..]);
        assert Others(a + b) == [a[0]] + (Others(a[1..]) + Others(b));
      }
    }
  }

  /** Whatever takes the place of one member list, the other pairs stay in order. */
  lemma OthersAround(pairs: seq<Pair>, i: nat, mid: seq<Pair>)
    requires i < |pairs| && pairs[i].key == "members"
    requires |mid| <= 1 && forall p :: p in mid ==> p.key == "members"
    ensures Others(pairs[..i] + mid + pairs[i + 1..]) == Others(pairs)
  {
    var a, z := pairs[..i], pairs[i + 1..];
    assert pairs == a + [pairs[i]] + z;
    assert Others([pairs[i]]) == [] && Others(mid) == [];
    OthersConcat(a + [pairs[i]], z);
    OthersConcat(a, [pairs[i]]);
    OthersConcat(a + mid, z);
    OthersConcat(a, mid);
  }

  /** Changing the member list touches no other key: the other pairs stay, in their order, and a list that
      is replaced keeps its place. */
  lemma WithMembersKeeps(pairs: seq<Pair>, members: seq<Name>)
    requires Distinct(PairKey, pairs) && MembersOf(pairs).Ok?
    ensures MembersOf(WithMembers(pairs, members)) == Ok(members)
    ensures Others(WithMembers(pairs, members)) == Others(pairs)
    ensures forall p: Pair :: p.key != "members" ==> (p in WithMembers(pairs, members) <==> p in pairs)
    ensures KeyAt(pairs, "members").Some? && members != [] ==>
              KeyAt(WithMembers(pairs, members), "members") == KeyAt(pairs, "members")
    ensures Distinct(PairKey, WithMembers(pairs, members))
  {
    KeyAtExact(pairs, "members");
    match KeyAt(pairs, "members")
    case None => if members != [] { NewKeeps(pairs, members); }
    case Some(i) => if members == [] { DroppedKeeps(pairs, i); } else { ReplacedKeeps(pairs, i, members); }
  }

  ghost predicate Kept(pairs: seq<Pair>, next: seq<Pair>) {
    && Others(next) == Others(pairs) && Distinct(PairKey, next)
    && forall p: Pair :: p.key != "members" ==> (p in next <==> p in pairs)
  }

  lemma NewKeeps(pairs: seq<Pair>, members: seq<Name>)
    requires Distinct(PairKey, pairs) && KeyAt(pairs, "members") == None
    ensures var next := pairs + [Pair("members", List(members))];
            Kept(pairs, next) && MembersOf(next) == Ok(members)
  {
    KeyAtExact(pairs, "members");
    Appended(pairs, Pair("members", List(members)));
    OthersConcat(pairs, [Pair("members", List(members))]);
  }

  lemma DroppedKeeps(pairs: seq<Pair>, i: nat)
    requires Distinct(PairKey, pairs) && i < |pairs| && pairs[i].key == "members"
    ensures var next := pairs[..i] + pairs[i + 1..];
            Kept(pairs, next) && MembersOf(next) == Ok([])
  {
    Deleted(pairs, i);
    OthersAround(pairs, i, []);
    assert pairs[..i] + [] == pairs[..i];
  }

  lemma ReplacedKeeps(pairs: seq<Pair>, i: nat, members: seq<Name>)
    requires Distinct(PairKey, pairs) && i < |pairs| && pairs[i].key == "members"
    ensures var next := pairs[i := Pair("members", List(members))];
            Kept(pairs, next) && MembersOf(next) == Ok(members) && KeyAt(next, "members") == Some(i)
  {
    var p := Pair("members", List(members));
    Updated(pairs, i, p);
    OthersAround(pairs, i, [p]);
    assert pairs[i := p] == pairs[..i] + [p] + pairs[i + 1..];
  }

  /** A list that is new comes last, and an empty one is no pair at all. */
  lemma WithMembersPlace(pairs: seq<Pair>, members: seq<Name>)
    requires Distinct(PairKey, pairs)
    ensures KeyAt(WithMembers(pairs, members), "members")
            == if members == [] then None
               else if KeyAt(pairs, "members").None? then Some(|pairs|) else KeyAt(pairs, "members")
  {
    KeyAtExact(pairs, "members");
    match KeyAt(pairs, "members")
    case None => if members != [] { Appended(pairs, Pair("members", List(members))); }
    case Some(i) =>
      if members == [] { Deleted(pairs, i); } else { Updated(pairs, i, Pair("members", List(members))); }
  }

  lemma NamedSame(a: Entry, b: Entry, n: Name)
    requires a.Mapping? && b.Mapping? && forall p: Pair :: p.key != "members" ==> (p in a.pairs <==> p in b.pairs)
    ensures Named(a, n) <==> Named(b, n)
  {
    var p := Pair("name", Scalar(n));
    assert p in a.pairs <==> p in b.pairs;
    assert p in a.pairs <==> Named(a, n);
    assert p in b.pairs <==> Named(b, n);
  }

  /** In a loadable entry there is one name. */
  lemma OneName(e: Entry, m: Name, n: Name)
    requires e.Mapping? && Distinct(PairKey, e.pairs) && Named(e, m) && Named(e, n)
    ensures m == n
  {
    var i :| 0 <= i < |e.pairs| && e.pairs[i] == Pair("name", Scalar(m));
    var j :| 0 <= j < |e.pairs| && e.pairs[j] == Pair("name", Scalar(n));
    assert i != j ==> PairKey(e.pairs[i]) != PairKey(e.pairs[j]);
  }

  lemma {:induction false} IndexOfSame(a: seq<Entry>, b: seq<Entry>, name: Name)
    requires |a| == |b| && forall k :: 0 <= k < |a| ==> (Named(a[k], name) <==> Named(b[k], name))
    ensures IndexOf(a, name) == IndexOf(b, name)
  {
    if a != [] && !Named(a[0], name) {
      assert forall k :: 0 <= k < |a[1..]| ==> a[1..][k] == a[k + 1] && b[1..][k] == b[k + 1];
      IndexOfSame(a[1..], b[1..], name);
    }
  }

  /** Replacing one group's members: that group has them, every other group has what it had. */
  lemma ReplacedMembers(gs: seq<Entry>, group: Name, members: seq<Name>, other: Name)
    requires Loadable(gs) && Replaced(gs, group, members).Ok?
    ensures var next := Replaced(gs, group, members).value;
            Members(next, other) == if other == group then Ok(members) else Members(gs, other)
  {
    IndexOfExact(gs, group);
    IndexOfExact(gs, other);
    var i, next := IndexOf(gs, group).value, Replaced(gs, group, members).value;
    WithMembersKeeps(gs[i].pairs, members);
    forall k | 0 <= k < |gs| ensures Named(gs[k], other) <==> Named(next[k], other) {
      if k == i { NamedSame(gs[i], next[i], other); }
    }
    IndexOfSame(gs, next, other);
    if other != group && IndexOf(gs, other) == Some(i) { OneName(gs[i], group, other); }
  }

  lemma ReplacedLoadable(gs: seq<Entry>, group: Name, members: seq<Name>)
    requires Loadable(gs) && Replaced(gs, group, members).Ok?
    ensures Loadable(Replaced(gs, group, members).value)
  {
    IndexOfExact(gs, group);
    var i, next := IndexOf(gs, group).value, Replaced(gs, group, members).value;
    WithMembersKeeps(gs[i].pairs, members);
    forall k, n | 0 <= k < |gs| ensures Named(gs[k], n) <==> Named(next[k], n) {
      if k == i { NamedSame(gs[i], next[i], n); }
    }
  }

  /** An edit decides the one membership it names and leaves every other as it was. */
  lemma EditedExact(gs: seq<Entry>, op: Op, group: Name, user: Name)
    requires Loadable(gs) && Edited(gs, op).Ok?
    ensures var next := Edited(gs, op).value.groups;
            && Loadable(next)
            && (In(next, group, user)
            <==> if group == op.group && user == op.user then op.Add? else In(gs, group, user))
            && (Members(next, group).Ok? <==> Members(gs, group).Ok?)
  {
    var have := Members(gs, op.group).value;
    WantedExact(op, have);
    if Wanted(op, have) != have {
      ReplacedMembers(gs, op.group, Wanted(op, have), group);
      ReplacedLoadable(gs, op.group, Wanted(op, have));
    }
  }

  lemma WantedWritten(gs: seq<Entry>, op: Op, other: Name)
    requires Loadable(gs) && Edited(gs, op).Ok?
    ensures Members(Edited(gs, op).value.groups, other)
            == if other == op.group then Ok(Wanted(op, Members(gs, op.group).value)) else Members(gs, other)
  {
    var want := Wanted(op, Members(gs, op.group).value);
    if want != Members(gs, op.group).value { ReplacedMembers(gs, op.group, want, other); }
  }

  /** The list an addition writes holds the names that were listed, each as often as it was, and the one to
      be added, once; it is in order, and without repetition if there was none. Nothing is written for a
      user who is listed, and every other group has the list it had. */
  lemma AddWrites(gs: seq<Entry>, group: Name, user: Name, other: Name)
    requires Loadable(gs) && Edited(gs, Add(group, user)).Ok?
    ensures var e, have := Edited(gs, Add(group, user)).value, Members(gs, group).value;
            && (e.changed <==> user !in have) && (!e.changed ==> e.groups == gs)
            && Members(e.groups, group).Ok?
            && (e.changed ==>
                  var next := Members(e.groups, group).value;
                  && multiset(next) == multiset(have) + multiset{user} && InOrder(next)
                  && (Distinct(Self, have) ==> Ascending(Self, next)))
            && (other != group ==> Members(e.groups, other) == Members(gs, other))
  {
    var have := Members(gs, group).value;
    WantedExact(Add(group, user), have);
    WantedWritten(gs, Add(group, user), group);
    WantedWritten(gs, Add(group, user), other);
    AddedExact(have, user);
  }

  /** The list a removal writes holds every other name as often as it was listed, in the order it had. */
  lemma RemoveWrites(gs: seq<Entry>, group: Name, user: Name, other: Name) returns (at: seq<nat>)
    requires Loadable(gs) && Edited(gs, Remove(group, user)).Ok?
    ensures var e, have := Edited(gs, Remove(group, user)).value, Members(gs, group).value;
            && (e.changed <==> user in have) && (!e.changed ==> e.groups == gs)
            && Members(e.groups, group).Ok?
            && (e.changed ==>
                  var next := Members(e.groups, group).value;
                  && multiset(next) == multiset(have)[user := 0]
                  && |at| == |next| && (forall i, j :: 0 <= i < j < |at| ==> at[i] < at[j])
                  && forall i :: 0 <= i < |at| ==> at[i] < |have| && have[at[i]] == next[i])
            && (other != group ==> Members(e.groups, other) == Members(gs, other))
  {
    var have := Members(gs, group).value;
    WantedExact(Remove(group, user), have);
    WantedWritten(gs, Remove(group, user), group);
    WantedWritten(gs, Remove(group, user), other);
    RemovedCounts(have, user);
    at := RemovedInOrder(have, user);
  }

  lemma NoGroup(gs: seq<Entry>, op: Op)
    ensures Edited(gs, op) == Err(NoSuchGroup) <==> forall e :: e in gs ==> !Named(e, op.group)
  {
    IndexOfExact(gs, op.group);
    var at := IndexOf(gs, op.group);
    if at.Some? { assert gs[at.value] in gs; }
  }

  /** The first pair of members is no list. */
  ghost predicate NoList(pairs: seq<Pair>) {
    exists k :: && 0 <= k < |pairs| && pairs[k].key == "members" && !pairs[k].value.List?
                && forall j :: 0 <= j < k ==> pairs[j].key != "members"
  }

  lemma NoListExact(pairs: seq<Pair>)
    ensures MembersOf(pairs).Err? <==> NoList(pairs)
  {
    KeyAtExact(pairs, "members");
  }

  /** An edit fails where no entry has the name, or where the first pair of its members in the first one
      that has holds no list. */
  lemma EditFails(gs: seq<Entry>, op: Op)
    ensures Edited(gs, op) == Err(NoSuchGroup) <==> forall e :: e in gs ==> !Named(e, op.group)
    ensures Edited(gs, op) == Err(NotEditable) <==> exists i :: First(gs, op.group, i) && NoList(gs[i].pairs)
  {
    NoGroup(gs, op);
    IndexOfExact(gs, op.group);
    var at := IndexOf(gs, op.group);
    if at.Some? {
      NoListExact(gs[at.value].pairs);
      assert First(gs, op.group, at.value);
      forall i | First(gs, op.group, i) ensures i == at.value {}
    }
  }

  ghost predicate First(gs: seq<Entry>, name: Name, i: int) {
    0 <= i < |gs| && Named(gs[i], name) && forall k :: 0 <= k < i ==> !Named(gs[k], name)
  }

  /** Making the same edit again changes nothing. */
  lemma EditedTwice(gs: seq<Entry>, op: Op)
    requires Loadable(gs) && Edited(gs, op).Ok?
    ensures var next := Edited(gs, op).value.groups; Edited(next, op) == Ok(Edit(false, next))
  {
    var next := Edited(gs, op).value.groups;
    EditedExact(gs, op, op.group, op.user);
    WantedExact(op, Members(next, op.group).value);
  }
}
