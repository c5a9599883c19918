/** Comparing the roster with what the system resolves (internal/audit/audit.go). */
module Audit {
  import opened Common
  import opened Names
  import opened IdRange
  import opened Roster
  import opened Validation

  datatype Kind = OfUser | OfGroup {
    function Text(): Name { if OfUser? then "user" else "group" }
  }

  datatype Code = Missing | IdMismatch | TombstoneLive | Undeclared | Collision {
    function Text(): Name {
      match this
      case Missing => "missing"
      case IdMismatch => "id-mismatch"
      case TombstoneLive => "tombstone-live"
      case Undeclared => "undeclared"
      case Collision => "collision"
    }
  }

  /** One problem about one name; others are the other parties of a collision. */
  datatype Finding = Finding(kind: Kind, name: Name, code: Code, want: Id, got: Option<Id>, others: seq<Name>)

  /** Names and the numbers they answer with: keyed lookups, or an enumeration. */
  datatype Resolved = Resolved(users: map<Name, Id>, groups: map<Name, Id>)

  datatype Report = Report(usersChecked: nat, groupsChecked: nat, findings: seq<Finding>, enumeratedUsers: nat,
    enumeratedGroups: nat)

  // --- what the findings mean ---

  datatype Entry = Entry(name: Name, id: Id, reserved: bool)

  ghost predicate Declares(ro: Roster, kind: Kind, e: Entry) {
    match kind
    case OfUser => exists u :: u in ro.users && e == Entry(u.name, u.uid, u.status == Reserved)
    case OfGroup => exists g :: g in ro.groups && e == Entry(g.name, g.gid, false)
  }

  ghost predicate Ledger(ro: Roster, kind: Kind, n: Name) {
    exists e :: Declares(ro, kind, e) && e.name == n
  }

  function Side(r: Resolved, kind: Kind): map<Name, Id> {
    if kind.OfUser? then r.users else r.groups
  }

  function ClassOf(cls: Classifier, kind: Kind, id: Id): Class {
    if kind.OfUser? then cls.Uid(id) else cls.Gid(id)
  }

  /** The names an enumeration shows on one number. */
  function Holders(all: map<Name, Id>, id: Id): set<Name> {
    set n | n in all && all[n] == id
  }

  /** The problem a declared entry has. */
  ghost predicate EntryProblem(e: Entry, answers: map<Name, Id>, f: Finding) {
    && f.name == e.name && f.want == e.id && f.others == []
    && f.got == (if e.name in answers then Some(answers[e.name]) else None)
    && match f.code
       case Missing => !e.reserved && e.name !in answers
       case IdMismatch => !e.reserved && e.name in answers && answers[e.name] != e.id
       case TombstoneLive => e.reserved && e.name in answers
       case _ => false
  }

  /** The finding is true of the roster, the answers and the enumeration. */
  ghost predicate True(ro: Roster, answers: Resolved, seen: Resolved, cls: Classifier, f: Finding) {
    var all := Side(seen, f.kind);
    match f.code
    case Undeclared =>
      && f.name in all && ClassOf(cls, f.kind, all[f.name]) == Managed && !Ledger(ro, f.kind, f.name)
      && f.want == 0 && f.got == Some(all[f.name]) && f.others == []
    case Collision =>
      && f.name in all && ClassOf(cls, f.kind, all[f.name]) == Managed
      && f.want == 0 && f.got == Some(all[f.name])
      && f.others == SortedNames(Holders(all, all[f.name]) - {f.name}) && f.others != []
    case _ =>
      exists e :: Declares(ro, f.kind, e) && EntryProblem(e, Side(answers, f.kind), f)
  }

  /** The system agrees with the ledger: each live name resolves to its number, no tombstone resolves, and
      every managed number an enumeration shows has one name, a declared one. */
  ghost predicate Agrees(ro: Roster, answers: Resolved, seen: Resolved, cls: Classifier) {
    && (forall u :: u in ro.users ==>
          if u.status == Reserved then u.name !in answers.users
          else u.name in answers.users && answers.users[u.name] == u.uid)
    && (forall g :: g in ro.groups ==> g.name in answers.groups && answers.groups[g.name] == g.gid)
    && (forall n :: n in seen.users && cls.Uid(seen.users[n]) == Managed ==>
          && (exists u :: u in ro.users && u.name == n)
          && forall m :: m in seen.users && seen.users[m] == seen.users[n] ==> m == n)
    && (forall n :: n in seen.groups && cls.Gid(seen.groups[n]) == Managed ==>
          && (exists g :: g in ro.groups && g.name == n)
          && forall m :: m in seen.groups && seen.groups[m] == seen.groups[n] ==> m == n)
  }

  /** The same, one side at a time. */
  ghost predicate SideAgrees(ro: Roster, k: Kind, answers: map<Name, Id>, all: map<Name, Id>, cls: Classifier) {
    && (forall e :: Declares(ro, k, e) ==>
          if e.reserved then e.name !in answers else e.name in answers && answers[e.name] == e.id)
    && forall n :: n in all && ClassOf(cls, k, all[n]) == Managed ==>
         Ledger(ro, k, n) && forall m :: m in all && all[m] == all[n] ==> m == n
  }

  lemma UsersAgree(ro: Roster, answers: Resolved, seen: Resolved, cls: Classifier)
    ensures SideAgrees(ro, OfUser, answers.users, seen.users, cls) <==>
              && (forall u :: u in ro.users ==>
                    if u.status == Reserved then u.name !in answers.users
                    else u.name in answers.users && answers.users[u.name] == u.uid)
              && (forall n :: n in seen.users && cls.Uid(seen.users[n]) == Managed ==>
                    && (exists u :: u in ro.users && u.name == n)
                    && forall m :: m in seen.users && seen.users[m] == seen.users[n] ==> m == n)
  {
    forall u | u in ro.users ensures Declares(ro, OfUser, Entry(u.name, u.uid, u.status == Reserved)) {}
    forall n ensures Ledger(ro, OfUser, n) <==> exists u :: u in ro.users && u.name == n {
      if u :| u in ro.users && u.name == n {
        assert Declares(ro, OfUser, Entry(u.name, u.uid, u.status == Reserved));
      }
    }
  }

  lemma GroupsAgree(ro: Roster, answers: Resolved, seen: Resolved, cls: Classifier)
    ensures SideAgrees(ro, OfGroup, answers.groups, seen.groups, cls) <==>
              && (forall g :: g in ro.groups ==> g.name in answers.groups && answers.groups[g.name] == g.gid)
              && (forall n :: n in seen.groups && cls.Gid(seen.groups[n]) == Managed ==>
                    && (exists g :: g in ro.groups && g.name == n)
                    && forall m :: m in seen.groups && seen.groups[m] == seen.groups[n] ==> m == n)
  {
    forall g | g in ro.groups ensures Declares(ro, OfGroup, Entry(g.name, g.gid, false)) {}
    forall n ensures Ledger(ro, OfGroup, n) <==> exists g :: g in ro.groups && g.name == n {
      if g :| g in ro.groups && g.name == n { assert Declares(ro, OfGroup, Entry(g.name, g.gid, false)); }
    }
  }

  lemma EntryAgrees(e: Entry, answers: map<Name, Id>, k: Kind) returns (f: Finding)
    ensures f.kind == k
    ensures EntryProblem(e, answers, f) <==>
              !(if e.reserved then e.name !in answers else e.name in answers && answers[e.name] == e.id)
  {
    var code := if e.reserved then TombstoneLive else if e.name !in answers then Missing else IdMismatch;
    f := Finding(k, e.name, code, e.id, if e.name in answers then Some(answers[e.name]) else None, []);
  }

  lemma OthersNone(all: map<Name, Id>, n: Name)
    requires n in all
    ensures SortedNames(Holders(all, all[n]) - {n}) == [] <==> forall m :: m in all && all[m] == all[n] ==> m == n
  {
    var rest := Holders(all, all[n]) - {n};
    SortedEmpty(rest);
    if rest == {} {
      forall m | m in all && all[m] == all[n] ensures m == n { assert m == n || m in rest; }
    }
  }

  lemma SideSilent(ro: Roster, answers: Resolved, seen: Resolved, cls: Classifier, k: Kind)
    requires forall f :: !True(ro, answers, seen, cls, f)
    ensures SideAgrees(ro, k, Side(answers, k), Side(seen, k), cls)
  {
    forall e | Declares(ro, k, e)
      ensures if e.reserved then e.name !in Side(answers, k)
              else e.name in Side(answers, k) && Side(answers, k)[e.name] == e.id
    {
      var f := EntryAgrees(e, Side(answers, k), k);
      assert !True(ro, answers, seen, cls, f);
    }
    forall n | n in Side(seen, k) && ClassOf(cls, k, Side(seen, k)[n]) == Managed
      ensures Ledger(ro, k, n) && forall m :: m in Side(seen, k) && Side(seen, k)[m] == Side(seen, k)[n] ==> m == n
    {
      var all := Side(seen, k);
      assert !True(ro, answers, seen, cls, Finding(k, n, Undeclared, 0, Some(all[n]), []));
      var others := SortedNames(Holders(all, all[n]) - {n});
      assert !True(ro, answers, seen, cls, Finding(k, n, Collision, 0, Some(all[n]), others));
      OthersNone(all, n);
    }
  }

  /** No true finding exists exactly when the system agrees with the ledger. */
  lemma NothingTrueExactly(ro: Roster, answers: Resolved, seen: Resolved, cls: Classifier)
    ensures (forall f :: !True(ro, answers, seen, cls, f)) <==> Agrees(ro, answers, seen, cls)
  {
    UsersAgree(ro, answers, seen, cls);
    GroupsAgree(ro, answers, seen, cls);
    if forall f :: !True(ro, answers, seen, cls, f) {
      SideSilent(ro, answers, seen, cls, OfUser);
      SideSilent(ro, answers, seen, cls, OfGroup);
    }
    if Agrees(ro, answers, seen, cls) {
      forall f ensures !True(ro, answers, seen, cls, f) { AgreesSilent(ro, answers, seen, cls, f); }
    }
  }

  lemma AgreesSilent(ro: Roster, answers: Resolved, seen: Resolved, cls: Classifier, f: Finding)
    requires SideAgrees(ro, f.kind, Side(answers, f.kind), Side(seen, f.kind), cls)
    ensures !True(ro, answers, seen, cls, f)
  {
    var all := Side(seen, f.kind);
    if f.name in all { OthersNone(all, f.name); }
  }

  // --- the order ---

  /** By kind, then name, then code. */
  predicate Before(a: Finding, b: Finding) {
    if a.kind != b.kind then Less(a.kind.Text(), b.kind.Text())
    else if a.name != b.name then Less(a.name, b.name)
    else Less(a.code.Text(), b.code.Text())
  }

  /** Groups before users, by name; for one name, in the order of the codes' texts. */
  function Place(c: Code): nat {
    match c
    case Collision => 0
    case IdMismatch => 1
    case Missing => 2
    case TombstoneLive => 3
    case Undeclared => 4
  }

  lemma BeforeExact(a: Finding, b: Finding)
    ensures Before(a, b) <==>
              if a.kind != b.kind then a.kind == OfGroup
              else if a.name != b.name then Less(a.name, b.name)
              else Place(a.code) < Place(b.code)
  {
    assert "group"[0] < "user"[0];
    CodesPlaced(a.code, b.code);
  }

  lemma CodesPlaced(a: Code, b: Code)
    ensures Less(a.Text(), b.Text()) <==> Place(a) < Place(b)
  {
    CodesOrdered(a, b);
    CodesOrdered(b, a);
    assert a.Text()[0] != b.Text()[0] ==> (Less(a.Text(), b.Text()) <==> a.Text()[0] < b.Text()[0]);
  }

  predicate SameKey(a: Finding, b: Finding) {
    a.kind == b.kind && a.name == b.name && a.code == b.code
  }

  ghost predicate KeysUnique(s: seq<Finding>) {
    forall i, j :: 0 <= i < j < |s| ==> !SameKey(s[i], s[j])
  }

  ghost predicate Increasing(s: seq<Finding>) {
    forall i, j :: 0 <= i < j < |s| ==> Before(s[i], s[j])
  }

  lemma BeforeTotal(a: Finding, b: Finding)
    ensures Before(a, b) || Before(b, a) || SameKey(a, b)
    ensures Before(a, b) ==> !Before(b, a) && !SameKey(a, b)
  {
    LessTotal(a.name, b.name);
    LessTotal(a.kind.Text(), b.kind.Text());
    CodesOrdered(a.code, b.code);
    if Less(a.name, b.name) { LessAsymmetric(a.name, b.name); }
    if Less(a.kind.Text(), b.kind.Text()) { LessAsymmetric(a.kind.Text(), b.kind.Text()); }
  }

  lemma CodesOrdered(a: Code, b: Code)
    ensures a != b ==> Less(a.Text(), b.Text()) || Less(b.Text(), a.Text())
    ensures Less(a.Text(), b.Text()) ==> !Less(b.Text(), a.Text()) && a != b
  {
    LessTotal(a.Text(), b.Text());
    if Less(a.Text(), b.Text()) { LessAsymmetric(a.Text(), b.Text()); }
    assert a != b ==> a.Text()[0] != b.Text()[0];
  }

  lemma BeforeTransitive(a: Finding, b: Finding, c: Finding)
    requires Before(a, b) && Before(b, c)
    ensures Before(a, c)
  {
    BeforeTotal(a, b);
    if a.kind == b.kind == c.kind {
      if a.name != b.name && b.name != c.name {
        LessTransitive(a.name, b.name, c.name);
        LessAsymmetric(a.name, c.name);
      } else if a.name == b.name == c.name {
        LessTransitive(a.code.Text(), b.code.Text(), c.code.Text());
      }
    } else if a.kind != b.kind && b.kind != c.kind {
      LessAsymmetric(a.kind.Text(), b.kind.Text());
    }
  }

  function Insert(f: Finding, s: seq<Finding>): seq<Finding> {
    if s == [] then [f] else if Before(s[0], f) then [s[0]] + Insert(f, s[1..]) else [f] + s
  }

  function SortFindings(s: seq<Finding>): seq<Finding> {
    if s == [] then [] else Insert(s[0], SortFindings(s[1..]))
  }

  lemma {:induction false} InsertMembers(f: Finding, s: seq<Finding>, x: Finding)
    ensures x in Insert(f, s) <==> x == f || x in s
  {
    if s != [] {
      InsertMembers(f, s[1..], x);
      assert s == [s[0]] + s[1..];
    }
  }

  lemma {:induction false} SortMembers(s: seq<Finding>, x: Finding)
    ensures x in SortFindings(s) <==> x in s
  {
    if s != [] {
      SortMembers(s[1..], x);
      InsertMembers(s[0], SortFindings(s[1..]), x);
      assert s == [s[0]] + s[1..];
    }
  }

  lemma PrependIncreasing(f: Finding, s: seq<Finding>)
    requires Increasing(s) && forall x :: x in s ==> Before(f, x)
    ensures Increasing([f] + s)
  {
  }

  lemma {:induction false} InsertIncreasing(f: Finding, s: seq<Finding>)
    requires Increasing(s) && forall x :: x in s ==> !SameKey(x, f)
    ensures Increasing(Insert(f, s))
  {
    if s != [] {
      assert s[0] in s;
      BeforeTotal(s[0], f);
      if Before(s[0], f) {
        InsertIncreasing(f, s[1..]);
        forall x | x in Insert(f, s[1..]) ensures Before(s[0], x) { InsertMembers(f, s[1..], x); }
        PrependIncreasing(s[0], Insert(f, s[1..]));
      } else {
        forall x | x in s ensures Before(f, x) { if x != s[0] { BeforeTransitive(f, s[0], x); } }
        PrependIncreasing(f, s);
      }
    }
  }

  lemma {:induction false} SortIncreasing(s: seq<Finding>)
    requires KeysUnique(s)
    ensures Increasing(SortFindings(s))
  {
    if s != [] {
      SortIncreasing(s[1..]);
      forall x | x in SortFindings(s[1..]) ensures !SameKey(x, s[0]) {
        SortMembers(s[1..], x);
        var i :| 0 <= i < |s[1..]| && s[1..][i] == x;
        assert s[i + 1] == x;
      }
      InsertIncreasing(s[0], SortFindings(s[1..]));
    }
  }

  /** Only one list of findings is in order and true: the report does not depend on the order in which
      maps were walked. */
  lemma {:induction false} OneOrder(a: seq<Finding>, b: seq<Finding>)
    requires Increasing(a) && Increasing(b) && forall x :: x in a <==> x in b
    ensures a == b
  {
    assert (a != [] ==> a[0] in a) && (b != [] ==> b[0] in b);
    if a != [] && b != [] {
      assert a[0] in b && b[0] in a;
      BeforeTotal(a[0], b[0]);
      BeforeTotal(b[0], a[0]);
      assert a[0] == b[0];
      forall x ensures x in a[1..] <==> x in b[1..] { Rest(a, x); Rest(b, x); }
      OneOrder(a[1..], b[1..]);
      assert a == [a[0]] + a[1..] && b == [b[0]] + b[1..];
    }
  }

  lemma Rest(a: seq<Finding>, x: Finding)
    requires a != [] && Increasing(a)
    ensures x in a[1..] <==> x in a && x != a[0]
  {
    assert a == [a[0]] + a[1..];
    if x in a[1..] {
      var i :| 0 <= i < |a[1..]| && a[1..][i] == x;
      BeforeTotal(a[0], a[i + 1]);
    }
  }

  // --- the run ---

  function FindingName(f: Finding): Name { f.name }

  /** A part of the report: one kind, some codes, each name once. */
  ghost predicate Part(s: seq<Finding>, kind: Kind, codes: set<Code>) {
    Distinct(FindingName, s) && forall f :: f in s ==> f.kind == kind && f.code in codes
  }

  ghost predicate Apart(a: seq<Finding>, b: seq<Finding>) {
    forall f, g :: f in a && g in b ==> !SameKey(f, g)
  }

  lemma JoinParts(a: seq<Finding>, b: seq<Finding>)
    requires KeysUnique(a) && KeysUnique(b) && Apart(a, b)
    ensures KeysUnique(a + b)
  {
    var s := a + b;
    forall i, j | 0 <= i < j < |s| ensures !SameKey(s[i], s[j]) {
      if i < |a| && j >= |a| { assert a[i] in a && b[j - |a|] in b; }
    }
  }

  lemma PartUnique(s: seq<Finding>, kind: Kind, codes: set<Code>)
    requires Part(s, kind, codes)
    ensures KeysUnique(s)
  {
    forall i, j | 0 <= i < j < |s| ensures !SameKey(s[i], s[j]) {
      assert FindingName(s[i]) != FindingName(s[j]);
    }
  }

  const DECLARED: set<Code> := {Missing, IdMismatch, TombstoneLive}

  ghost predicate UserProblems(us: seq<User>, answers: map<Name, Id>, s: seq<Finding>) {
    && (forall f :: f in s <==> f.kind == OfUser
                                && exists u ::
                                  u in us && EntryProblem(Entry(u.name, u.uid, u.status == Reserved), answers, f))
    && (Distinct(UserKey, us) ==> Part(s, OfUser, DECLARED))
  }

  ghost predicate GroupProblems(gs: seq<Group>, answers: map<Name, Id>, s: seq<Finding>) {
    && (forall f :: f in s <==> f.kind == OfGroup
                                && exists g :: g in gs && EntryProblem(Entry(g.name, g.gid, false), answers, f))
    && (Distinct(GroupKey, gs) ==> Part(s, OfGroup, DECLARED))
  }

  /** What one more entry adds: nothing, or the one problem it has. */
  ghost predicate Verdict(kind: Kind, e: Entry, answers: map<Name, Id>, v: seq<Finding>) {
    |v| <= 1 && forall f :: f in v <==> f.kind == kind && EntryProblem(e, answers, f)
  }

  method JudgeUser(u: User, answers: map<Name, Id>) returns (v: seq<Finding>)
    ensures Verdict(OfUser, Entry(u.name, u.uid, u.status == Reserved), answers, v)
  {
    if u.status == Reserved {
      if u.name in answers {
        return [Finding(OfUser, u.name, TombstoneLive, u.uid, Some(answers[u.name]), [])];
      }
      return [];
    }
    if u.name !in answers {
      return [Finding(OfUser, u.name, Missing, u.uid, None, [])];
    } else if answers[u.name] != u.uid {
      return [Finding(OfUser, u.name, IdMismatch, u.uid, Some(answers[u.name]), [])];
    }
    return [];
  }

  method JudgeGroup(g: Group, answers: map<Name, Id>) returns (v: seq<Finding>)
    ensures Verdict(OfGroup, Entry(g.name, g.gid, false), answers, v)
  {
    if g.name !in answers {
      return [Finding(OfGroup, g.name, Missing, g.gid, None, [])];
    } else if answers[g.name] != g.gid {
      return [Finding(OfGroup, g.name, IdMismatch, g.gid, Some(answers[g.name]), [])];
    }
    return [];
  }

  lemma UserStep(us: seq<User>, u: User, answers: map<Name, Id>, s: seq<Finding>, v: seq<Finding>)
    requires UserProblems(us, answers, s) && Verdict(OfUser, Entry(u.name, u.uid, u.status == Reserved), answers, v)
    ensures UserProblems(us + [u], answers, s + v)
  {
    var next := us + [u];
    assert forall x :: x in next <==> x in us || x == u;
    if Distinct(UserKey, next) {
      forall i, j | 0 <= i < j < |us| ensures UserKey(us[i]) != UserKey(us[j]) {
        assert us[i] == next[i] && us[j] == next[j];
      }
      forall x | x in us ensures x.name != u.name {
        var i :| 0 <= i < |us| && us[i] == x;
        assert UserKey(next[i]) != UserKey(next[|us|]);
      }
      Lengthened(s, v, u.name);
    }
  }

  lemma GroupStep(gs: seq<Group>, g: Group, answers: map<Name, Id>, s: seq<Finding>, v: seq<Finding>)
    requires GroupProblems(gs, answers, s) && Verdict(OfGroup, Entry(g.name, g.gid, false), answers, v)
    ensures GroupProblems(gs + [g], answers, s + v)
  {
    var next := gs + [g];
    assert forall x :: x in next <==> x in gs || x == g;
    if Distinct(GroupKey, next) {
      forall i, j | 0 <= i < j < |gs| ensures GroupKey(gs[i]) != GroupKey(gs[j]) {
        assert gs[i] == next[i] && gs[j] == next[j];
      }
      forall x | x in gs ensures x.name != g.name {
        var i :| 0 <= i < |gs| && gs[i] == x;
        assert GroupKey(next[i]) != GroupKey(next[|gs|]);
      }
      Lengthened(s, v, g.name);
    }
  }

  lemma Lengthened(s: seq<Finding>, v: seq<Finding>, n: Name)
    requires Distinct(FindingName, s) && |v| <= 1 && (forall f :: f in v ==> f.name == n)
             && (forall f :: f in s ==> f.name != n)
    ensures Distinct(FindingName, s + v)
  {
    forall i, j | 0 <= i < j < |s + v| ensures FindingName((s + v)[i]) != FindingName((s + v)[j]) {
      if j >= |s| { assert s[i] in s && v[0] in v; }
    }
  }

  /** Names of an enumeration on managed numbers that the ledger does not have. */
  ghost predicate Strays(kind: Kind, all: map<Name, Id>, cls: Classifier, declared: set<Name>, visited: set<Name>,
                         s: seq<Finding>) {
    && Part(s, kind, {Undeclared})
    && forall f :: f in s <==> && f.kind == kind && f.code == Undeclared && f.name in visited && f.name in all
                               && ClassOf(cls, kind, all[f.name]) == Managed && f.name !in declared
                               && f.want == 0 && f.got == Some(all[f.name]) && f.others == []
  }

  method Sweep(kind: Kind, all: map<Name, Id>, cls: Classifier, declared: set<Name>) returns (s: seq<Finding>)
    ensures Strays(kind, all, cls, declared, all.Keys, s)
  {
    s := [];
    var left := all.Keys;
    while left != {}
      invariant left <= all.Keys && Strays(kind, all, cls, declared, all.Keys - left, s)
      decreases |left|
    {
      var n :| n in left;
      left := left - {n};
      if ClassOf(cls, kind, all[n]) == Managed && n !in declared {
        var f := Finding(kind, n, Undeclared, 0, Some(all[n]), []);
        Lengthened(s, [f], n);
        s := s + [f];
      }
    }
  }

  /** What a name that shares its number with others is reported as. */
  ghost predicate Line(kind: Kind, all: map<Name, Id>, id: Id, f: Finding) {
    && f.kind == kind && f.code == Collision && f.name in Holders(all, id) && f.want == 0 && f.got == Some(id)
    && f.others == SortedNames(Holders(all, id) - {f.name}) && f.others != []
  }

  /** One line for each of the names that share a managed number, naming the others. */
  ghost predicate Shared(kind: Kind, all: map<Name, Id>, cls: Classifier, ids: set<Id>, s: seq<Finding>) {
    && Part(s, kind, {Collision})
    && forall f :: f in s <==> f.name in all && all[f.name] in ids && Line(kind, all, all[f.name], f)
  }

  lemma HeldStep(all: map<Name, Id>, left: set<Name>, n: Name, id: Id)
    requires n in left && left <= all.Keys
    ensures Holders(all, id) - (left - {n}) == if id == all[n] then Holders(all, id) - left + {n}
            else Holders(all, id) - left
  {
  }

  /** The names met so far, on each managed number. */
  ghost predicate Indexed(kind: Kind, all: map<Name, Id>, cls: Classifier, left: set<Name>, byId: map<Id, seq<Name>>) {
    && (forall id :: id in byId <==> ClassOf(cls, kind, id) == Managed && Holders(all, id) - left != {})
    && (forall id :: id in byId ==> SetOf(byId[id]) == Holders(all, id) - left && Distinct(Self, byId[id]))
  }

  lemma IndexStep(kind: Kind, all: map<Name, Id>, cls: Classifier, left: set<Name>, n: Name,
                  before: map<Id, seq<Name>>, after: map<Id, seq<Name>>)
    requires n in left && left <= all.Keys && Indexed(kind, all, cls, left, before)
    requires ClassOf(cls, kind, all[n]) != Managed ==> after == before
    requires ClassOf(cls, kind, all[n]) == Managed ==>
               && after.Keys == before.Keys + {all[n]}
               && (forall id :: id in before && id != all[n] ==> after[id] == before[id])
               && SetOf(after[all[n]]) == (if all[n] in before then SetOf(before[all[n]]) else {}) + {n}
               && Distinct(Self, after[all[n]])
    ensures Indexed(kind, all, cls, left - {n}, after)
  {
    forall id
      ensures Holders(all, id) - (left - {n}) == if id == all[n] then Holders(all, id) - left + {n}
              else Holders(all, id) - left
    {
      HeldStep(all, left, n, id);
    }
  }

  /** The names on each managed number, in the order met. */
  method ByNumber(kind: Kind, all: map<Name, Id>, cls: Classifier) returns (byId: map<Id, seq<Name>>)
    ensures Indexed(kind, all, cls, {}, byId)
  {
    byId := map[];
    var left := all.Keys;
    while left != {}
      invariant left <= all.Keys
      invariant Indexed(kind, all, cls, left, byId)
      decreases |left|
    {
      var n :| n in left;
      ghost var before := byId;
      if ClassOf(cls, kind, all[n]) == Managed {
        var was := if all[n] in byId then byId[all[n]] else [];
        OneMoreName(was, n);
        byId := byId[all[n] := was + [n]];
      }
      IndexStep(kind, all, cls, left, n, before, byId);
      left := left - {n};
    }
  }

  /** The lines for one number. */
  method ShareLines(kind: Kind, all: map<Name, Id>, id: Id, names: seq<Name>) returns (s: seq<Finding>)
    requires Distinct(Self, names) && SetOf(names) == Holders(all, id)
    ensures Distinct(FindingName, s)
    ensures forall f :: f in s <==> Line(kind, all, id, f)
  {
    s := [];
    if |names| < 2 {
      Alone(names, Holders(all, id));
      return;
    }
    var sorted := SortBy(Self, names);
    SortByAscending(Self, names);
    SortByMembers(Self, names);
    assert SetOf(sorted) == SetOf(names);
    SameLength(names);
    AscendingDistinct(Self, sorted);
    for i := 0 to |sorted|
      invariant Distinct(FindingName, s) && |s| == i
      invariant forall k :: 0 <= k < i ==>
                  s[k] == Finding(kind, sorted[k], Collision, 0, Some(id), SortedNames(Holders(all, id) - {sorted[k]}))
    {
      OthersOf(sorted, i, Holders(all, id));
      var f := Finding(kind, sorted[i], Collision, 0, Some(id), sorted[..i] + sorted[i + 1..]);
      forall k | 0 <= k < i ensures FindingName(s[k]) != f.name { assert Self(sorted[k]) != Self(sorted[i]); }
      s := s + [f];
    }
    forall f | Line(kind, all, id, f) ensures f in s
    {
      assert f.name in SetOf(sorted);
      var k :| 0 <= k < |sorted| && sorted[k] == f.name;
      assert s[k] == f;
    }
    forall f | f in s ensures f.others != [] && f.name in Holders(all, id) {
      var k :| 0 <= k < |s| && s[k] == f;
      OthersOf(sorted, k, Holders(all, id));
      assert sorted[k] in SetOf(sorted);
    }
  }

  lemma Alone(names: seq<Name>, holders: set<Name>)
    requires |names| < 2 && SetOf(names) == holders
    ensures forall n :: n in holders ==> SortedNames(holders - {n}) == []
  {
    forall n | n in holders ensures SortedNames(holders - {n}) == [] {
      assert n in SetOf(names);
      assert names == [n];
      assert holders - {n} == {};
      SortedEmpty(holders - {n});
    }
  }

  lemma SameLength(names: seq<Name>)
    ensures |SortBy(Self, names)| == |names|
  {
    SortByMultiset(Self, names);
    assert |multiset(SortBy(Self, names))| == |multiset(names)|;
  }

  lemma CutMembers(sorted: seq<Name>, i: nat)
    requires Ascending(Self, sorted) && i < |sorted|
    ensures forall n :: n in sorted[..i] + sorted[i + 1..] <==> n in sorted && n != sorted[i]
  {
    var cut := sorted[..i] + sorted[i + 1..];
    AscendingDistinct(Self, sorted);
    forall n ensures n in cut <==> n in sorted && n != sorted[i] {
      if n in sorted && n != sorted[i] {
        var k :| 0 <= k < |sorted| && sorted[k] == n;
        assert cut[if k < i then k else k - 1] == n;
      }
      if n in cut {
        var k :| 0 <= k < |cut| && cut[k] == n;
        var at := if k < i then k else k + 1;
        assert sorted[at] == n && Self(sorted[at]) != Self(sorted[i]);
      }
    }
  }

  /** Cutting one name out of the sorted list leaves the sorted list of the others. */
  lemma OthersOf(sorted: seq<Name>, i: nat, holders: set<Name>)
    requires Ascending(Self, sorted) && SetOf(sorted) == holders && i < |sorted|
    ensures sorted[..i] + sorted[i + 1..] == SortedNames(holders - {sorted[i]})
  {
    var cut := sorted[..i] + sorted[i + 1..];
    CutMembers(sorted, i);
    assert SetOf(cut) == holders - {sorted[i]};
    forall a, b | 0 <= a < b < |cut| ensures Less(Self(cut[a]), Self(cut[b])) {
      assert cut[a] == sorted[if a < i then a else a + 1] && cut[b] == sorted[if b < i then b else b + 1];
    }
    SortedNamesIs(cut, holders - {sorted[i]});
  }

  lemma IndexedIds(kind: Kind, all: map<Name, Id>, cls: Classifier, byId: map<Id, seq<Name>>)
    requires Indexed(kind, all, cls, {}, byId)
    ensures byId.Keys == ManagedIds(kind, all, cls)
  {
    var ids := ManagedIds(kind, all, cls);
    forall id ensures id in ids <==> id in byId.Keys {
      if id in ids {
        var n :| n in all && ClassOf(cls, kind, all[n]) == Managed && all[n] == id;
        assert n in Holders(all, id) - {};
      }
      if id in byId { var n :| n in Holders(all, id) - {}; }
    }
  }

  /** The names on one number, all of them and each once. */
  lemma IndexedNames(kind: Kind, all: map<Name, Id>, cls: Classifier, byId: map<Id, seq<Name>>, id: Id)
    requires Indexed(kind, all, cls, {}, byId) && id in byId
    ensures Distinct(Self, byId[id]) && SetOf(byId[id]) == Holders(all, id)
  {
    assert Holders(all, id) - {} == Holders(all, id);
  }

  method Collisions(kind: Kind, all: map<Name, Id>, cls: Classifier) returns (s: seq<Finding>)
    ensures Shared(kind, all, cls, ManagedIds(kind, all, cls), s)
  {
    var byId := ByNumber(kind, all, cls);
    s := [];
    var left := byId.Keys;
    while left != {}
      invariant left <= byId.Keys && Shared(kind, all, cls, byId.Keys - left, s)
      decreases |left|
    {
      var id :| id in left;
      IndexedNames(kind, all, cls, byId, id);
      var lines := ShareLines(kind, all, id, byId[id]);
      MoreLines(kind, all, cls, byId.Keys - left, id, s, lines);
      assert byId.Keys - (left - {id}) == byId.Keys - left + {id};
      left := left - {id};
      s := s + lines;
    }
    IndexedIds(kind, all, cls, byId);
    assert byId.Keys - {} == byId.Keys;
  }

  lemma MoreLines(kind: Kind, all: map<Name, Id>, cls: Classifier, ids: set<Id>, id: Id, s: seq<Finding>,
                  lines: seq<Finding>)
    requires Shared(kind, all, cls, ids, s) && id !in ids && Distinct(FindingName, lines)
    requires forall f :: f in lines <==> Line(kind, all, id, f)
    ensures Shared(kind, all, cls, ids + {id}, s + lines)
  {
    var t := s + lines;
    forall i, j | 0 <= i < j < |t| ensures FindingName(t[i]) != FindingName(t[j]) {
      if j < |s| {
        assert FindingName(s[i]) != FindingName(s[j]);
      } else if i < |s| {
        assert s[i] in s && lines[j - |s|] in lines;
      } else {
        assert FindingName(lines[i - |s|]) != FindingName(lines[j - |s|]);
      }
    }
    assert forall f :: f in t <==> f in s || f in lines;
  }

  /** The report holds every true finding and no other. */
  ghost predicate Exact(ro: Roster, answers: Resolved, seen: Resolved, cls: Classifier, fs: seq<Finding>) {
    forall f :: f in fs <==> True(ro, answers, seen, cls, f)
  }

  ghost predicate NamesOnce(ro: Roster) {
    Distinct(UserKey, ro.users) && Distinct(GroupKey, ro.groups)
  }

  /** The first loop: every declared user. */
  method JudgeUsers(us: seq<User>, answers: map<Name, Id>) returns (s: seq<Finding>, declared: set<Name>)
    ensures UserProblems(us, answers, s) && declared == UserNames(us)
  {
    s, declared := [], {};
    for i := 0 to |us|
      invariant UserProblems(us[..i], answers, s) && declared == UserNames(us[..i])
    {
      var v := JudgeUser(us[i], answers);
      UserStep(us[..i], us[i], answers, s, v);
      assert us[..i + 1] == us[..i] + [us[i]];
      declared, s := declared + {us[i].name}, s + v;
    }
    assert us[..|us|] == us;
  }

  /** The second loop: every declared group. */
  method JudgeGroups(gs: seq<Group>, answers: map<Name, Id>) returns (s: seq<Finding>, declared: set<Name>)
    ensures GroupProblems(gs, answers, s) && declared == GroupNames(gs)
  {
    s, declared := [], {};
    for i := 0 to |gs|
      invariant GroupProblems(gs[..i], answers, s) && declared == GroupNames(gs[..i])
    {
      var v := JudgeGroup(gs[i], answers);
      GroupStep(gs[..i], gs[i], answers, s, v);
      assert gs[..i + 1] == gs[..i] + [gs[i]];
      declared, s := declared + {gs[i].name}, s + v;
    }
    assert gs[..|gs|] == gs;
  }

  /** The parts of the report, unsorted. */
  method Gather(ro: Roster, answers: Resolved, seen: Resolved, cls: Classifier) returns (fs: seq<Finding>)
    ensures Exact(ro, answers, seen, cls, fs)
    ensures NamesOnce(ro) ==> KeysUnique(fs)
  {
    var users, declaredUsers := JudgeUsers(ro.users, answers.users);
    var groups, declaredGroups := JudgeGroups(ro.groups, answers.groups);
    var strayUsers := Sweep(OfUser, seen.users, cls, declaredUsers);
    var strayGroups := Sweep(OfGroup, seen.groups, cls, declaredGroups);
    var sharedUsers := Collisions(OfUser, seen.users, cls);
    var sharedGroups := Collisions(OfGroup, seen.groups, cls);
    fs := users + groups + strayUsers + strayGroups + sharedUsers + sharedGroups;
    AllParts(ro, answers, seen, cls, users, groups, strayUsers, strayGroups, sharedUsers, sharedGroups);
    if NamesOnce(ro) { PartsUnique(users, groups, strayUsers, strayGroups, sharedUsers, sharedGroups); }
  }

  function ManagedIds(kind: Kind, all: map<Name, Id>, cls: Classifier): set<Id> {
    set n | n in all && ClassOf(cls, kind, all[n]) == Managed :: all[n]
  }

  lemma AllParts(ro: Roster, answers: Resolved, seen: Resolved, cls: Classifier, users: seq<Finding>,
                 groups: seq<Finding>, strayUsers: seq<Finding>, strayGroups: seq<Finding>,
                 sharedUsers: seq<Finding>, sharedGroups: seq<Finding>)
    requires UserProblems(ro.users, answers.users, users) && GroupProblems(ro.groups, answers.groups, groups)
    requires Strays(OfUser, seen.users, cls, UserNames(ro.users), seen.users.Keys, strayUsers)
    requires Strays(OfGroup, seen.groups, cls, GroupNames(ro.groups), seen.groups.Keys, strayGroups)
    requires Shared(OfUser, seen.users, cls, ManagedIds(OfUser, seen.users, cls), sharedUsers)
    requires Shared(OfGroup, seen.groups, cls, ManagedIds(OfGroup, seen.groups, cls), sharedGroups)
    ensures Exact(ro, answers, seen, cls, users + groups + strayUsers + strayGroups + sharedUsers + sharedGroups)
  {
    forall f ensures f in users + groups + strayUsers + strayGroups + sharedUsers + sharedGroups
                     <==> True(ro, answers, seen, cls, f)
    {
      UserTrue(ro, answers, seen, cls, users, f);
      GroupTrue(ro, answers, seen, cls, groups, f);
      StrayTrue(ro, answers, seen, cls, strayUsers, strayGroups, f);
      SharedTrue(ro, answers, seen, cls, sharedUsers, sharedGroups, f);
    }
  }

  lemma UserTrue(ro: Roster, answers: Resolved, seen: Resolved, cls: Classifier, users: seq<Finding>, f: Finding)
    requires UserProblems(ro.users, answers.users, users)
    ensures f in users <==> f.kind == OfUser && f.code in DECLARED && True(ro, answers, seen, cls, f)
  {
    if f.kind == OfUser && f.code in DECLARED && True(ro, answers, seen, cls, f) {
      var e :| Declares(ro, f.kind, e) && EntryProblem(e, Side(answers, f.kind), f);
    }
    if f in users {
      var u :| u in ro.users && EntryProblem(Entry(u.name, u.uid, u.status == Reserved), answers.users, f);
      assert Declares(ro, OfUser, Entry(u.name, u.uid, u.status == Reserved));
    }
  }

  lemma GroupTrue(ro: Roster, answers: Resolved, seen: Resolved, cls: Classifier, groups: seq<Finding>, f: Finding)
    requires GroupProblems(ro.groups, answers.groups, groups)
    ensures f in groups <==> f.kind == OfGroup && f.code in DECLARED && True(ro, answers, seen, cls, f)
  {
    if f.kind == OfGroup && f.code in DECLARED && True(ro, answers, seen, cls, f) {
      var e :| Declares(ro, f.kind, e) && EntryProblem(e, Side(answers, f.kind), f);
    }
    if f in groups {
      var g :| g in ro.groups && EntryProblem(Entry(g.name, g.gid, false), answers.groups, f);
      assert Declares(ro, OfGroup, Entry(g.name, g.gid, false));
    }
  }

  lemma LedgerNames(ro: Roster, n: Name)
    ensures Ledger(ro, OfUser, n) <==> n in UserNames(ro.users)
    ensures Ledger(ro, OfGroup, n) <==> n in GroupNames(ro.groups)
  {
    if n in UserNames(ro.users) {
      var u :| u in ro.users && u.name == n;
      assert Declares(ro, OfUser, Entry(u.name, u.uid, u.status == Reserved));
    }
    if n in GroupNames(ro.groups) {
      var g :| g in ro.groups && g.name == n;
      assert Declares(ro, OfGroup, Entry(g.name, g.gid, false));
    }
  }

  lemma StrayTrue(ro: Roster, answers: Resolved, seen: Resolved, cls: Classifier,
                  strayUsers: seq<Finding>, strayGroups: seq<Finding>, f: Finding)
    requires Strays(OfUser, seen.users, cls, UserNames(ro.users), seen.users.Keys, strayUsers)
    requires Strays(OfGroup, seen.groups, cls, GroupNames(ro.groups), seen.groups.Keys, strayGroups)
    ensures f in strayUsers || f in strayGroups <==> f.code == Undeclared && True(ro, answers, seen, cls, f)
  {
    LedgerNames(ro, f.name);
  }

  lemma SharedTrue(ro: Roster, answers: Resolved, seen: Resolved, cls: Classifier,
                   sharedUsers: seq<Finding>, sharedGroups: seq<Finding>, f: Finding)
    requires Shared(OfUser, seen.users, cls, ManagedIds(OfUser, seen.users, cls), sharedUsers)
    requires Shared(OfGroup, seen.groups, cls, ManagedIds(OfGroup, seen.groups, cls), sharedGroups)
    ensures f in sharedUsers || f in sharedGroups <==> f.code == Collision && True(ro, answers, seen, cls, f)
  {
  }

  lemma PartsUnique(users: seq<Finding>, groups: seq<Finding>, strayUsers: seq<Finding>, strayGroups: seq<Finding>,
                    sharedUsers: seq<Finding>, sharedGroups: seq<Finding>)
    requires Part(users, OfUser, DECLARED) && Part(groups, OfGroup, DECLARED)
    requires Part(strayUsers, OfUser, {Undeclared}) && Part(strayGroups, OfGroup, {Undeclared})
    requires Part(sharedUsers, OfUser, {Collision}) && Part(sharedGroups, OfGroup, {Collision})
    ensures KeysUnique(users + groups + strayUsers + strayGroups + sharedUsers + sharedGroups)
  {
    PartUnique(users, OfUser, DECLARED);
    PartUnique(groups, OfGroup, DECLARED);
    PartUnique(strayUsers, OfUser, {Undeclared});
    PartUnique(strayGroups, OfGroup, {Undeclared});
    PartUnique(sharedUsers, OfUser, {Collision});
    PartUnique(sharedGroups, OfGroup, {Collision});
    JoinParts(users, groups);
    JoinParts(users + groups, strayUsers);
    JoinParts(users + groups + strayUsers, strayGroups);
    JoinParts(users + groups + strayUsers + strayGroups, sharedUsers);
    JoinParts(users + groups + strayUsers + strayGroups + sharedUsers, sharedGroups);
  }

  predicate Ok(rep: Report) { rep.findings == [] }

  /** The audit: its report holds exactly the true findings, in order, and it is clean exactly when the
      system agrees with the ledger. */
  method Run(ro: Roster, answers: Resolved, seen: Resolved, cls: Classifier) returns (rep: Report)
    ensures Exact(ro, answers, seen, cls, rep.findings)
    ensures NamesOnce(ro) ==> Increasing(rep.findings)
    ensures Ok(rep) <==> Agrees(ro, answers, seen, cls)
    ensures rep.usersChecked == |ro.users| && rep.groupsChecked == |ro.groups|
    ensures rep.enumeratedUsers == |seen.users| && rep.enumeratedGroups == |seen.groups|
  {
    var fs := Gather(ro, answers, seen, cls);
    var sorted := SortFindings(fs);
    forall f ensures f in sorted <==> True(ro, answers, seen, cls, f) { SortMembers(fs, f); }
    if NamesOnce(ro) { SortIncreasing(fs); }
    rep := Report(|ro.users|, |ro.groups|, sorted, |seen.users|, |seen.groups|);
    NothingTrueExactly(ro, answers, seen, cls);
    assert Ok(rep) <==> forall f :: f !in sorted by { if sorted != [] { assert sorted[0] in sorted; } }
  }

  /** Each collision names the other holders, and all of them report each other. */
  lemma CollisionsMutual(ro: Roster, answers: Resolved, seen: Resolved, cls: Classifier, fs: seq<Finding>, f: Finding)
    requires Exact(ro, answers, seen, cls, fs) && f in fs && f.code == Collision
    ensures f.name !in f.others && SetOf(f.others) == Holders(Side(seen, f.kind), f.got.value) - {f.name}
    ensures forall n :: n in f.others ==>
              exists g :: g in fs && g.kind == f.kind && g.code == Collision && g.name == n && f.name in g.others
  {
    var all := Side(seen, f.kind);
    var id := all[f.name];
    assert SetOf(f.others) == Holders(all, id) - {f.name};
    forall n | n in f.others
      ensures exists g :: g in fs && g.kind == f.kind && g.code == Collision && g.name == n && f.name in g.others
    {
      assert n in SetOf(f.others);
      var rest := Holders(all, id) - {n};
      var g := Finding(f.kind, n, Collision, 0, Some(id), SortedNames(rest));
      assert SetOf(g.others) == rest && f.name in SetOf(g.others);
      assert True(ro, answers, seen, cls, g);
      assert g in fs;
    }
  }
}
