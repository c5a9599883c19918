/** Names, their byte-wise order, and the canonical sorted list of a set of names. */
module Names {

  type Name = string

  function SetOf<T>(s: seq<T>): set<T> {
    set x | x in s
  }

  /** Strict lexicographic order, as Go compares strings. */
  predicate Less(a: Name, b: Name) {
    if b == [] then false
    else if a == [] then true
    else a[0] < b[0] || (a[0] == b[0] && Less(a[1..], b[1..]))
  }

  /** A name is before another if it is smaller at the first place where they differ, or a part of it. */
  lemma {:induction false} LessExact(a: Name, b: Name)
    ensures Less(a, b) <==> exists i :: 0 <= i < |b| && Smaller(a, b, i)
  {
    if a != [] && b != [] && a[0] == b[0] {
      LessExact(a[1..], b[1..]);
      assert a == [a[0]] + a[1..] && b == [b[0]] + b[1..];
      if i :| 0 <= i < |b[1..]| && Smaller(a[1..], b[1..], i) {
        assert a[..i + 1] == [a[0]] + a[1..][..i] && b[..i + 1] == [b[0]] + b[1..][..i];
        assert Smaller(a, b, i + 1);
      }
      if i :| 0 <= i < |b| && Smaller(a, b, i) {
        assert i > 0 && a[1..][..i - 1] == a[..i][1..] && b[1..][..i - 1] == b[..i][1..];
        assert Smaller(a[1..], b[1..], i - 1);
      }
    } else if b != [] && (a == [] || a[0] < b[0]) {
      assert Smaller(a, b, 0);
    }
  }

  predicate Smaller(a: Name, b: Name, i: int) {
    0 <= i <= |a| && i < |b| && a[..i] == b[..i] && (i == |a| || a[i] < b[i])
  }

  lemma {:induction false} LessTotal(a: Name, b: Name)
    ensures Less(a, b) || Less(b, a) || a == b
  {
    if a != [] && b != [] && a[0] == b[0] {
      LessTotal(a[1..], b[1..]);
      if a[1..] == b[1..] {
        assert a == [a[0]] + a[1..] == b;
      }
    }
  }

  lemma {:induction false} LessAsymmetric(a: Name, b: Name)
    requires Less(a, b)
    ensures !Less(b, a) && a != b
  {
    if a != [] && b != [] && a[0] == b[0] {
      LessAsymmetric(a[1..], b[1..]);
    }
  }

  lemma {:induction false} LessTransitive(a: Name, b: Name, c: Name)
    requires Less(a, b) && Less(b, c)
    ensures Less(a, c)
  {
    if a != [] && b != [] && c != [] && a[0] == b[0] && b[0] == c[0] {
      LessTransitive(a[1..], b[1..], c[1..]);
    }
  }

  ghost predicate IsLeast(m: Name, s: set<Name>) {
    m in s && forall x :: x in s && x != m ==> Less(m, x)
  }

  lemma {:induction false} LeastExists(s: set<Name>)
    requires s != {}
    ensures exists m :: IsLeast(m, s)
    decreases |s|
  {
    var x :| x in s;
    var rest := s - {x};
    assert s == rest + {x};
    if rest == {} {
      assert IsLeast(x, s);
    } else {
      LeastExists(rest);
      var m :| IsLeast(m, rest);
      LessTotal(x, m);
      if Less(x, m) {
        forall y | y in s && y != x ensures Less(x, y) {
          if y != m { LessTransitive(x, m, y); }
        }
        assert IsLeast(x, s);
      } else {
        assert IsLeast(m, s);
      }
    }
  }

  /** The keys of a list. */
  function KeysOf<T>(key: T -> Name, s: seq<T>): set<Name> {
    if s == [] then {} else {key(s[0])} + KeysOf(key, s[1..])
  }

  lemma {:induction false} KeysOfExact<T(!new)>(key: T -> Name, s: seq<T>, n: Name)
    ensures n in KeysOf(key, s) <==> exists x :: x in s && key(x) == n
  {
    if s != [] {
      KeysOfExact(key, s[1..], n);
      assert s == [s[0]] + s[1..];
    }
  }

  // --- sorting a list by a name-valued key (sort.Slice) ---

  ghost predicate Ascending<T(!new)>(key: T -> Name, s: seq<T>) {
    forall i, j :: 0 <= i < j < |s| ==> Less(key(s[i]), key(s[j]))
  }

  /** No two positions carry the same key. */
  ghost predicate Distinct<T(!new)>(key: T -> Name, s: seq<T>) {
    forall i, j :: 0 <= i < j < |s| ==> key(s[i]) != key(s[j])
  }

  lemma AscendingDistinct<T(!new)>(key: T -> Name, s: seq<T>)
    requires Ascending(key, s)
    ensures Distinct(key, s)
  {
    forall i, j | 0 <= i < j < |s| ensures key(s[i]) != key(s[j]) {
      LessAsymmetric(key(s[i]), key(s[j]));
    }
  }

  function InsertBy<T(!new)>(key: T -> Name, x: T, s: seq<T>): seq<T> {
    if s == [] then [x]
    else if Less(key(s[0]), key(x)) then [s[0]] + InsertBy(key, x, s[1..])
    else [x] + s
  }

  function SortBy<T(!new)>(key: T -> Name, s: seq<T>): seq<T> {
    if s == [] then [] else InsertBy(key, s[0], SortBy(key, s[1..]))
  }

  lemma {:induction false} InsertByMembers<T(!new)>(key: T -> Name, x: T, s: seq<T>)
    ensures forall y :: y in InsertBy(key, x, s) <==> y == x || y in s
  {
    if s != [] && Less(key(s[0]), key(x)) {
      InsertByMembers(key, x, s[1..]);
      assert s == [s[0]] + s[1..];
    }
  }

  lemma {:induction false} InsertByMultiset<T(!new)>(key: T -> Name, x: T, s: seq<T>)
    ensures multiset(InsertBy(key, x, s)) == multiset{x} + multiset(s)
  {
    if s != [] && Less(key(s[0]), key(x)) {
      InsertByMultiset(key, x, s[1..]);
      assert s == [s[0]] + s[1..];
    }
  }

  lemma {:induction false} SortByMultiset<T(!new)>(key: T -> Name, s: seq<T>)
    ensures multiset(SortBy(key, s)) == multiset(s)
  {
    if s != [] {
      SortByMultiset(key, s[1..]);
      InsertByMultiset(key, s[0], SortBy(key, s[1..]));
      assert s == [s[0]] + s[1..];
    }
  }

  lemma {:induction false} InsertByAscending<T(!new)>(key: T -> Name, x: T, s: seq<T>)
    requires Ascending(key, s)
    requires forall y :: y in s ==> key(y) != key(x)
    ensures Ascending(key, InsertBy(key, x, s))
  {
    if s != [] {
      if Less(key(s[0]), key(x)) {
        InsertByAscending(key, x, s[1..]);
        InsertByMembers(key, x, s[1..]);
        PrependAscending(key, s[0], InsertBy(key, x, s[1..]));
      } else {
        LessTotal(key(s[0]), key(x));
        forall y | y in s ensures Less(key(x), key(y)) {
          if y != s[0] { LessTransitive(key(x), key(s[0]), key(y)); }
        }
        PrependAscending(key, x, s);
      }
    }
  }

  lemma PrependAscending<T(!new)>(key: T -> Name, x: T, s: seq<T>)
    requires Ascending(key, s)
    requires forall y :: y in s ==> Less(key(x), key(y))
    ensures Ascending(key, [x] + s)
  {
    var r := [x] + s;
    forall i, j | 0 <= i < j < |r| ensures Less(key(r[i]), key(r[j])) {
      assert r[j] == s[j - 1];
      if i > 0 { assert r[i] == s[i - 1]; }
    }
  }

  lemma {:induction false} SortByMembers<T(!new)>(key: T -> Name, s: seq<T>)
    ensures forall y :: y in SortBy(key, s) <==> y in s
  {
    if s != [] {
      SortByMembers(key, s[1..]);
      InsertByMembers(key, s[0], SortBy(key, s[1..]));
      assert s == [s[0]] + s[1..];
    }
  }

  lemma {:induction false} SortByAscending<T(!new)>(key: T -> Name, s: seq<T>)
    requires Distinct(key, s)
    ensures Ascending(key, SortBy(key, s))
  {
    if s != [] {
      assert Distinct(key, s[1..]);
      SortByAscending(key, s[1..]);
      SortByMembers(key, s[1..]);
      forall y | y in SortBy(key, s[1..]) ensures key(y) != key(s[0]) {
        var i :| 0 <= i < |s[1..]| && s[1..][i] == y;
        assert s[i + 1] == y;
      }
      InsertByAscending(key, s[0], SortBy(key, s[1..]));
    }
  }

  /** An ascending list is determined by its members. */
  lemma {:induction false} AscendingUnique<T(!new)>(key: T -> Name, a: seq<T>, b: seq<T>)
    requires Ascending(key, a) && Ascending(key, b)
    requires forall y :: y in a <==> y in b
    ensures a == b
  {
    assert (a != [] ==> a[0] in a) && (b != [] ==> b[0] in b);
    if a != [] && b != [] {
      assert a[0] in b && b[0] in a;
      if a[0] != b[0] { LessAsymmetric(key(a[0]), key(b[0])); }
      forall y ensures y in a[1..] <==> y in b[1..] {
        TailMembers(key, a, y);
        TailMembers(key, b, y);
      }
      AscendingUnique(key, a[1..], b[1..]);
      assert a == [a[0]] + a[1..] && b == [b[0]] + b[1..];
    }
  }

  lemma TailMembers<T(!new)>(key: T -> Name, a: seq<T>, y: T)
    requires Ascending(key, a) && a != []
    ensures y in a[1..] <==> y in a && y != a[0]
  {
    assert a == [a[0]] + a[1..];
    if y in a[1..] {
      var i :| 0 <= i < |a[1..]| && a[1..][i] == y;
      LessAsymmetric(key(a[0]), key(a[i + 1]));
    }
  }

  /** With distinct keys, sorting forgets the order it was given: permuted inputs sort alike. */
  lemma SortByPermuted<T(!new)>(key: T -> Name, a: seq<T>, b: seq<T>)
    requires Distinct(key, a) && Distinct(key, b)
    requires forall y :: y in a <==> y in b
    ensures SortBy(key, a) == SortBy(key, b)
  {
    SortByAscending(key, a);
    SortByAscending(key, b);
    SortByMembers(key, a);
    SortByMembers(key, b);
    AscendingUnique(key, SortBy(key, a), SortBy(key, b));
  }

  // --- lists of names ---

  function Self(n: Name): Name { n }

  ghost predicate Lists(q: seq<Name>, s: set<Name>) {
    Ascending(Self, q) && SetOf(q) == s
  }

  lemma {:induction false} ListExists(s: set<Name>)
    ensures exists q :: Lists(q, s)
    decreases |s|
  {
    if s == {} {
      assert Lists([], s);
    } else {
      LeastExists(s);
      var m :| IsLeast(m, s);
      ListExists(s - {m});
      var t :| Lists(t, s - {m});
      assert forall y :: y in t <==> y in SetOf(t);
      PrependAscending(Self, m, t);
      assert forall y :: y in [m] + t <==> y == m || y in t;
      assert Lists([m] + t, s);
    }
  }

  /** The members of s in ascending order. */
  ghost function SortedNames(s: set<Name>): (q: seq<Name>)
    ensures Ascending(Self, q)
    ensures SetOf(q) == s
  {
    ListExists(s);
    var q :| Lists(q, s);
    q
  }

  lemma SortedEmpty(s: set<Name>)
    ensures SortedNames(s) == [] <==> s == {}
  {
    if SortedNames(s) != [] {
      assert SortedNames(s)[0] in SetOf(SortedNames(s));
    }
  }

  lemma SortedNamesIs(q: seq<Name>, s: set<Name>)
    requires Ascending(Self, q) && SetOf(q) == s
    ensures q == SortedNames(s)
  {
    forall y ensures y in q <==> y in SortedNames(s) {
      assert y in SetOf(q) <==> y in SetOf(SortedNames(s));
    }
    AscendingUnique(Self, q, SortedNames(s));
  }

  lemma OneMoreName(names: seq<Name>, n: Name)
    requires Distinct(Self, names) && n !in SetOf(names)
    ensures Distinct(Self, names + [n]) && SetOf(names + [n]) == SetOf(names) + {n}
  {
    forall i | 0 <= i < |names| ensures Self(names[i]) != n { assert names[i] in SetOf(names); }
  }

  /** sort.Strings of a set's members, picked in any order. */
  method Sorted(s: set<Name>) returns (q: seq<Name>)
    ensures q == SortedNames(s)
  {
    var rest, picked := s, [];
    while rest != {}
      invariant rest <= s && SetOf(picked) == s - rest && Distinct(Self, picked)
      decreases |rest|
    {
      var n :| n in rest;
      OneMoreName(picked, n);
      rest, picked := rest - {n}, picked + [n];
    }
    q := SortBy(Self, picked);
    SortByAscending(Self, picked);
    SortByMembers(Self, picked);
    assert SetOf(q) == SetOf(picked);
    SortedNamesIs(q, s);
  }
}
