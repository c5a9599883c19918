/** Small shared vocabulary: optional values, ids, and concatenation of per-element lists. */
module Common {

  datatype Option<+T> = None | Some(value: T)

  /** A uid or gid as the kernel stores it. */
  type Id = x: int | 0 <= x < 0x1_0000_0000

  /** A byte count (uint64). */
  type Bytes = x: int | 0 <= x < 0x1_0000_0000_0000_0000

  /** A directory as stat shows it; perm folds setgid in as 0o2000. */
  datatype Dir = Dir(perm: nat, uid: Id, gid: Id)

  /** The concatenation of f over s: what a loop that appends f(x) for each x builds. */
  function Flat<T, R>(f: T -> seq<R>, s: seq<T>): seq<R> {
    if s == [] then [] else f(s[0]) + Flat(f, s[1..])
  }

  lemma {:induction false} FlatMember<T(!new), R>(f: T -> seq<R>, s: seq<T>, r: R)
    ensures r in Flat(f, s) <==> exists x :: x in s && r in f(x)
  {
    if s != [] {
      FlatMember(f, s[1..], r);
      assert s == [s[0]] + s[1..];
    }
  }

  lemma {:induction false} FlatPointwise<T(!new), R>(f: T -> seq<R>, g: T -> seq<R>, s: seq<T>)
    requires forall x :: x in s ==> f(x) == g(x)
    ensures Flat(f, s) == Flat(g, s)
  {
    if s != [] {
      assert forall x :: x in s[1..] ==> x in s;
      FlatPointwise(f, g, s[1..]);
    }
  }

  lemma {:induction false} FlatAppend<T, R>(f: T -> seq<R>, s: seq<T>, x: T)
    ensures Flat(f, s + [x]) == Flat(f, s) + f(x)
  {
    if s == [] {
      assert [x][1..] == [];
    } else {
      FlatAppend(f, s[1..], x);
      assert (s + [x])[1..] == s[1..] + [x];
    }
  }

  lemma {:induction false} FlatConcat<T, R>(f: T -> seq<R>, a: seq<T>, b: seq<T>)
    ensures Flat(f, a + b) == Flat(f, a) + Flat(f, b)
  {
    if a == [] {
      assert a + b == b;
    } else {
      FlatConcat(f, a[1..], b);
      assert (a + b)[1..] == a[1..] + b;
    }
  }

  /** The list around its i-th turn. */
  lemma FlatAround<T, R>(f: T -> seq<R>, s: seq<T>, i: nat)
    requires i < |s|
    ensures Flat(f, s) == Flat(f, s[..i]) + f(s[i]) + Flat(f, s[i + 1..])
  {
    var a, b := s[..i], s[i..];
    assert s == a + b;
    FlatConcat(f, a, b);
    assert b[0] == s[i] && b[1..] == s[i + 1..];
    var x, y, z := Flat(f, a), f(s[i]), Flat(f, s[i + 1..]);
    assert Flat(f, b) == y + z;
    assert x + (y + z) == x + y + z;
  }

  /** One more turn of the loop. */
  lemma FlatStep<T, R>(f: T -> seq<R>, s: seq<T>, i: nat)
    requires i < |s|
    ensures Flat(f, s[..i + 1]) == Flat(f, s[..i]) + f(s[i])
  {
    FlatAppend(f, s[..i], s[i]);
    assert s[..i + 1] == s[..i] + [s[i]];
  }
}
