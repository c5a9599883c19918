/** The managed block of smb.conf: where it goes, and when splicing it twice is splicing it once
    (internal/smbconf/smbconf.go, Splice). */
module Splice {
  import opened Common

  const BEGIN := "# >>> usersync-shares >>>"

  const END := "# <<< usersync-shares <<<"

  predicate At(s: string, sub: string, i: nat) {
    i + |sub| <= |s| && s[i..i + |sub|] == sub
  }

  /** strings.Index, from position i on. */
  function IndexFrom(s: string, sub: string, i: nat): Option<nat>
    requires i <= |s|
    decreases |s| - i
  {
    if At(s, sub, i) then Some(i) else if i == |s| then None else IndexFrom(s, sub, i + 1)
  }

  function Index(s: string, sub: string): Option<nat> { IndexFrom(s, sub, 0) }

  lemma {:induction false} IndexFromExact(s: string, sub: string, i: nat)
    requires i <= |s|
    ensures match IndexFrom(s, sub, i)
            case Some(k) => i <= k && At(s, sub, k) && forall j :: i <= j < k ==> !At(s, sub, j)
            case None => forall j :: i <= j ==> !At(s, sub, j)
    decreases |s| - i
  {
    if !At(s, sub, i) && i < |s| { IndexFromExact(s, sub, i + 1); }
  }

  /** The first occurrence is the one before which there is none. */
  lemma IndexIs(s: string, sub: string, k: nat)
    requires At(s, sub, k) && forall j: nat :: j < k ==> !At(s, sub, j)
    ensures Index(s, sub) == Some(k)
  {
    IndexFromExact(s, sub, 0);
  }

  predicate EndsLine(s: string) { s != "" && s[|s| - 1] == '\n' }

  function Lined(block: string): string {
    if EndsLine(block) then block else block + "\n"
  }

  /** The blank line that separates an appended block. */
  function Glue(s: string): string {
    if s == "" then "" else if EndsLine(s) then "\n" else "\n\n"
  }

  function TailAfter(s: string, end: nat): (t: nat)
    requires At(s, END, end)
    ensures end < t <= |s|
  {
    var t := end + |END|;
    if t < |s| && s[t] == '\n' then t + 1 else t
  }

  function Splice(existing: string, block: string): string {
    var b, begin, end := Lined(block), Index(existing, BEGIN), Index(existing, END);
    if begin.Some? && end.Some? && end.value > begin.value then
      IndexFromExact(existing, BEGIN, 0);
      IndexFromExact(existing, END, 0);
      existing[..begin.value] + b + existing[TailAfter(existing, end.value)..]
    else existing + Glue(existing) + b
  }

  /** A block as Render makes it: one begin marker at the start, the first end marker on its last line. */
  ghost predicate Block(b: string) {
    |b| > 0 && b[|b| - 1] == '\n' && At(b, BEGIN, 0)
    && |b| > |END| && Index(b, END) == Some(|b| - 1 - |END|) && |b| - 1 - |END| > 0
  }

  /** A block that opens with the begin marker and holds an end marker somewhere, perhaps not only at its end. */
  ghost predicate Framed(b: string) {
    EndsLine(b) && At(b, BEGIN, 0) && Index(b, END).Some? && Index(b, END).value > 0
  }

  /** Where the first end marker's line ends in a framed block. */
  function Inner(b: string): (t: nat)
    requires Index(b, END).Some?
    ensures t <= |b|
  {
    IndexFromExact(b, END, 0);
    TailAfter(b, Index(b, END).value)
  }

  lemma BlockFramed(b: string)
    requires Block(b)
    ensures Framed(b) && Inner(b) == |b|
  {
    IndexFromExact(b, END, 0);
  }

  /** No markers, or the first begin marker before the first end marker. */
  ghost predicate WellPlaced(e: string) {
    (Index(e, BEGIN).None? && Index(e, END).None?)
    || (Index(e, BEGIN).Some? && Index(e, END).Some? && Index(e, BEGIN).value < Index(e, END).value)
  }

  // --- occurrences across a seam ---

  lemma AtPrefix(a: string, b: string, sub: string, i: nat)
    requires i + |sub| <= |a|
    ensures At(a + b, sub, i) <==> At(a, sub, i)
  {
    assert (a + b)[i..i + |sub|] == a[i..i + |sub|];
  }

  lemma AtSuffix(a: string, b: string, sub: string, i: nat)
    ensures At(a + b, sub, |a| + i) <==> At(b, sub, i)
  {
    if i + |sub| <= |b| { assert (a + b)[|a| + i..|a| + i + |sub|] == b[i..i + |sub|]; }
  }

  /** Text that holds a newline before the seam cannot hide the start of a marker that ends beyond it. */
  lemma NoStraddle(a: string, b: string, sub: string, i: nat)
    requires i < |a| < i + |sub| && '\n' !in sub
    requires EndsLine(a)
    ensures !At(a + b, sub, i)
  {
    if i + |sub| <= |a + b| {
      var w := (a + b)[i..i + |sub|];
      assert w[|a| - 1 - i] == '\n';
      assert w == sub ==> '\n' in sub;
    }
  }

  /** Two texts that go on alike for the length of sub have the same occurrences before the seam. */
  lemma SameBefore(a: string, x: string, y: string, sub: string, i: nat)
    requires i < |a| && |sub| <= |x| && |sub| <= |y| && x[..|sub|] == y[..|sub|]
    ensures At(a + x, sub, i) <==> At(a + y, sub, i)
  {
    var n := i + |sub|;
    assert (a + x)[..|a| + |sub|] == a + x[..|sub|] == a + y[..|sub|] == (a + y)[..|a| + |sub|];
    assert (a + x)[i..n] == (a + x)[..|a| + |sub|][i..n];
    assert (a + y)[i..n] == (a + y)[..|a| + |sub|][i..n];
  }

  // --- a file with the block in place ---

  /** Before pre + b + post the text has no marker, across the seam included. */
  ghost predicate Clean(pre: string, b: string, sub: string) {
    forall i: nat :: i < |pre| ==> !At(pre + b, sub, i)
  }

  /** With no earlier occurrence the first one in the block is the first in the text. */
  lemma FirstIn(pre: string, b: string, post: string, sub: string, k: nat)
    requires Index(b, sub) == Some(k) && Clean(pre, b, sub)
    ensures Index(pre + b + post, sub) == Some(|pre| + k)
  {
    var s := pre + b + post;
    assert s == (pre + b) + post;
    IndexFromExact(b, sub, 0);
    AtSuffix(pre, b, sub, k);
    AtPrefix(pre + b, post, sub, |pre| + k);
    forall i: nat | i < |pre| + k ensures !At(s, sub, i) {
      if i + |sub| <= |pre + b| { AtPrefix(pre + b, post, sub, i); }
      if i >= |pre| { AtSuffix(pre, b, sub, i - |pre|); }
    }
    IndexIs(s, sub, |pre| + k);
  }

  lemma PlacedAt(pre: string, b: string, post: string)
    requires Framed(b) && Clean(pre, b, BEGIN) && Clean(pre, b, END)
    ensures Index(pre + b + post, BEGIN) == Some(|pre|)
    ensures Index(pre + b + post, END) == Some(|pre| + Index(b, END).value)
  {
    IndexIs(b, BEGIN, 0);
    FirstIn(pre, b, post, BEGIN, 0);
    FirstIn(pre, b, post, END, Index(b, END).value);
  }

  /** Splicing where a block is replaces it up to its first end marker's line. */
  lemma SplicePlaced(pre: string, b: string, post: string, c: string)
    requires Framed(b) && EndsLine(c) && Clean(pre, b, BEGIN) && Clean(pre, b, END)
    ensures Splice(pre + b + post, c) == pre + c + (b[Inner(b)..] + post)
  {
    var s := pre + b + post;
    PlacedAt(pre, b, post);
    IndexFromExact(s, END, 0);
    InnerPlaced(pre, b, post);
    SpliceAt(s, c);
    Cut(pre, b, post, Inner(b));
  }

  lemma SpliceAt(s: string, c: string)
    requires EndsLine(c) && Index(s, BEGIN).Some? && Index(s, END).Some? && Index(s, BEGIN).value < Index(s, END).value
    requires At(s, END, Index(s, END).value) && Index(s, BEGIN).value <= |s|
    ensures Splice(s, c) == s[..Index(s, BEGIN).value] + c + s[TailAfter(s, Index(s, END).value)..]
  {
  }

  lemma Cut(pre: string, b: string, post: string, t: nat)
    requires t <= |b|
    ensures (pre + b + post)[..|pre|] == pre && (pre + b + post)[|pre| + t..] == b[t..] + post
  {
  }

  lemma InnerPlaced(pre: string, b: string, post: string)
    requires Framed(b) && At(pre + b + post, END, |pre| + Index(b, END).value)
    ensures TailAfter(pre + b + post, |pre| + Index(b, END).value) == |pre| + Inner(b)
  {
    IndexFromExact(b, END, 0);
    var s, k, t := pre + b + post, Index(b, END).value, Index(b, END).value + |END|;
    assert b[t - 1] == b[k..t][|END| - 1] == '<';
    assert t < |b| && s[|pre| + t] == b[t];
  }

  // --- what one splice makes ---

  /** The text kept before and after the block. */
  function Before(e: string): string {
    if Index(e, BEGIN).Some? && Index(e, END).Some? && Index(e, BEGIN).value < Index(e, END).value
    then (IndexFromExact(e, BEGIN, 0); e[..Index(e, BEGIN).value])
    else e + Glue(e)
  }

  function After(e: string): string {
    if Index(e, BEGIN).Some? && Index(e, END).Some? && Index(e, BEGIN).value < Index(e, END).value
    then (IndexFromExact(e, END, 0); e[TailAfter(e, Index(e, END).value)..])
    else ""
  }

  ghost predicate HasBlock(e: string) {
    Index(e, BEGIN).Some? && Index(e, END).Some? && Index(e, BEGIN).value < Index(e, END).value
  }

  /** From a begin marker to the end of an end marker's line. */
  ghost predicate OldBlock(was: string) {
    At(was, BEGIN, 0) && exists k: nat :: At(was, END, k) && TailAfter(was, k) == |was|
  }

  ghost predicate First(s: string, sub: string, k: nat) {
    At(s, sub, k) && forall j: nat :: j < k ==> !At(s, sub, j)
  }

  /** The old block: from the first begin marker to the first end marker, with the newline that follows it. */
  lemma BlockBounds(e: string) returns (k: nat)
    requires HasBlock(e)
    ensures First(e, BEGIN, |Before(e)|) && First(e, END, k) && |Before(e)| < k
    ensures After(e) == e[if k + |END| < |e| && e[k + |END|] == '\n' then k + |END| + 1 else k + |END|..]
  {
    IndexFromExact(e, BEGIN, 0);
    IndexFromExact(e, END, 0);
    k := Index(e, END).value;
  }

  /** A block that does not end its last line has it ended. */
  lemma SpliceLined(e: string, b: string)
    requires b == "" || b[|b| - 1] != '\n'
    ensures Splice(e, b) == Splice(e, b + "\n")
  {
  }

  /** A splice puts the block where an old one was; or after the text, on a line of its own, with an empty line
      in between, unless there is no text. The rest stays verbatim. */
  lemma SpliceIs(e: string, b: string)
    requires EndsLine(b)
    ensures Splice(e, b) == Before(e) + b + After(e)
    ensures HasBlock(e) ==> exists was :: e == Before(e) + was + After(e) && OldBlock(was)
    ensures !HasBlock(e) ==>
              && After(e) == ""
              && Before(e) == e + if e == "" then "" else if e[|e| - 1] == '\n' then "\n" else "\n\n"
  {
    if HasBlock(e) {
      var was := OldBlockIs(e);
    } else {
      assert e + Glue(e) + b == Before(e) + b + After(e);
      assert e + "" == e;
    }
  }

  lemma OldBlockIs(e: string) returns (was: string)
    requires HasBlock(e)
    ensures e == Before(e) + was + After(e) && OldBlock(was)
  {
    IndexFromExact(e, BEGIN, 0);
    IndexFromExact(e, END, 0);
    var i, j := Index(e, BEGIN).value, Index(e, END).value;
    var t := TailAfter(e, j);
    MarkersDisjoint(e, i, j);
    was := e[i..t];
    Sliced(e, BEGIN, i, t, i);
    Sliced(e, END, i, t, j);
    SlicedTail(e, i, j, t);
    Thirds(e, i, t);
  }

  lemma Thirds(e: string, i: nat, t: nat)
    requires i <= t <= |e|
    ensures e == e[..i] + e[i..t] + e[t..]
  {
  }

  lemma SlicedTail(e: string, i: nat, j: nat, t: nat)
    requires i <= j && At(e, END, j) && t == TailAfter(e, j) && At(e[i..t], END, j - i)
    ensures TailAfter(e[i..t], j - i) == t - i
  {
  }

  /** A marker inside a slice. */
  lemma Sliced(e: string, sub: string, i: nat, t: nat, j: nat)
    requires At(e, sub, j) && i <= j && j + |sub| <= t <= |e|
    ensures At(e[i..t], sub, j - i)
  {
    assert e == e[..t] + e[t..] && e[..t] == e[..i] + e[i..t];
    AtPrefix(e[..t], e[t..], sub, j);
    AtSuffix(e[..i], e[i..t], sub, j - i);
  }

  /** An end marker does not begin inside a begin marker. */
  lemma MarkersDisjoint(e: string, i: nat, j: nat)
    requires At(e, BEGIN, i) && At(e, END, j) && i < j
    ensures i + |BEGIN| <= j
  {
    OneHash(e, i);
    assert e[j] == e[j..j + |END|][0] == '#';
  }

  lemma OneHash(e: string, i: nat)
    requires At(e, BEGIN, i)
    ensures forall k :: i < k < i + |BEGIN| ==> e[k] != '#'
  {
    assert forall k :: 0 < k < |BEGIN| ==> BEGIN[k] != '#';
    forall k | i < k < i + |BEGIN| ensures e[k] != '#' {
      assert e[k] == e[i..i + |BEGIN|][k - i] == BEGIN[k - i];
    }
  }

  lemma NoNewlines()
    ensures '\n' !in BEGIN && '\n' !in END && |BEGIN| == 25 && |END| == 25
  {
  }

  lemma CleanReplaced(e: string, b: string)
    requires Framed(b) && Index(e, BEGIN).Some? && Index(e, END).Some? && Index(e, BEGIN).value < Index(e, END).value
    ensures Clean(Before(e), b, BEGIN) && Clean(Before(e), b, END)
  {
    NoNewlines();
    IndexFromExact(e, BEGIN, 0);
    IndexFromExact(e, END, 0);
    var k := Index(e, BEGIN).value;
    var pre, rest := e[..k], e[k..];
    assert e == pre + rest && rest[..25] == BEGIN && b[..25] == BEGIN;
    forall i: nat | i < |pre| ensures !At(pre + b, BEGIN, i) && !At(pre + b, END, i) {
      SameBefore(pre, rest, b, BEGIN, i);
      SameBefore(pre, rest, b, END, i);
    }
  }

  lemma CleanAppended(e: string, b: string)
    requires Framed(b) && Index(e, BEGIN).None? && Index(e, END).None?
    ensures Clean(Before(e), b, BEGIN) && Clean(Before(e), b, END)
  {
    NoNewlines();
    IndexFromExact(e, BEGIN, 0);
    IndexFromExact(e, END, 0);
    var pre := e + Glue(e);
    forall i: nat | i < |pre| ensures !At(pre + b, BEGIN, i) && !At(pre + b, END, i) {
      NotAcross(e, Glue(e), b, BEGIN, i);
      NotAcross(e, Glue(e), b, END, i);
    }
  }

  /** A marker of 25 characters, none a newline, that is not in e is not in e + glue + b before b. */
  lemma NotAcross(e: string, glue: string, b: string, sub: string, i: nat)
    requires glue == Glue(e) && i < |e + glue| && '\n' !in sub && |sub| == 25
    requires i + |sub| <= |e| ==> !At(e, sub, i)
    ensures !At(e + glue + b, sub, i)
  {
    var pre := e + glue;
    assert pre + b == e + (glue + b);
    if i + |sub| <= |e| {
      AtPrefix(e, glue + b, sub, i);
    } else if i + |sub| <= |pre| {
      AtPrefix(pre, b, sub, i);
      var w := pre[i..i + |sub|];
      assert w[|e| - i] == '\n';
      assert w == sub ==> '\n' in sub;
    } else {
      NoStraddle(pre, b, sub, i);
    }
  }

  /** Splicing again replaces what was spliced, up to its first end marker's line. */
  lemma SpliceAgain(e: string, b: string, c: string)
    requires Framed(b) && EndsLine(c) && WellPlaced(e)
    ensures Splice(Splice(e, b), c) == Before(e) + c + (b[Inner(b)..] + After(e))
  {
    SpliceIs(e, b);
    if Index(e, BEGIN).Some? { CleanReplaced(e, b); } else { CleanAppended(e, b); }
    SplicePlaced(Before(e), b, After(e), c);
  }

  /** So with proper blocks only the last one counts. */
  lemma SpliceTwice(e: string, b: string, c: string)
    requires Block(b) && EndsLine(c) && WellPlaced(e)
    ensures Splice(Splice(e, b), c) == Splice(e, c)
  {
    BlockFramed(b);
    SpliceAgain(e, b, c);
    SpliceIs(e, c);
    assert b[|b|..] + After(e) == After(e);
  }

  // --- where the markers are out of order ---

  /** The first occurrence in a prefix is the first occurrence in the whole. */
  lemma IndexPrefix(a: string, b: string, sub: string)
    requires Index(a, sub).Some?
    ensures Index(a + b, sub) == Index(a, sub)
  {
    IndexFromExact(a, sub, 0);
    var k := Index(a, sub).value;
    forall j: nat | j <= k ensures At(a + b, sub, j) <==> At(a, sub, j) { AtPrefix(a, b, sub, j); }
    IndexIs(a + b, sub, k);
  }

  /** A marker the file lacks is first found in the appended block. */
  lemma IndexAppended(e: string, b: string, sub: string, k: nat)
    requires Index(e, sub).None? && Index(b, sub) == Some(k) && '\n' !in sub && |sub| == 25
    ensures Index(e + Glue(e) + b, sub) == Some(|e + Glue(e)| + k)
  {
    IndexFromExact(e, sub, 0);
    IndexFromExact(b, sub, 0);
    var pre := e + Glue(e);
    forall i: nat | i < |pre| ensures !At(pre + b, sub, i) { NotAcross(e, Glue(e), b, sub, i); }
    forall i: nat | |pre| <= i < |pre| + k ensures !At(pre + b, sub, i) { AtSuffix(pre, b, sub, i - |pre|); }
    AtSuffix(pre, b, sub, k);
    IndexIs(pre + b, sub, |pre| + k);
  }

  /** A stray end marker: each splice appends another block. */
  lemma StrayEnd(e: string, b: string)
    requires Block(b) && Index(e, END).Some?
    requires Index(e, BEGIN).Some? ==> Index(e, END).value < Index(e, BEGIN).value
    ensures |Splice(Splice(e, b), b)| > |Splice(e, b)|
  {
    NoNewlines();
    var s := e + Glue(e) + b;
    assert s == e + (Glue(e) + b);
    IndexFromExact(e, END, 0);
    IndexPrefix(e, Glue(e) + b, END);
    IndexIs(b, BEGIN, 0);
    if Index(e, BEGIN).Some? {
      IndexPrefix(e, Glue(e) + b, BEGIN);
    } else {
      IndexAppended(e, b, BEGIN, 0);
    }
  }

  /** A stray begin marker: the second splice eats everything from it to the block. */
  lemma StrayBegin(e: string, b: string)
    requires Block(b) && Index(e, BEGIN).Some? && Index(e, END).None?
    ensures |Splice(Splice(e, b), b)| < |Splice(e, b)|
  {
    NoNewlines();
    var s := e + Glue(e) + b;
    assert s == e + (Glue(e) + b);
    IndexFromExact(e, BEGIN, 0);
    IndexPrefix(e, Glue(e) + b, BEGIN);
    IndexAppended(e, b, END, |b| - 1 - |END|);
    EatsToEnd(s, b, Index(e, BEGIN).value);
  }

  lemma EatsToEnd(s: string, b: string, k: nat)
    requires Block(b) && |s| > 26 && s[|s| - 1] == '\n' && k < |s| - 26
    requires Index(s, BEGIN) == Some(k) && Index(s, END) == Some(|s| - 26)
    ensures Splice(s, b) == s[..k] + b
  {
    NoNewlines();
    IndexFromExact(s, END, 0);
    assert TailAfter(s, |s| - 26) == |s|;
  }

  lemma MarkersApart(e: string)
    requires Index(e, BEGIN).Some? && Index(e, END).Some?
    ensures Index(e, BEGIN).value != Index(e, END).value
  {
    IndexFromExact(e, BEGIN, 0);
    IndexFromExact(e, END, 0);
    var i, j := Index(e, BEGIN).value, Index(e, END).value;
    assert e[i..i + |BEGIN|][2] == BEGIN[2] == '>';
    assert e[j..j + |END|][2] == END[2] == '<';
  }

  /** Splicing is idempotent exactly on files with no stray or misplaced marker. */
  lemma SpliceIdempotent(e: string, b: string)
    requires Block(b)
    ensures Splice(Splice(e, b), b) == Splice(e, b) <==> WellPlaced(e)
  {
    if WellPlaced(e) {
      SpliceTwice(e, b, b);
    } else if Index(e, END).None? {
      StrayBegin(e, b);
    } else {
      if Index(e, BEGIN).Some? { MarkersApart(e); }
      StrayEnd(e, b);
    }
  }

  /** Render does not keep the end marker out of a group's description. With it in there, splicing is
      idempotent on a well-placed file exactly if that first end marker is on the block's last line after
      all; otherwise each splice leaves the rest of the old block behind. */
  lemma InnerEnd(e: string, b: string)
    requires Framed(b) && WellPlaced(e)
    ensures Splice(Splice(e, b), b) == Splice(e, b) <==> Inner(b) == |b|
  {
    SpliceAgain(e, b, b);
    SpliceIs(e, b);
    var rest := b[Inner(b)..];
    if Inner(b) == |b| {
      assert rest + After(e) == After(e);
    } else {
      assert |Before(e) + b + (rest + After(e))| > |Before(e) + b + After(e)|;
    }
  }

}
