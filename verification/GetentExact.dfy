/** Which lines the getent parsers take, and for what: any line, not only a printed one
    (internal/provider/scan.go, internal/provider/shadowutils.go). */
module GetentExact {
  import opened Common
  import opened Names
  import opened Getent
  import Gshadow

  // --- trimming and numbers ---

  ghost predicate Blank(s: string) {
    forall c :: c in s ==> Space(c)
  }

  /** A string is what trimming leaves of it, which neither starts nor ends with a space, between spaces. */
  lemma {:induction false} TrimExact(s: string) returns (a: string, b: string)
    ensures s == a + Trim(s) + b && Blank(a) && Blank(b) && Edged(Trim(s))
    decreases |s|
  {
    a, b := "", "";
    if s == "" {
    } else if Space(s[0]) {
      a, b := TrimExact(s[1..]);
      a := [s[0]] + a;
    } else if Space(s[|s| - 1]) {
      a, b := TrimExact(s[..|s| - 1]);
      b := b + [s[|s| - 1]];
      assert s == s[..|s| - 1] + [s[|s| - 1]];
    } else {
      assert s == "" + s + "";
    }
  }

  ghost predicate Zeros(z: string) {
    forall c :: c in z ==> c == '0'
  }

  lemma {:induction false} ValueDigits(s: string) returns (z: string)
    requires s != "" && Value(s).Some?
    ensures s == z + Decimal(Value(s).value) && Zeros(z)
    decreases |s|
  {
    var t, d := s[..|s| - 1], s[|s| - 1];
    assert s == t + [d];
    if t == "" {
      z := "";
    } else {
      z := ValueDigits(t);
      if Value(t).value == 0 {
        assert Decimal(0) == "0";
        z := t;
      } else {
        assert Decimal(Value(s).value) == Decimal(Value(t).value) + [d];
      }
    }
  }

  lemma {:induction false} ZerosFirst(z: string, s: string)
    requires Zeros(z)
    ensures Value(z + s) == Value(s)
    decreases |z| + |s|
  {
    if s != "" {
      ZerosFirst(z, s[..|s| - 1]);
      assert (z + s)[..|z + s| - 1] == z + s[..|s| - 1];
    } else if z != "" {
      var front := z[..|z| - 1];
      assert z + s == z && front + "" == front && z[|z| - 1] in z;
      assert forall c :: c in front ==> c in z;
      ZerosFirst(front, "");
    }
  }

  /** An id is read from its decimal digits, behind any number of zeros, and from nothing else. */
  lemma IdExact(s: string, id: Id)
    ensures ParseId(s) == Some(id) <==> exists z :: Zeros(z) && s == z + Decimal(id)
  {
    if ParseId(s) == Some(id) {
      var z := ValueDigits(s);
    }
    if z :| Zeros(z) && s == z + Decimal(id) {
      ZerosFirst(z, Decimal(id));
      DecimalValue(id);
    }
  }

  // --- fields ---

  lemma {:induction false} PartsWithout(s: string, sep: char)
    ensures forall p :: p in Split(s, sep) ==> sep !in p
  {
    if s != "" {
      PartsWithout(s[1..], sep);
      var rest := Split(s[1..], sep);
      assert rest[0] in rest && forall p :: p in rest[1..] ==> p in rest;
    }
  }

  lemma JoinOne(a: string, rest: seq<string>, sep: char)
    requires rest != []
    ensures Join([a] + rest, sep) == a + [sep] + Join(rest, sep)
  {
    assert ([a] + rest)[1..] == rest;
  }

  lemma {:induction false} JoinLast(front: seq<string>, b: string, sep: char)
    requires front != []
    ensures Join(front + [b], sep) == Join(front, sep) + [sep] + b
  {
    if |front| == 1 {
      JoinOne(front[0], [b], sep);
      assert front + [b] == [front[0]] + [b];
    } else {
      JoinLast(front[1..], b, sep);
      assert front + [b] == [front[0]] + (front[1..] + [b]) && front == [front[0]] + front[1..];
      JoinOne(front[0], front[1..] + [b], sep);
      JoinOne(front[0], front[1..], sep);
    }
  }

  ghost predicate NoColon(s: string) { ':' !in s }

  function FourOn(a: string, b: string, c: string, d: string, tail: string): string {
    a + ":" + (b + ":" + (c + ":" + (d + ":" + tail)))
  }

  /** The first four fields of a line, and what follows them. */
  lemma FourBack(s: string)
    requires |Split(s, ':')| >= 5
    ensures var f := Split(s, ':');
            && s == FourOn(f[0], f[1], f[2], f[3], Join(f[4..], ':'))
            && NoColon(f[0]) && NoColon(f[1]) && NoColon(f[2]) && NoColon(f[3])
  {
    var f := Split(s, ':');
    JoinSplit(s, ':');
    PartsWithout(s, ':');
    assert f[0] in f && f[1] in f && f[2] in f && f[3] in f;
    JoinOne(f[3], f[4..], ':');
    JoinOne(f[2], f[3..], ':');
    JoinOne(f[1], f[2..], ':');
    JoinOne(f[0], f[1..], ':');
    assert f == [f[0]] + f[1..] && f[1..] == [f[1]] + f[2..] && f[2..] == [f[2]] + f[3..] && f[3..] == [f[3]] + f[4..];
  }

  // --- passwd ---

  /** The line reads name:password:uid:gid:gecos:home:shell, once trimmed; only the GECOS may hold colons. */
  ghost predicate SaysUser(line: string, e: Passwd, pw: string, uid: string, gid: string) {
    && Trim(line) == FourOn(e.name, pw, uid, gid, e.gecos + ":" + e.home + ":" + e.shell)
    && NoColon(e.name) && NoColon(pw) && NoColon(uid) && NoColon(gid) && NoColon(e.home) && NoColon(e.shell)
    && ParseId(uid) == Some(e.uid) && ParseId(gid) == Some(e.gid)
  }

  lemma PasswdTaken(line: string, e: Passwd) returns (pw: string, uid: string, gid: string)
    requires ParsePasswd(line) == [e]
    ensures SaysUser(line, e, pw, uid, gid)
  {
    var s := Trim(line);
    var f := Split(s, ':');
    FourBack(s);
    PartsWithout(s, ':');
    var rest, n := f[4..], |f| - 4;
    assert f[|f| - 1] in f && f[|f| - 2] in f;
    assert rest[..n - 2] == f[4..|f| - 2];
    assert rest == rest[..n - 1] + [rest[n - 1]] && rest[..n - 1] == rest[..n - 2] + [rest[n - 2]];
    JoinLast(rest[..n - 1], rest[n - 1], ':');
    JoinLast(rest[..n - 2], rest[n - 2], ':');
    pw, uid, gid := f[1], f[2], f[3];
  }

  lemma PasswdGiven(line: string, e: Passwd, pw: string, uid: string, gid: string)
    requires SaysUser(line, e, pw, uid, gid)
    ensures ParsePasswd(line) == [e]
  {
    var f := Split(Trim(line), ':');
    LastFields(e.gecos, e.home, e.shell);
    FourFields(e.name, pw, uid, gid, e.gecos + ":" + e.home + ":" + e.shell);
    JoinSplit(e.gecos, ':');
    assert f[4..|f| - 2] == Split(e.gecos, ':');
  }

  /** A passwd line gives an entry exactly if it reads so, and nothing otherwise. */
  lemma PasswdExact(line: string, e: Passwd)
    ensures ParsePasswd(line) == [e] <==> exists pw, uid, gid :: SaysUser(line, e, pw, uid, gid)
    ensures |ParsePasswd(line)| <= 1
  {
    if ParsePasswd(line) == [e] {
      var pw, uid, gid := PasswdTaken(line, e);
    }
    if pw, uid, gid :| SaysUser(line, e, pw, uid, gid) { PasswdGiven(line, e, pw, uid, gid); }
  }

  // --- group ---

  /** The names between the commas, trimmed, but for blank ones. */
  ghost function NamesIn(list: string): seq<Name> {
    Flat(Member(), Split(list, ','))
  }

  /** The line reads name:password:gid:members, once trimmed, perhaps with more fields, which are ignored. */
  ghost predicate SaysGroup(line: string, g: GroupLine, pw: string, gid: string, list: string, more: string) {
    && Trim(line) == g.name + ":" + (pw + ":" + (gid + ":" + (list + more)))
    && (more == "" || more[0] == ':')
    && NoColon(g.name) && NoColon(pw) && NoColon(gid) && NoColon(list)
    && ParseId(gid) == Some(g.gid) && g.members == NamesIn(list)
  }

  lemma ThreeFields(a: string, b: string, c: string, tail: string)
    requires NoColon(a) && NoColon(b) && NoColon(c)
    ensures Split(a + ":" + (b + ":" + (c + ":" + tail)), ':') == [a, b, c] + Split(tail, ':')
  {
    SplitFirst(c, tail, ':');
    SplitFirst(b, c + ":" + tail, ':');
    SplitFirst(a, b + ":" + (c + ":" + tail), ':');
  }

  lemma ThreeBack(s: string)
    requires |Split(s, ':')| >= 4
    ensures var f := Split(s, ':');
            && s == f[0] + ":" + (f[1] + ":" + (f[2] + ":" + Join(f[3..], ':')))
            && NoColon(f[0]) && NoColon(f[1]) && NoColon(f[2])
  {
    var f := Split(s, ':');
    JoinSplit(s, ':');
    PartsWithout(s, ':');
    assert f[0] in f && f[1] in f && f[2] in f;
    JoinOne(f[2], f[3..], ':');
    JoinOne(f[1], f[2..], ':');
    JoinOne(f[0], f[1..], ':');
    assert f == [f[0]] + f[1..] && f[1..] == [f[1]] + f[2..] && f[2..] == [f[2]] + f[3..];
  }

  /** One field, and more only behind a colon. */
  lemma HeadField(list: string, more: string)
    requires NoColon(list) && (more == "" || more[0] == ':')
    ensures Split(list + more, ':')[0] == list
  {
    if more == "" {
      assert list + more == list;
      SplitNone(list, ':');
    } else {
      assert more == ":" + more[1..];
      assert list + more == list + ":" + more[1..];
      SplitFirst(list, more[1..], ':');
    }
  }

  lemma FieldHead(parts: seq<string>) returns (more: string)
    requires parts != []
    ensures Join(parts, ':') == parts[0] + more && (more == "" || more[0] == ':')
  {
    if |parts| == 1 {
      more := "";
      assert parts[0] + "" == parts[0];
    } else {
      more := ":" + Join(parts[1..], ':');
      assert parts[0] + ":" + Join(parts[1..], ':') == parts[0] + more;
    }
  }

  lemma NoNames()
    ensures NamesIn("") == []
  {
    assert Split("", ',') == [""] && [""][1..] == [];
  }

  lemma GroupTaken(line: string, g: GroupLine) returns (pw: string, gid: string, list: string, more: string)
    requires ParseGroup(line) == [g]
    ensures SaysGroup(line, g, pw, gid, list, more)
  {
    var s := Trim(line);
    var f := Split(s, ':');
    ThreeBack(s);
    PartsWithout(s, ':');
    assert f[3] in f;
    NoNames();
    pw, gid, list := f[1], f[2], f[3];
    more := FieldHead(f[3..]);
  }

  lemma GroupGiven(line: string, g: GroupLine, pw: string, gid: string, list: string, more: string)
    requires SaysGroup(line, g, pw, gid, list, more)
    ensures ParseGroup(line) == [g]
  {
    ThreeFields(g.name, pw, gid, list + more);
    HeadField(list, more);
    NoNames();
  }

  /** A group line gives an entry exactly if it reads so, and nothing otherwise. */
  lemma GroupExact(line: string, g: GroupLine)
    ensures ParseGroup(line) == [g] <==> exists pw, gid, list, more :: SaysGroup(line, g, pw, gid, list, more)
    ensures |ParseGroup(line)| <= 1
  {
    if ParseGroup(line) == [g] {
      var pw, gid, list, more := GroupTaken(line, g);
    }
    if pw, gid, list, more :| SaysGroup(line, g, pw, gid, list, more) { GroupGiven(line, g, pw, gid, list, more); }
  }

  // --- gshadow ---

  /** The line reads name:password:administrators, once trimmed, and perhaps more. */
  ghost predicate SaysAdmins(line: string, e: Gshadow.Admins, pw: string, list: string, more: string) {
    && Trim(line) == e.name + ":" + (pw + ":" + (list + more)) && (more == "" || more[0] == ':')
    && NoColon(e.name) && e.name != "" && NoColon(pw) && NoColon(list) && e.admins == SortBy(Self, NamesIn(list))
  }

  lemma AdminsTaken(line: string, e: Gshadow.Admins) returns (pw: string, list: string, more: string)
    requires Gshadow.ParseAdmins(line) == [e]
    ensures SaysAdmins(line, e, pw, list, more)
  {
    var s := Trim(line);
    var f := Split(s, ':');
    JoinSplit(s, ':');
    PartsWithout(s, ':');
    assert f[0] in f && f[1] in f && f[2] in f;
    JoinOne(f[1], f[2..], ':');
    JoinOne(f[0], f[1..], ':');
    assert f == [f[0]] + f[1..] && f[1..] == [f[1]] + f[2..];
    pw, list := f[1], f[2];
    more := FieldHead(f[2..]);
  }

  lemma AdminsGiven(line: string, e: Gshadow.Admins, pw: string, list: string, more: string)
    requires SaysAdmins(line, e, pw, list, more)
    ensures Gshadow.ParseAdmins(line) == [e]
  {
    SplitFirst(pw, list + more, ':');
    SplitFirst(e.name, pw + ":" + (list + more), ':');
    HeadField(list, more);
  }

  /** A gshadow line gives an entry exactly if it reads so, and nothing otherwise. */
  lemma AdminsExact(line: string, e: Gshadow.Admins)
    ensures Gshadow.ParseAdmins(line) == [e] <==> exists pw, list, more :: SaysAdmins(line, e, pw, list, more)
    ensures |Gshadow.ParseAdmins(line)| <= 1
  {
    if Gshadow.ParseAdmins(line) == [e] {
      var pw, list, more := AdminsTaken(line, e);
    }
    if pw, list, more :| SaysAdmins(line, e, pw, list, more) { AdminsGiven(line, e, pw, list, more); }
  }

  /** The administrators count as known exactly if getent answers with more than blanks. */
  lemma AnsweredExact(s: string)
    ensures Gshadow.Answered(Some(s)) <==> !Blank(s)
  {
    var a, b := TrimExact(s);
    if !Blank(s) {
      var c :| c in s && !Space(c);
      var i :| 0 <= i < |s| && s[i] == c;
      Gshadow.TrimKeeps(s, i);
    }
  }

  // --- of two lines of one name, the later counts ---

  ghost predicate Last<T>(es: seq<T>, key: T -> Name, n: Name, k: int) {
    0 <= k < |es| && key(es[k]) == n && forall j :: k < j < |es| ==> key(es[j]) != n
  }

  function PasswdName(e: Passwd): Name { e.name }

  function LineName(g: GroupLine): Name { g.name }

  function AdminsName(e: Gshadow.Admins): Name { e.name }

  lemma {:induction false} LaterUser(es: seq<Passwd>, n: Name)
    ensures n in Users(es) <==> exists k :: Last(es, PasswdName, n, k)
    ensures forall k :: Last(es, PasswdName, n, k) ==> Users(es)[n] == UserOf(es[k])
    decreases |es|
  {
    if es != [] {
      var m := |es| - 1;
      LaterUser(es[..m], n);
      if es[m].name == n {
        assert Last(es, PasswdName, n, m);
      } else {
        forall k ensures Last(es, PasswdName, n, k) <==> Last(es[..m], PasswdName, n, k) {}
      }
    }
  }

  lemma {:induction false} LaterGid(gs: seq<GroupLine>, n: Name)
    ensures n in Gids(gs) <==> exists k :: Last(gs, LineName, n, k)
    ensures forall k :: Last(gs, LineName, n, k) ==> Gids(gs)[n] == gs[k].gid
    decreases |gs|
  {
    if gs != [] {
      var m := |gs| - 1;
      LaterGid(gs[..m], n);
      if gs[m].name == n {
        assert Last(gs, LineName, n, m);
      } else {
        forall k ensures Last(gs, LineName, n, k) <==> Last(gs[..m], LineName, n, k) {}
      }
    }
  }

  lemma {:induction false} LaterAdmins(es: seq<Gshadow.Admins>, n: Name)
    ensures n in Gshadow.Table(es) <==> exists k :: Last(es, AdminsName, n, k)
    ensures forall k :: Last(es, AdminsName, n, k) ==> Gshadow.Table(es)[n] == es[k].admins
    decreases |es|
  {
    if es != [] {
      var m := |es| - 1;
      LaterAdmins(es[..m], n);
      if es[m].name == n {
        assert Last(es, AdminsName, n, m);
      } else {
        forall k ensures Last(es, AdminsName, n, k) <==> Last(es[..m], AdminsName, n, k) {}
      }
    }
  }
}
