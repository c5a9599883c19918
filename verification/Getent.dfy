/** Reading the account databases as getent prints them (internal/provider/scan.go). */
module Getent {
  import opened Common
  import opened Names

  datatype Passwd = Passwd(name: Name, uid: Id, gid: Id, gecos: string, home: string, shell: string)

  datatype GroupLine = GroupLine(name: Name, gid: Id, members: seq<Name>)

  datatype User = User(uid: Id, gid: Id, fullName: string, home: string, shell: string, groups: seq<Name>)

  // --- strings ---

  /** strings.Split on one character. */
  function Split(s: string, sep: char): (r: seq<string>)
    ensures |r| >= 1
  {
    if s == "" then [""]
    else
      var rest := Split(s[1..], sep);
      if s[0] == sep then [""] + rest else [[s[0]] + rest[0]] + rest[1..]
  }

  /** strings.Join. */
  function Join(parts: seq<string>, sep: char): string {
    if parts == [] then "" else if |parts| == 1 then parts[0] else parts[0] + [sep] + Join(parts[1..], sep)
  }

  lemma {:induction false} SplitNone(s: string, sep: char)
    requires sep !in s
    ensures Split(s, sep) == [s]
  {
    if s != "" {
      SplitNone(s[1..], sep);
      assert s == [s[0]] + s[1..];
    }
  }

  /** A first part without the separator. */
  lemma {:induction false} SplitFirst(a: string, b: string, sep: char)
    requires sep !in a
    ensures Split(a + [sep] + b, sep) == [a] + Split(b, sep)
  {
    var s := a + [sep] + b;
    if a == "" {
      assert s[1..] == b;
    } else {
      SplitFirst(a[1..], b, sep);
      assert s[1..] == a[1..] + [sep] + b;
      assert a == [a[0]] + a[1..];
    }
  }

  /** A last part without the separator. */
  lemma {:induction false} SplitLast(a: string, b: string, sep: char)
    requires sep !in b
    ensures Split(a + [sep] + b, sep) == Split(a, sep) + [b]
  {
    var s := a + [sep] + b;
    if a == "" {
      assert s[1..] == b;
      SplitNone(b, sep);
    } else {
      SplitLast(a[1..], b, sep);
      assert s[1..] == a[1..] + [sep] + b;
    }
  }

  lemma {:induction false} JoinSplit(s: string, sep: char)
    ensures Join(Split(s, sep), sep) == s
  {
    if s != "" {
      JoinSplit(s[1..], sep);
      var rest := Split(s[1..], sep);
      if s[0] == sep {
        assert ([""] + rest)[1..] == rest;
      } else {
        var head := [s[0]] + rest[0];
        assert ([head] + rest[1..])[1..] == rest[1..];
      }
    }
  }

  lemma {:induction false} SplitJoin(parts: seq<string>, sep: char)
    requires parts != [] && forall p :: p in parts ==> sep !in p
    ensures Split(Join(parts, sep), sep) == parts
  {
    if |parts| == 1 {
      SplitNone(parts[0], sep);
    } else {
      assert forall p :: p in parts[1..] ==> p in parts;
      SplitJoin(parts[1..], sep);
      SplitFirst(parts[0], Join(parts[1..], sep), sep);
      assert parts == [parts[0]] + parts[1..];
    }
  }

  predicate Space(c: char) {
    || c == ' ' || '\t' <= c <= '\r' || c == '\U{85}' || c == '\U{A0}' || c == '\U{1680}'
    || '\U{2000}' <= c <= '\U{200A}'
    || c == '\U{2028}' || c == '\U{2029}' || c == '\U{202F}' || c == '\U{205F}' || c == '\U{3000}'
  }

  /** strings.TrimSpace. */
  function Trim(s: string): string
    decreases |s|
  {
    if s == "" then ""
    else if Space(s[0]) then Trim(s[1..])
    else if Space(s[|s| - 1]) then Trim(s[..|s| - 1])
    else s
  }

  // --- numbers ---

  predicate Digit(c: char) { '0' <= c <= '9' }

  /** The value of a list of digits; none unless it is one. */
  function Value(s: string): Option<nat> {
    if s == "" then Some(0)
    else if !Digit(s[|s| - 1]) then None
    else match Value(s[..|s| - 1]) case None => None case Some(v) => Some(10 * v + (s[|s| - 1] as nat - '0' as nat))
  }

  /** strconv.ParseUint(s, 10, 32). */
  function ParseId(s: string): Option<Id> {
    if s == "" then None
    else match Value(s) case None => None case Some(v) => if v < 0x1_0000_0000 then Some(v) else None
  }

  function Decimal(n: nat): (s: string)
    ensures s != ""
  {
    var d := [(n % 10 + '0' as nat) as char];
    if n < 10 then d else Decimal(n / 10) + d
  }

  lemma {:induction false} DecimalValue(n: nat)
    ensures Value(Decimal(n)) == Some(n)
    ensures forall c :: c in Decimal(n) ==> Digit(c)
  {
    var d := [(n % 10 + '0' as nat) as char];
    if n < 10 {
      assert d[..0] == "";
    } else {
      DecimalValue(n / 10);
      var s := Decimal(n / 10) + d;
      assert s[..|s| - 1] == Decimal(n / 10);
    }
  }

  // --- lines ---

  /** name:x:uid:gid:gecos:home:shell, with the fixed fields taken from both ends. */
  function ParsePasswd(line: string): seq<Passwd> {
    var f := Split(Trim(line), ':');
    if |f| < 7 || ParseId(f[2]).None? || ParseId(f[3]).None? then []
    else [Passwd(f[0], ParseId(f[2]).value, ParseId(f[3]).value, Join(f[4..|f| - 2], ':'), f[|f| - 2], f[|f| - 1])]
  }

  function Member(): string -> seq<Name> {
    m => if Trim(m) == "" then [] else [Trim(m)]
  }

  /** name:x:gid:member,member. */
  function ParseGroup(line: string): seq<GroupLine> {
    var f := Split(Trim(line), ':');
    if |f| < 4 || ParseId(f[2]).None? then []
    else [GroupLine(f[0], ParseId(f[2]).value, if f[3] == "" then [] else Flat(Member(), Split(f[3], ',')))]
  }

  function PasswdOf(): string -> seq<Passwd> { line => ParsePasswd(line) }

  function GroupOf(): string -> seq<GroupLine> { line => ParseGroup(line) }

  // --- what a scan means ---

  function UserOf(e: Passwd): User {
    User(e.uid, e.gid, e.gecos, e.home, e.shell, [])
  }

  /** The users by name; of two entries of one name the later counts. */
  function Users(es: seq<Passwd>): map<Name, User>
    decreases |es|
  {
    if es == [] then map[] else Users(es[..|es| - 1])[es[|es| - 1].name := UserOf(es[|es| - 1])]
  }

  function Gids(gs: seq<GroupLine>): map<Name, Id>
    decreases |gs|
  {
    if gs == [] then map[] else Gids(gs[..|gs| - 1])[gs[|gs| - 1].name := gs[|gs| - 1].gid]
  }

  /** The group, once for each time it lists the user. */
  function Times(members: seq<Name>, user: Name, group: Name): seq<Name>
    decreases |members|
  {
    if members == [] then []
    else Times(members[..|members| - 1], user, group) + if members[|members| - 1] == user then [group] else []
  }

  /** The groups listing the user, in file order, but for those of the user's primary gid. */
  function Listing(user: Name, gid: Id): GroupLine -> seq<Name> {
    (g: GroupLine) => if g.gid == gid then [] else Times(g.members, user, g.name)
  }

  function GroupsOf(gs: seq<GroupLine>, user: Name, gid: Id): seq<Name> {
    Flat(Listing(user, gid), gs)
  }

  /** Every user with the groups it is in. */
  function Joined(us: map<Name, User>, gs: seq<GroupLine>): map<Name, User> {
    map n | n in us :: us[n].(groups := GroupsOf(gs, n, us[n].gid))
  }

  // --- the scan ---

  /** One line of the passwd database; none for a line with too few fields or no ids. */
  method ReadPasswd(text: string) returns (e: Option<Passwd>)
    ensures ParsePasswd(text) == if e.Some? then [e.value] else []
  {
    var line := Trim(text);
    if line == "" { return None; }
    var f := Split(line, ':');
    if |f| < 7 { return None; }
    var uid, gid := ParseId(f[2]), ParseId(f[3]);
    if uid.None? || gid.None? { return None; }
    return Some(Passwd(f[0], uid.value, gid.value, Join(f[4..|f| - 2], ':'), f[|f| - 2], f[|f| - 1]));
  }

  lemma UsersStep(es: seq<Passwd>, more: seq<Passwd>)
    requires |more| <= 1
    ensures Users(es + more) == if more == [] then Users(es) else Users(es)[more[0].name := UserOf(more[0])]
  {
    if more == [] {
      assert es + more == es;
    } else {
      assert (es + more)[..|es|] == es;
    }
  }

  method ScanUsers(passwd: string) returns (users: map<Name, User>)
    ensures users == Users(Flat(PasswdOf(), Split(passwd, '\n')))
  {
    var lines := Split(passwd, '\n');
    users := map[];
    for i := 0 to |lines|
      invariant users == Users(Flat(PasswdOf(), lines[..i]))
    {
      FlatStep(PasswdOf(), lines, i);
      var e := ReadPasswd(lines[i]);
      UsersStep(Flat(PasswdOf(), lines[..i]), ParsePasswd(lines[i]));
      if e.Some? { users := users[e.value.name := UserOf(e.value)]; }
    }
    assert lines[..|lines|] == lines;
  }

  /** One group's members: each known user outside its primary gid gets the group appended. */
  method AddGroup(users: map<Name, User>, g: GroupLine) returns (out: map<Name, User>)
    ensures out.Keys == users.Keys
    ensures forall n :: n in users ==> out[n] == users[n].(groups := users[n].groups + Listing(n, users[n].gid)(g))
  {
    out := users;
    for i := 0 to |g.members|
      invariant out.Keys == users.Keys
      invariant forall n :: n in users ==>
                  out[n] == users[n].(groups := users[n].groups
                                                + if g.gid == users[n].gid then []
                                                  else Times(g.members[..i], n, g.name))
    {
      var m := g.members[i];
      assert g.members[..i + 1][..i] == g.members[..i];
      if m in out && g.gid != out[m].gid {
        out := out[m := out[m].(groups := out[m].groups + [g.name])];
      }
    }
    assert g.members[..|g.members|] == g.members;
  }

  method ReadMembers(field: string) returns (members: seq<Name>)
    ensures members == if field == "" then [] else Flat(Member(), Split(field, ','))
  {
    members := [];
    if field == "" { return; }
    var parts := Split(field, ',');
    for i := 0 to |parts|
      invariant members == Flat(Member(), parts[..i])
    {
      FlatStep(Member(), parts, i);
      var m := Trim(parts[i]);
      if m != "" { members := members + [m]; }
    }
    assert parts[..|parts|] == parts;
  }

  method ReadGroup(text: string) returns (g: Option<GroupLine>)
    ensures ParseGroup(text) == if g.Some? then [g.value] else []
  {
    var f := Split(Trim(text), ':');
    if |f| < 4 { return None; }
    var gid := ParseId(f[2]);
    if gid.None? { return None; }
    var members := ReadMembers(f[3]);
    return Some(GroupLine(f[0], gid.value, members));
  }

  /** scanViaGetent: exactly the users and groups of the parsed lines, each user with its groups. */
  method Scan(passwd: string, group: string) returns (users: map<Name, User>, gids: map<Name, Id>)
    ensures users == Joined(Users(Flat(PasswdOf(), Split(passwd, '\n'))), Flat(GroupOf(), Split(group, '\n')))
    ensures gids == Gids(Flat(GroupOf(), Split(group, '\n')))
  {
    users := ScanUsers(passwd);
    gids := map[];
    ghost var base := users;
    var lines := Split(group, '\n');
    UsersBare(Flat(PasswdOf(), Split(passwd, '\n')));
    NoGroups(base);
    for i := 0 to |lines|
      invariant users == Joined(base, Flat(GroupOf(), lines[..i]))
      invariant gids == Gids(Flat(GroupOf(), lines[..i]))
    {
      FlatStep(GroupOf(), lines, i);
      var g := ReadGroup(lines[i]);
      if g.Some? {
        ghost var before := users;
        users := AddGroup(users, g.value);
        OneMore(base, Flat(GroupOf(), lines[..i]), g.value, before, users);
        GidsStep(Flat(GroupOf(), lines[..i]), g.value);
        gids := gids[g.value.name := g.value.gid];
      } else {
        assert Flat(GroupOf(), lines[..i]) + [] == Flat(GroupOf(), lines[..i]);
      }
    }
    assert lines[..|lines|] == lines;
  }

  lemma {:induction false} UsersBare(es: seq<Passwd>)
    ensures forall n :: n in Users(es) ==> Users(es)[n].groups == []
    decreases |es|
  {
    if es != [] { UsersBare(es[..|es| - 1]); }
  }

  lemma NoGroups(us: map<Name, User>)
    requires forall n :: n in us ==> us[n].groups == []
    ensures Joined(us, []) == us
  {
  }

  /** What AddGroup makes of the users is what one more line of the database means. */
  lemma OneMore(us: map<Name, User>, gs: seq<GroupLine>, g: GroupLine, before: map<Name, User>, after: map<Name, User>)
    requires before == Joined(us, gs) && after.Keys == before.Keys
    requires forall n :: n in before ==>
               after[n] == before[n].(groups := before[n].groups + Listing(n, before[n].gid)(g))
    ensures after == Joined(us, gs + [g])
  {
    forall n | n in us ensures after[n] == us[n].(groups := GroupsOf(gs + [g], n, us[n].gid)) {
      FlatAppend(Listing(n, us[n].gid), gs, g);
    }
  }

  lemma GidsStep(gs: seq<GroupLine>, g: GroupLine)
    ensures Gids(gs + [g]) == Gids(gs)[g.name := g.gid]
  {
    assert (gs + [g])[..|gs|] == gs;
  }

  // --- round trip ---

  predicate Edged(s: string) {
    s == "" || (!Space(s[0]) && !Space(s[|s| - 1]))
  }

  predicate Field(s: string) { ':' !in s && '\n' !in s }

  /** An entry the databases can hold: no colon but in the GECOS field, no newline, no space at the line's ends. */
  predicate WellFormedPasswd(e: Passwd) {
    && Field(e.name) && Field(e.home) && Field(e.shell) && '\n' !in e.gecos
    && e.name != "" && !Space(e.name[0]) && (e.shell != "" ==> !Space(e.shell[|e.shell| - 1]))
  }

  predicate WellFormedGroup(g: GroupLine) {
    && Field(g.name) && g.name != "" && !Space(g.name[0])
    && forall m :: m in g.members ==> Field(m) && ',' !in m && m != "" && Edged(m)
  }

  function PasswdLine(e: Passwd): string {
    e.name + ":"
      + ("x" + ":" + (Decimal(e.uid) + ":" + (Decimal(e.gid) + ":" + (e.gecos + ":" + e.home + ":" + e.shell))))
  }

  function GroupText(g: GroupLine): string {
    g.name + ":" + ("x" + ":" + (Decimal(g.gid) + ":" + Join(g.members, ',')))
  }

  lemma TrimEdged(s: string)
    requires Edged(s)
    ensures Trim(s) == s
  {
  }

  lemma DecimalField(n: nat)
    ensures ':' !in Decimal(n) && '\n' !in Decimal(n)
  {
    DecimalValue(n);
  }

  lemma FourFields(a: string, b: string, c: string, d: string, tail: string)
    requires ':' !in a && ':' !in b && ':' !in c && ':' !in d
    ensures Split(a + ":" + (b + ":" + (c + ":" + (d + ":" + tail))), ':') == [a, b, c, d] + Split(tail, ':')
  {
    var onD, onC, onB := d + ":" + tail, c + ":" + (d + ":" + tail), b + ":" + (c + ":" + (d + ":" + tail));
    SplitFirst(d, tail, ':');
    SplitFirst(c, onD, ':');
    SplitFirst(b, onC, ':');
    SplitFirst(a, onB, ':');
  }

  lemma LastFields(a: string, b: string, c: string)
    requires ':' !in b && ':' !in c
    ensures Split(a + ":" + b + ":" + c, ':') == Split(a, ':') + [b, c]
  {
    SplitLast(a + ":" + b, c, ':');
    SplitLast(a, b, ':');
  }

  lemma PasswdFields(e: Passwd)
    requires WellFormedPasswd(e)
    ensures Split(PasswdLine(e), ':')
            == [e.name, "x", Decimal(e.uid), Decimal(e.gid)] + (Split(e.gecos, ':') + [e.home, e.shell])
  {
    LastFields(e.gecos, e.home, e.shell);
    DecimalField(e.uid);
    DecimalField(e.gid);
    FourFields(e.name, "x", Decimal(e.uid), Decimal(e.gid), e.gecos + ":" + e.home + ":" + e.shell);
  }

  lemma PasswdEdged(e: Passwd)
    requires WellFormedPasswd(e)
    ensures Edged(PasswdLine(e)) && '\n' !in PasswdLine(e)
  {
    var s := PasswdLine(e);
    DecimalField(e.uid);
    DecimalField(e.gid);
    assert s[0] == e.name[0];
    assert s[|s| - 1] == if e.shell == "" then ':' else e.shell[|e.shell| - 1];
  }

  /** A printed passwd line reads back as the entry it was printed from, colons in the GECOS and all. */
  lemma PasswdRoundTrip(e: Passwd)
    requires WellFormedPasswd(e)
    ensures ParsePasswd(PasswdLine(e)) == [e]
  {
    PasswdEdged(e);
    TrimEdged(PasswdLine(e));
    PasswdFields(e);
    DecimalValue(e.uid);
    DecimalValue(e.gid);
    JoinSplit(e.gecos, ':');
    var f := Split(PasswdLine(e), ':');
    assert f[4..|f| - 2] == Split(e.gecos, ':');
  }

  lemma {:induction false} MembersBack(ms: seq<Name>)
    requires forall m :: m in ms ==> m != "" && Edged(m)
    ensures Flat(Member(), ms) == ms
  {
    if ms != [] {
      assert ms[0] in ms;
      TrimEdged(ms[0]);
      assert forall m :: m in ms[1..] ==> m in ms;
      MembersBack(ms[1..]);
      assert ms == [ms[0]] + ms[1..];
    }
  }

  lemma {:induction false} JoinField(ms: seq<Name>)
    requires forall m :: m in ms ==> Field(m) && m != "" && Edged(m)
    ensures Field(Join(ms, ',')) && (ms != [] ==> Join(ms, ',') != "" && !Space(Join(ms, ',')[|Join(ms, ',')| - 1]))
  {
    if ms != [] {
      assert ms[0] in ms;
      if |ms| > 1 {
        assert forall m :: m in ms[1..] ==> m in ms;
        JoinField(ms[1..]);
      }
    }
  }

  lemma GroupFields(g: GroupLine)
    requires WellFormedGroup(g)
    ensures Split(GroupText(g), ':') == [g.name, "x", Decimal(g.gid), Join(g.members, ',')]
  {
    var tail := Join(g.members, ',');
    JoinField(g.members);
    SplitNone(tail, ':');
    DecimalField(g.gid);
    SplitFirst(Decimal(g.gid), tail, ':');
    SplitFirst("x", Decimal(g.gid) + ":" + tail, ':');
    SplitFirst(g.name, "x" + ":" + (Decimal(g.gid) + ":" + tail), ':');
  }

  lemma GroupEdged(g: GroupLine)
    requires WellFormedGroup(g)
    ensures Edged(GroupText(g)) && '\n' !in GroupText(g)
  {
    var s, tail := GroupText(g), Join(g.members, ',');
    JoinField(g.members);
    DecimalField(g.gid);
    assert s[0] == g.name[0];
    assert s[|s| - 1] == if tail == "" then ':' else tail[|tail| - 1];
  }

  lemma GroupRoundTrip(g: GroupLine)
    requires WellFormedGroup(g)
    ensures ParseGroup(GroupText(g)) == [g]
  {
    GroupEdged(g);
    TrimEdged(GroupText(g));
    GroupFields(g);
    DecimalValue(g.gid);
    if g.members != [] {
      JoinField(g.members);
      SplitJoin(g.members, ',');
      MembersBack(g.members);
    }
  }

  /** Lines, each ended by a newline. */
  function Text<T>(line: T -> string, es: seq<T>): string {
    if es == [] then "" else line(es[0]) + "\n" + Text(line, es[1..])
  }

  lemma {:induction false} TextLines<T(!new)>(line: T -> string, es: seq<T>)
    requires forall e :: e in es ==> '\n' !in line(e)
    ensures Split(Text(line, es), '\n') == seq(|es|, i requires 0 <= i < |es| => line(es[i])) + [""]
  {
    if es != [] {
      assert es[0] in es && forall e :: e in es[1..] ==> e in es;
      TextLines(line, es[1..]);
      SplitFirst(line(es[0]), Text(line, es[1..]), '\n');
      var lines := seq(|es|, i requires 0 <= i < |es| => line(es[i]));
      var rest := seq(|es| - 1, i requires 0 <= i < |es| - 1 => line(es[1..][i]));
      assert lines == [line(es[0])] + rest;
    }
  }

  /** Lines that each read back as one entry, and an empty last one, read back as those entries. */
  lemma {:induction false} Reread<T(!new), R>(line: T -> string, parse: string -> seq<R>, kept: T -> R, es: seq<T>)
    requires (forall e :: e in es ==> parse(line(e)) == [kept(e)]) && parse("") == []
    ensures Flat(parse, seq(|es|, i requires 0 <= i < |es| => line(es[i])) + [""])
            == seq(|es|, i requires 0 <= i < |es| => kept(es[i]))
  {
    var lines := seq(|es|, i requires 0 <= i < |es| => line(es[i])) + [""];
    if es == [] {
      assert lines == [""] && lines[1..] == [];
    } else {
      assert es[0] in es && forall e :: e in es[1..] ==> e in es;
      Reread(line, parse, kept, es[1..]);
      assert lines[1..] == seq(|es| - 1, i requires 0 <= i < |es| - 1 => line(es[1..][i])) + [""];
      var rest := seq(|es| - 1, i requires 0 <= i < |es| - 1 => kept(es[1..][i]));
      assert seq(|es|, i requires 0 <= i < |es| => kept(es[i])) == [kept(es[0])] + rest;
    }
  }

  lemma UsersBack(es: seq<Passwd>)
    requires forall e :: e in es ==> WellFormedPasswd(e)
    ensures Flat(PasswdOf(), Split(Text(PasswdLine, es), '\n')) == es
  {
    forall e | e in es ensures '\n' !in PasswdLine(e) && PasswdOf()(PasswdLine(e)) == [e] {
      PasswdEdged(e);
      PasswdRoundTrip(e);
    }
    TextLines(PasswdLine, es);
    Reread(PasswdLine, PasswdOf(), (e: Passwd) => e, es);
    assert seq(|es|, i requires 0 <= i < |es| => es[i]) == es;
  }

  lemma GroupsBack(gs: seq<GroupLine>)
    requires forall g :: g in gs ==> WellFormedGroup(g)
    ensures Flat(GroupOf(), Split(Text(GroupText, gs), '\n')) == gs
  {
    forall g | g in gs ensures '\n' !in GroupText(g) && GroupOf()(GroupText(g)) == [g] {
      GroupEdged(g);
      GroupRoundTrip(g);
    }
    TextLines(GroupText, gs);
    Reread(GroupText, GroupOf(), (g: GroupLine) => g, gs);
    assert seq(|gs|, i requires 0 <= i < |gs| => gs[i]) == gs;
  }

  function PasswdName(e: Passwd): Name { e.name }

  lemma {:induction false} UsersExact(es: seq<Passwd>)
    requires Distinct(PasswdName, es)
    ensures forall e :: e in es ==> e.name in Users(es) && Users(es)[e.name] == UserOf(e)
    ensures forall n :: n in Users(es) ==> exists e :: e in es && e.name == n
    decreases |es|
  {
    if es != [] {
      var n := |es| - 1;
      assert Distinct(PasswdName, es[..n]);
      UsersExact(es[..n]);
      assert es == es[..n] + [es[n]];
      forall e | e in es[..n] ensures e.name != es[n].name {
        var i :| 0 <= i < n && es[i] == e;
        assert PasswdName(es[i]) != PasswdName(es[n]);
      }
    }
  }

  function GroupName(g: GroupLine): Name { g.name }

  lemma {:induction false} GidsExact(gs: seq<GroupLine>)
    requires Distinct(GroupName, gs)
    ensures forall g :: g in gs ==> g.name in Gids(gs) && Gids(gs)[g.name] == g.gid
    ensures forall n :: n in Gids(gs) ==> exists g :: g in gs && g.name == n
    decreases |gs|
  {
    if gs != [] {
      var n := |gs| - 1;
      assert Distinct(GroupName, gs[..n]);
      GidsExact(gs[..n]);
      assert gs == gs[..n] + [gs[n]];
      forall g | g in gs[..n] ensures g.name != gs[n].name {
        var i :| 0 <= i < n && gs[i] == g;
        assert GroupName(gs[i]) != GroupName(gs[n]);
      }
    }
  }

  lemma {:induction false} TimesExact(members: seq<Name>, user: Name, group: Name, x: Name)
    ensures x in Times(members, user, group) <==> x == group && user in members
    decreases |members|
  {
    if members != [] {
      var n := |members| - 1;
      TimesExact(members[..n], user, group, x);
      assert members == members[..n] + [members[n]];
    }
  }

  /** A user's groups are exactly those that list it and do not have its primary gid. */
  lemma GroupsExact(gs: seq<GroupLine>, user: Name, gid: Id, x: Name)
    ensures x in GroupsOf(gs, user, gid) <==> exists g :: g in gs && g.name == x && user in g.members && g.gid != gid
  {
    FlatMember(Listing(user, gid), gs, x);
    forall g ensures x in Listing(user, gid)(g) <==> g.gid != gid && x == g.name && user in g.members {
      TimesExact(g.members, user, g.name, x);
    }
  }

  /** Scanning the printed form of a well-formed database recovers every user, colons in the GECOS and
      all, with the groups that list it outside its primary gid, in file order; every group; and nothing
      else. */
  lemma ScanRoundTrip(es: seq<Passwd>, gs: seq<GroupLine>)
    requires forall e :: e in es ==> WellFormedPasswd(e)
    requires forall g :: g in gs ==> WellFormedGroup(g)
    requires Distinct(PasswdName, es) && Distinct(GroupName, gs)
    ensures var lines := Flat(GroupOf(), Split(Text(GroupText, gs), '\n'));
            var users := Joined(Users(Flat(PasswdOf(), Split(Text(PasswdLine, es), '\n'))), lines);
            && (forall e :: e in es ==>
                  && e.name in users
                  && users[e.name] == User(e.uid, e.gid, e.gecos, e.home, e.shell, GroupsOf(gs, e.name, e.gid)))
            && (forall n :: n in users ==> exists e :: e in es && e.name == n)
            && (forall g :: g in gs ==> g.name in Gids(lines) && Gids(lines)[g.name] == g.gid)
            && (forall n :: n in Gids(lines) ==> exists g :: g in gs && g.name == n)
  {
    UsersBack(es);
    GroupsBack(gs);
    UsersExact(es);
    GidsExact(gs);
  }

}
