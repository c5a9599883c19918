/** Reading the groups' administrators as getent prints them (internal/provider/shadowutils.go). */
module Gshadow {
  import opened Common
  import opened Names
  import opened Getent

  /** A gshadow line: name:password:admin,admin:member,member. */
  datatype Shadow = Shadow(name: Name, password: string, admins: seq<Name>, members: seq<Name>)

  /** What the scan keeps of it. */
  datatype Admins = Admins(name: Name, admins: seq<Name>)

  function ParseAdmins(line: string): seq<Admins> {
    var f := Split(Trim(line), ':');
    if |f| < 3 || f[0] == "" then [] else [Admins(f[0], SortBy(Self, Flat(Member(), Split(f[2], ','))))]
  }

  function AdminsOf(): string -> seq<Admins> { line => ParseAdmins(line) }

  /** By name; of two lines of one name the later counts. */
  function Table(es: seq<Admins>): map<Name, seq<Name>>
    decreases |es|
  {
    if es == [] then map[] else Table(es[..|es| - 1])[es[|es| - 1].name := es[|es| - 1].admins]
  }

  /** An answer without a line is none: a gshadow that was looked at lists at least root. */
  predicate Answered(out: Option<string>) {
    out.Some? && Trim(out.value) != ""
  }

  // --- the scan ---

  method ReadNames(field: string) returns (names: seq<Name>)
    ensures names == Flat(Member(), Split(field, ','))
  {
    names := [];
    var parts := Split(field, ',');
    for i := 0 to |parts|
      invariant names == Flat(Member(), parts[..i])
    {
      FlatStep(Member(), parts, i);
      var a := Trim(parts[i]);
      if a != "" { names := names + [a]; }
    }
    assert parts[..|parts|] == parts;
  }

  lemma TableStep(es: seq<Admins>, more: seq<Admins>)
    requires |more| <= 1
    ensures Table(es + more) == if more == [] then Table(es) else Table(es)[more[0].name := more[0].admins]
  {
    if more == [] {
      assert es + more == es;
    } else {
      assert (es + more)[..|es|] == es;
    }
  }

  /** Whether the administrators are known, and which they are. */
  method ScanAdmins(out: Option<string>) returns (admins: map<Name, seq<Name>>, known: bool)
    ensures known <==> Answered(out)
    ensures admins == if known then Table(Flat(AdminsOf(), Split(out.value, '\n'))) else map[]
  {
    admins, known := map[], false;
    if out.None? || Trim(out.value) == "" { return; }
    known := true;
    var lines := Split(out.value, '\n');
    for i := 0 to |lines|
      invariant admins == Table(Flat(AdminsOf(), lines[..i]))
    {
      FlatStep(AdminsOf(), lines, i);
      TableStep(Flat(AdminsOf(), lines[..i]), ParseAdmins(lines[i]));
      var f := Split(Trim(lines[i]), ':');
      if |f| >= 3 && f[0] != "" {
        var names := ReadNames(f[2]);
        admins := admins[f[0] := SortBy(Self, names)];
      }
    }
    assert lines[..|lines|] == lines;
  }

  // --- round trip ---

  predicate Listed(ms: seq<Name>) {
    forall m :: m in ms ==> Field(m) && ',' !in m && m != "" && Edged(m)
  }

  predicate WellFormed(e: Shadow) {
    Field(e.name) && e.name != "" && !Space(e.name[0]) && Field(e.password) && Listed(e.admins) && Listed(e.members)
  }

  function Line(e: Shadow): string {
    e.name + ":" + (e.password + ":" + (Join(e.admins, ',') + ":" + Join(e.members, ',')))
  }

  lemma LineFields(e: Shadow)
    requires WellFormed(e)
    ensures Split(Line(e), ':') == [e.name, e.password, Join(e.admins, ','), Join(e.members, ',')]
  {
    var admins, members := Join(e.admins, ','), Join(e.members, ',');
    JoinField(e.admins);
    JoinField(e.members);
    SplitNone(members, ':');
    SplitFirst(admins, members, ':');
    SplitFirst(e.password, admins + ":" + members, ':');
    SplitFirst(e.name, e.password + ":" + (admins + ":" + members), ':');
  }

  lemma LineEdged(e: Shadow)
    requires WellFormed(e)
    ensures Edged(Line(e)) && '\n' !in Line(e) && Line(e) != "" && !Space(Line(e)[0])
  {
    var s, tail := Line(e), Join(e.members, ',');
    JoinField(e.admins);
    JoinField(e.members);
    assert s[0] == e.name[0];
    assert s[|s| - 1] == if tail == "" then ':' else tail[|tail| - 1];
  }

  lemma NamesBack(ms: seq<Name>)
    requires Listed(ms)
    ensures Flat(Member(), Split(Join(ms, ','), ',')) == ms
  {
    if ms == [] {
      assert Split("", ',') == [""] && [""][1..] == [];
    } else {
      SplitJoin(ms, ',');
      MembersBack(ms);
    }
  }

  /** A printed line reads back as its group's administrators, sorted. */
  lemma LineRoundTrip(e: Shadow)
    requires WellFormed(e)
    ensures ParseAdmins(Line(e)) == [Admins(e.name, SortBy(Self, e.admins))]
  {
    LineEdged(e);
    TrimEdged(Line(e));
    LineFields(e);
    NamesBack(e.admins);
  }

  function Kept(e: Shadow): Admins { Admins(e.name, SortBy(Self, e.admins)) }

  function AllKept(es: seq<Shadow>): seq<Admins> {
    seq(|es|, i requires 0 <= i < |es| => Kept(es[i]))
  }

  lemma LinesBack(es: seq<Shadow>)
    requires forall e :: e in es ==> WellFormed(e)
    ensures Flat(AdminsOf(), Split(Text(Line, es), '\n')) == AllKept(es)
  {
    forall e | e in es ensures '\n' !in Line(e) && AdminsOf()(Line(e)) == [Kept(e)] {
      LineEdged(e);
      LineRoundTrip(e);
    }
    TextLines(Line, es);
    Reread(Line, AdminsOf(), Kept, es);
  }

  lemma AnsweredText(es: seq<Shadow>)
    requires forall e :: e in es ==> WellFormed(e)
    ensures Answered(Some(Text(Line, es))) <==> es != []
  {
    if es != [] {
      assert es[0] in es;
      LineEdged(es[0]);
      TrimKeeps(Text(Line, es), 0);
    }
  }

  function ShadowName(e: Shadow): Name { e.name }

  lemma {:induction false} TableExact(es: seq<Shadow>)
    requires Distinct(ShadowName, es)
    ensures forall e :: e in es ==> e.name in Table(AllKept(es)) && Table(AllKept(es))[e.name] == SortBy(Self, e.admins)
    ensures forall n :: n in Table(AllKept(es)) ==> exists e :: e in es && e.name == n
    decreases |es|
  {
    if es != [] {
      var n := |es| - 1;
      assert Distinct(ShadowName, es[..n]);
      TableExact(es[..n]);
      assert es == es[..n] + [es[n]] && AllKept(es)[..n] == AllKept(es[..n]);
      forall e | e in es[..n] ensures e.name != es[n].name {
        var i :| 0 <= i < n && es[i] == e;
        assert ShadowName(es[i]) != ShadowName(es[n]);
      }
    }
  }

  lemma {:induction false} TrimKeeps(s: string, i: nat)
    requires i < |s| && !Space(s[i])
    ensures Trim(s) != ""
    decreases |s|
  {
    if Space(s[0]) {
      TrimKeeps(s[1..], i - 1);
    } else if Space(s[|s| - 1]) {
      TrimKeeps(s[..|s| - 1], i);
    }
  }

  /** Scanning the printed form of a well-formed gshadow gives every group its administrators, sorted, and
      nothing else; and that they are known, unless there is no line at all. */
  lemma AdminsRoundTrip(es: seq<Shadow>)
    requires (forall e :: e in es ==> WellFormed(e)) && Distinct(ShadowName, es)
    ensures Answered(Some(Text(Line, es))) <==> es != []
    ensures var table := Table(Flat(AdminsOf(), Split(Text(Line, es), '\n')));
            && (forall e :: e in es ==>
                  && e.name in table && table[e.name] == SortBy(Self, e.admins)
                  && multiset(table[e.name]) == multiset(e.admins))
            && forall n :: n in table ==> exists e :: e in es && e.name == n
  {
    LinesBack(es);
    TableExact(es);
    AnsweredText(es);
    forall e | e in es ensures multiset(SortBy(Self, e.admins)) == multiset(e.admins) {
      SortByMultiset(Self, e.admins);
    }
  }
}
