/** Who reads whom, as it is mounted, as it is served over SMB, and as it is exported
    (internal/smbconf/smbconf.go, internal/cmd/roster.go). */
module Shares {
  import opened Common
  import opened Names
  import opened IdRange
  import opened Roster
  import opened Validation
  import opened Reconcile
  import opened Agreement
  import Reconciler

  /** A section of the rendered block, as far as access goes. */
  datatype Section =
    | Homes
    | TeamShare(team: Name, gated: bool, fileMask: nat, dirMask: nat)  // gated: to the team's members
    | ReadShare(reader: Name, teams: seq<Name>)

  function SectionName(s: Section): Name {
    match s
    case Homes => "homes"
    case TeamShare(team, _, _, _) => team
    case ReadShare(reader, _) => reader + READ_SUFFIX
  }

  // --- the inversion of the reader relation ---

  /** The teams a group reads, in the order of gs. */
  function TeamOf(all: seq<Group>, reader: Name): Group -> seq<Name> {
    (g: Group) => Hits(GroupReaders(all, g), reader, g.name)
  }

  function TeamsOf(all: seq<Group>, gs: seq<Group>, reader: Name): seq<Name> {
    Flat(TeamOf(all, reader), gs)
  }

  /** The loop all three uses share: each reader of each team gets the team appended. */
  method InvertReaders(all: seq<Group>, gs: seq<Group>) returns (byReader: map<Name, seq<Name>>)
    ensures forall r :: Reconciler.Joined(byReader, r) == TeamsOf(all, gs, r)
  {
    byReader := map[];
    for i := 0 to |gs|
      invariant forall r :: Reconciler.Joined(byReader, r) == TeamsOf(all, gs[..i], r)
    {
      var readers := ComputeGroupReaders(all, gs[i]);
      forall r ensures TeamsOf(all, gs[..i + 1], r) == TeamsOf(all, gs[..i], r) + Hits(readers, r, gs[i].name) {
        FlatStep(TeamOf(all, r), gs, i);
      }
      byReader := Reconciler.AddMembers(byReader, readers, gs[i].name);
    }
    assert gs[..|gs|] == gs;
  }

  lemma TeamsOfExact(all: seq<Group>, gs: seq<Group>, reader: Name, team: Name)
    ensures team in TeamsOf(all, gs, reader) <==> exists g :: g in gs && g.name == team && Reads(all, reader, g)
  {
    FlatMember(TeamOf(all, reader), gs, team);
    forall g | g in gs ensures team in TeamOf(all, reader)(g) <==> g.name == team && Reads(all, reader, g) {
      HitsMember(GroupReaders(all, g), reader, g.name, team);
      GroupReadersExact(all, g, reader);
    }
  }

  // --- the shares ---

  /** The modes of new files and folders, in the same three steps as the folder's own. */
  function FileMask(a: Anonymous): nat {
    match a case AnonNone => 432 case AnonRead => 436 case AnonWrite => 438
  }

  function DirMask(a: Anonymous): nat {
    match a case AnonNone => 1528 case AnonRead => 1533 case AnonWrite => 1535
  }

  function TeamSection(): Group -> seq<Section> {
    (g: Group) => [TeamShare(g.name, g.anonymous == AnonNone, FileMask(g.anonymous), DirMask(g.anonymous))]
  }

  function ReadSection(gs: seq<Group>): Group -> seq<Section> {
    (g: Group) => if TeamsOf(gs, gs, g.name) == [] then [] else [ReadShare(g.name, TeamsOf(gs, gs, g.name))]
  }

  /** renderViewShares. */
  method ViewShares(gs: seq<Group>) returns (out: seq<Section>)
    ensures out == Flat(ReadSection(gs), gs)
  {
    var byReader := InvertReaders(gs, gs);
    out := [];
    for i := 0 to |gs|
      invariant out == Flat(ReadSection(gs), gs[..i])
    {
      FlatStep(ReadSection(gs), gs, i);
      var teams := Reconciler.Joined(byReader, gs[i].name);
      assert teams == TeamsOf(gs, gs, gs[i].name);
      if teams != [] { out := out + [ReadShare(gs[i].name, teams)]; }
    }
    assert gs[..|gs|] == gs;
  }

  /** Render: [homes], every team by name, then every reader's share by name. */
  method Render(groups: seq<Group>, views: bool) returns (out: seq<Section>)
    ensures out == Sections(groups, views)
  {
    var gs := SortBy(GroupKey, groups);
    out := [Homes];
    for i := 0 to |gs|
      invariant out == [Homes] + Flat(TeamSection(), gs[..i])
    {
      FlatStep(TeamSection(), gs, i);
      var g := gs[i];
      var masks := match g.anonymous
        case AnonRead => (436, 1533)
        case AnonWrite => (438, 1535)
        case AnonNone => (432, 1528);
      out := out + [TeamShare(g.name, g.anonymous == AnonNone, masks.0, masks.1)];
    }
    assert gs[..|gs|] == gs;
    if views {
      var shares := ViewShares(gs);
      out := out + shares;
    }
  }

  function Sections(groups: seq<Group>, views: bool): seq<Section> {
    var gs := SortBy(GroupKey, groups);
    [Homes] + Flat(TeamSection(), gs) + if views then Flat(ReadSection(gs), gs) else []
  }

  // --- what the block holds ---

  /** The team's section as its group is declared: closed to all but members exactly if it is not anonymous;
      new folders as open to others as the team's own, and new files likewise, but for executing them. */
  ghost predicate TeamServed(groups: seq<Group>, s: Section)
    requires s.TeamShare?
  {
    exists g :: && g in groups && g.name == s.team && (s.gated <==> g.anonymous !in {AnonRead, AnonWrite})
                && s.dirMask == g.anonymous.FolderPerm() && Octal(s.fileMask, 6, 6, s.dirMask % 8 / 2 * 2)
  }

  lemma TeamsExact(groups: seq<Group>, s: Section)
    requires s.TeamShare?
    ensures s in Flat(TeamSection(), SortBy(GroupKey, groups)) <==> TeamServed(groups, s)
  {
    var gs := SortBy(GroupKey, groups);
    SortByMembers(GroupKey, groups);
    FlatMember(TeamSection(), gs, s);
  }

  lemma ReadersExact(groups: seq<Group>, s: Section)
    requires Distinct(GroupKey, groups) && (forall g :: g in groups ==> Distinct(Self, g.readers)) && s.ReadShare?
    ensures var gs := SortBy(GroupKey, groups);
            s in Flat(ReadSection(gs), gs) <==>
              && s.teams != [] && (exists h :: h in groups && h.name == s.reader)
              && ReadsThese(groups, s.reader, s.teams)
  {
    var gs := SortBy(GroupKey, groups);
    SortByMembers(GroupKey, groups);
    FlatMember(ReadSection(gs), gs, s);
    TeamsListed(groups, s.reader, s.teams);
  }

  lemma SectionKinds(groups: seq<Group>, s: Section)
    ensures var gs := SortBy(GroupKey, groups);
            (s in Flat(TeamSection(), gs) ==> s.TeamShare?) && (s in Flat(ReadSection(gs), gs) ==> s.ReadShare?)
  {
    var gs := SortBy(GroupKey, groups);
    FlatMember(TeamSection(), gs, s);
    FlatMember(ReadSection(gs), gs, s);
  }

  /** The block holds the homes; a section for every declared team; and, where views are shared, for every
      declared group that reads some team, one with all the teams it reads, in order. */
  lemma SectionsExact(groups: seq<Group>, views: bool, s: Section)
    requires Distinct(GroupKey, groups) && forall g :: g in groups ==> Distinct(Self, g.readers)
    ensures s in Sections(groups, views) <==>
              match s
              case Homes => true
              case TeamShare(_, _, _, _) => TeamServed(groups, s)
              case ReadShare(reader, teams) =>
                && views && teams != [] && (exists h :: h in groups && h.name == reader)
                && ReadsThese(groups, reader, teams)
  {
    SectionKinds(groups, s);
    if s.TeamShare? { TeamsExact(groups, s); }
    if s.ReadShare? { ReadersExact(groups, s); }
  }

  /** The homes, the teams by name, the readers by name. */
  predicate Above(a: Section, b: Section) {
    match (a, b)
    case (Homes, _) => b != Homes
    case (TeamShare(m, _, _, _), TeamShare(n, _, _, _)) => Less(m, n)
    case (TeamShare(_, _, _, _), ReadShare(_, _)) => true
    case (ReadShare(q, _), ReadShare(r, _)) => Less(q, r)
    case _ => false
  }

  ghost predicate Stacked(s: seq<Section>) {
    forall i, j :: 0 <= i < j < |s| ==> Above(s[i], s[j])
  }

  lemma StackedOnto(a: seq<Section>, b: seq<Section>)
    requires Stacked(a) && Stacked(b) && forall s, t :: s in a && t in b ==> Above(s, t)
    ensures Stacked(a + b)
  {
    var c := a + b;
    forall i, j | 0 <= i < j < |c| ensures Above(c[i], c[j]) {
      if i < |a| <= j { assert a[i] in a && b[j - |a|] in b; }
    }
  }

  lemma {:induction false} FlatStacked(f: Group -> seq<Section>, gs: seq<Group>)
    requires Ascending(GroupKey, gs) && forall g :: g in gs ==> Stacked(f(g))
    requires forall g, h, s, t :: g in gs && h in gs && Less(g.name, h.name) && s in f(g) && t in f(h) ==> Above(s, t)
    ensures Stacked(Flat(f, gs))
    decreases |gs|
  {
    if gs != [] {
      var rest := gs[1..];
      assert gs == [gs[0]] + rest;
      forall i, j | 0 <= i < j < |rest| ensures Less(GroupKey(rest[i]), GroupKey(rest[j])) {
        assert Less(GroupKey(gs[i + 1]), GroupKey(gs[j + 1]));
      }
      FlatStacked(f, rest);
      forall s, t | s in f(gs[0]) && t in Flat(f, rest) ensures Above(s, t) {
        FlatMember(f, rest, t);
        var h :| h in rest && t in f(h);
        var i :| 0 <= i < |rest| && rest[i] == h;
        assert Less(GroupKey(gs[0]), GroupKey(gs[i + 1]));
      }
      StackedOnto(f(gs[0]), Flat(f, rest));
    }
  }

  lemma SectionsOrdered(groups: seq<Group>, views: bool)
    requires Distinct(GroupKey, groups)
    ensures Stacked(Sections(groups, views))
  {
    var gs := SortBy(GroupKey, groups);
    SortByAscending(GroupKey, groups);
    var teams, shares := Flat(TeamSection(), gs), Flat(ReadSection(gs), gs);
    FlatStacked(TeamSection(), gs);
    FlatStacked(ReadSection(gs), gs);
    forall s { SectionKinds(groups, s); }
    StackedOnto([Homes], teams);
    if views {
      StackedOnto([Homes] + teams, shares);
    } else {
      assert [Homes] + teams + [] == [Homes] + teams;
    }
  }

  /** The permissions of owner, group and others. */
  predicate Octal(mode: nat, owner: nat, group: nat, others: nat) {
    mode == 64 * owner + 8 * group + others
  }

  ghost predicate ReadsThese(groups: seq<Group>, reader: Name, teams: seq<Name>) {
    && Ascending(Self, teams)
    && forall t :: t in teams <==> exists g :: g in groups && g.name == t && Reads(groups, reader, g)
  }

  lemma TeamLater(all: seq<Group>, gs: seq<Group>, reader: Name, t: Name)
    requires gs != [] && Ascending(GroupKey, gs) && t in TeamsOf(all, gs[1..], reader)
    ensures Less(gs[0].name, t)
  {
    TeamsOfExact(all, gs[1..], reader, t);
    var g :| g in gs[1..] && g.name == t && Reads(all, reader, g);
    var i :| 0 <= i < |gs[1..]| && gs[1..][i] == g;
    assert Less(GroupKey(gs[0]), GroupKey(gs[i + 1]));
  }

  /** A reader is inverted once for each team, as it is resolved once. */
  lemma {:induction false} TeamsAscending(all: seq<Group>, gs: seq<Group>, reader: Name)
    requires Ascending(GroupKey, gs) && forall g :: g in gs ==> Distinct(Self, g.readers)
    ensures Ascending(Self, TeamsOf(all, gs, reader))
    decreases |gs|
  {
    if gs != [] {
      assert gs == [gs[0]] + gs[1..];
      TeamsAscending(all, gs[1..], reader);
      AddReadersDistinct(gs[0].readers, all, gs[0]);
      HitOnce(GroupReaders(all, gs[0]), reader, gs[0].name);
      var rest := TeamsOf(all, gs[1..], reader);
      forall t | t in rest ensures Less(gs[0].name, t) { TeamLater(all, gs, reader, t); }
      if TeamOf(all, reader)(gs[0]) == [gs[0].name] {
        PrependAscending(Self, gs[0].name, rest);
      } else {
        assert [] + rest == rest;
      }
    }
  }

  lemma TeamsListed(groups: seq<Group>, reader: Name, teams: seq<Name>)
    requires Distinct(GroupKey, groups) && forall g :: g in groups ==> Distinct(Self, g.readers)
    ensures ReadsThese(groups, reader, teams) <==>
              teams == TeamsOf(SortBy(GroupKey, groups), SortBy(GroupKey, groups), reader)
  {
    var gs := SortBy(GroupKey, groups);
    var all := TeamsOf(gs, gs, reader);
    SortByMembers(GroupKey, groups);
    SortByAscending(GroupKey, groups);
    AscendingDistinct(GroupKey, gs);
    TeamsAscending(gs, gs, reader);
    forall g | g in gs ensures Reads(gs, reader, g) <==> Reads(groups, reader, g) {}
    forall t ensures t in all <==> exists g :: g in groups && g.name == t && Reads(groups, reader, g) {
      TeamsOfExact(gs, gs, reader, t);
    }
    if ReadsThese(groups, reader, teams) { AscendingUnique(Self, teams, all); }
  }

  ghost predicate NamesAllowedHere(gs: seq<Group>) {
    Distinct(GroupKey, gs) && forall g :: g in gs ==> GroupNameAllowed(g)
  }

  lemma {:induction false} TeamNames(gs: seq<Group>)
    requires NamesAllowedHere(gs)
    ensures Distinct(SectionName, Flat(TeamSection(), gs))
    ensures forall s :: s in Flat(TeamSection(), gs) ==> s.TeamShare? && exists g :: g in gs && g.name == s.team
    decreases |gs|
  {
    if gs != [] {
      TeamNames(gs[1..]);
    }
  }

  lemma {:induction false} ReadNames(all: seq<Group>, gs: seq<Group>)
    requires Distinct(GroupKey, gs)
    ensures Distinct(SectionName, Flat(ReadSection(all), gs))
    ensures forall s :: s in Flat(ReadSection(all), gs) ==> s.ReadShare? && exists g :: g in gs && g.name == s.reader
    decreases |gs|
  {
    if gs != [] {
      ReadNames(all, gs[1..]);
      var rest := Flat(ReadSection(all), gs[1..]);
      if ReadSection(all)(gs[0]) != [] {
        ConsReader(ReadSection(all)(gs[0])[0], rest, gs[1..], gs[0].name);
      }
    }
  }

  lemma SuffixInjective(a: Name, b: Name)
    requires a + READ_SUFFIX == b + READ_SUFFIX
    ensures a == b
  {
    assert |a| == |b|;
    assert a == (a + READ_SUFFIX)[..|a|] && b == (b + READ_SUFFIX)[..|b|];
  }

  lemma ConsReader(s: Section, rest: seq<Section>, gs: seq<Group>, name: Name)
    requires Distinct(SectionName, rest) && forall g :: g in gs ==> GroupKey(g) != name
    requires s.ReadShare? && s.reader == name
    requires forall t :: t in rest ==> t.ReadShare? && exists g :: g in gs && g.name == t.reader
    ensures Distinct(SectionName, [s] + rest)
  {
    forall i | 0 <= i < |rest| ensures SectionName(rest[i]) != SectionName(s) {
      assert rest[i] in rest;
      var g :| g in gs && g.name == rest[i].reader;
      assert GroupKey(g) != name;
      if SectionName(rest[i]) == SectionName(s) { SuffixInjective(rest[i].reader, name); }
    }
  }

  /** On groups a loader accepts, all section names are pairwise distinct. */
  lemma SectionsDistinct(groups: seq<Group>, views: bool)
    requires NamesAllowedHere(groups)
    ensures Distinct(SectionName, Sections(groups, views))
  {
    var gs := SortBy(GroupKey, groups);
    SortByAscending(GroupKey, groups);
    SortByMembers(GroupKey, groups);
    AscendingDistinct(GroupKey, gs);
    var teams, shares := Flat(TeamSection(), gs), Flat(ReadSection(gs), gs);
    TeamNames(gs);
    ReadNames(gs, gs);
    forall s, t | s in [Homes] && t in teams ensures SectionName(s) != SectionName(t) {
      var g :| g in gs && g.name == t.team;
      assert "homes" in RESERVED_SECTIONS;
    }
    forall s, t | s in [Homes] + teams && t in shares ensures SectionName(s) != SectionName(t) {
      if s == Homes {
        assert !HasSuffix("homes", READ_SUFFIX);
      } else {
        var g :| g in gs && g.name == s.team;
      }
    }
  }

  // --- one relation ---

  /** The team is served to the reader's members. */
  ghost predicate Served(groups: seq<Group>, reader: Name, team: Name) {
    exists s :: s in Sections(groups, true) && s.ReadShare? && s.reader == reader && team in s.teams
  }

  lemma ServedExact(groups: seq<Group>, reader: Name, team: Name)
    ensures Served(groups, reader, team) <==>
              reader in GroupNames(groups) && exists g :: g in groups && g.name == team && Reads(groups, reader, g)
  {
    var gs := SortBy(GroupKey, groups);
    SortByMembers(GroupKey, groups);
    TeamsOfExact(gs, gs, reader, team);
    forall g | g in gs ensures Reads(gs, reader, g) <==> Reads(groups, reader, g) {}
    ReadShareOf(groups, reader, team);
  }

  lemma ReadShareOf(groups: seq<Group>, reader: Name, team: Name)
    ensures var gs := SortBy(GroupKey, groups);
            Served(groups, reader, team) <==> reader in GroupNames(groups) && team in TeamsOf(gs, gs, reader)
  {
    var gs := SortBy(GroupKey, groups);
    SortByMembers(GroupKey, groups);
    var share := ReadShare(reader, TeamsOf(gs, gs, reader));
    forall s: Section | s.ReadShare? && s.reader == reader
      ensures s in Sections(groups, true) <==> s == share && reader in GroupNames(groups) && share.teams != []
    {
      FlatMember(TeamSection(), gs, s);
      FlatMember(ReadSection(gs), gs, s);
    }
  }

  /** viewsByReader: the teams exported for a reader, by team. */
  method ViewsByReader(groups: seq<Group>) returns (views: map<Name, seq<Name>>)
    ensures forall r :: Reconciler.Joined(views, r) == SortBy(Self, TeamsOf(groups, groups, r))
  {
    var byReader := InvertReaders(groups, groups);
    views := map r | r in byReader :: SortBy(Self, byReader[r]);
    forall r ensures Reconciler.Joined(views, r) == SortBy(Self, TeamsOf(groups, groups, r)) {
      assert Reconciler.Joined(byReader, r) == TeamsOf(groups, groups, r);
    }
  }

  lemma {:induction false} TeamsOnce(all: seq<Group>, gs: seq<Group>, reader: Name)
    requires Distinct(GroupKey, gs) && forall g :: g in gs ==> Distinct(Self, g.readers)
    ensures Distinct(Self, TeamsOf(all, gs, reader))
    decreases |gs|
  {
    if gs != [] {
      var rest := TeamsOf(all, gs[1..], reader);
      assert gs == [gs[0]] + gs[1..];
      forall i, j | 0 <= i < j < |gs[1..]| ensures GroupKey(gs[1..][i]) != GroupKey(gs[1..][j]) {
        assert GroupKey(gs[i + 1]) != GroupKey(gs[j + 1]);
      }
      TeamsOnce(all, gs[1..], reader);
      AddReadersDistinct(gs[0].readers, all, gs[0]);
      HitOnce(GroupReaders(all, gs[0]), reader, gs[0].name);
      forall i | 0 <= i < |rest| ensures rest[i] != gs[0].name {
        TeamsOfExact(all, gs[1..], reader, rest[i]);
        assert rest[i] in rest;
        var g :| g in gs[1..] && g.name == rest[i];
        var k :| 0 <= k < |gs[1..]| && gs[1..][k] == g;
        assert GroupKey(gs[0]) != GroupKey(gs[k + 1]);
      }
    }
  }

  /** What is exported for a reader: the teams it reads, each once, in order. */
  lemma ViewsExact(groups: seq<Group>, reader: Name)
    requires Distinct(GroupKey, groups) && forall g :: g in groups ==> Distinct(Self, g.readers)
    ensures ReadsThese(groups, reader, SortBy(Self, TeamsOf(groups, groups, reader)))
  {
    var teams := TeamsOf(groups, groups, reader);
    TeamsOnce(groups, groups, reader);
    SortByAscending(Self, teams);
    SortByMembers(Self, teams);
    forall t
      ensures t in SortBy(Self, teams) <==> exists g :: g in groups && g.name == t && Reads(groups, reader, g)
    {
      TeamsOfExact(groups, groups, reader, t);
    }
  }

  /** The pairs mounted by the reconciler, served as read-only shares and exported as views are the same,
      for every declared reader and team. */
  lemma OneRelation(ro: Roster, g: Group, h: Group)
    requires Distinct(GroupKey, ro.groups) && g in ro.groups && h in ro.groups
    ensures h.name in DeclaredReaders(ro, g) <==> Served(ro.groups, h.name, g.name)
    ensures h.name in DeclaredReaders(ro, g) <==> g.name in SortBy(Self, TeamsOf(ro.groups, ro.groups, h.name))
  {
    ServedExact(ro.groups, h.name, g.name);
    TeamsOfExact(ro.groups, ro.groups, h.name, g.name);
    SortByMembers(Self, TeamsOf(ro.groups, ro.groups, h.name));
    forall k | k in ro.groups && k.name == g.name ensures k == g { Unique(ro.groups, k, g); }
  }

  lemma Unique(gs: seq<Group>, a: Group, b: Group)
    requires Distinct(GroupKey, gs) && a in gs && b in gs && a.name == b.name
    ensures a == b
  {
    var i :| 0 <= i < |gs| && gs[i] == a;
    var j :| 0 <= j < |gs| && gs[j] == b;
    assert i != j ==> GroupKey(gs[i]) != GroupKey(gs[j]);
  }

  /** Narrowing a roster to what is managed keeps the relation between managed groups. */
  lemma NarrowedReads(ro: Roster, cls: Classifier, policy: Policy, g: Group, h: Group)
    requires Accepted(ro, cls, policy) && g in ro.groups && h in ro.groups
    requires cls.Gid(g.gid) == Managed && cls.Gid(h.gid) == Managed
    ensures Reads(Narrowed(ro, cls).groups, h.name, g) <==> Reads(ro.groups, h.name, g)
  {
    NarrowedMembers(ro, cls);
    forall k | k in ro.groups && k.name == h.name ensures k == h { Unique(ro.groups, k, h); }
  }
}
