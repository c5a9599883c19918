/** Reader views: the mount namespace, what is observed of it, and the calls that converge it
    (internal/fsops/view.go). A view of `team` for `reader` sits at <views>/<reader>/<team>. */
module Views {
  import opened Common
  import opened Names
  import opened IdMap

  datatype Point = Point(reader: Name, team: Name)

  /** What is at a point beneath any mount: a mountpoint of the shape usersync leaves, an empty
      directory of another shape, or anything else. An absent key is an absent path. */
  datatype Spot = Ours | Empty | Occupied

  /** A read-only id-mapped mount of the team folder, or any other mount. */
  datatype Mount = View(from: Id, to: Id) | Foreign

  /** The view namespace: the reader directories with their gids, the paths two levels below,
      and the mount table restricted to them. */
  datatype Ns = Ns(readers: map<Name, Id>, spots: map<Point, Spot>, mounts: map<Point, Mount>)

  /** A reader group with the gid its views present. */
  datatype Reader = Reader(name: Name, gid: Id)

  /** Every mount is on a path, and every path is in a reader directory. */
  ghost predicate Wf(ns: Ns) {
    && (forall p :: p in ns.mounts ==> p in ns.spots)
    && (forall p :: p in ns.spots ==> p.reader in ns.readers)
  }

  // --- observation ---

  /** The root of the mount at p shows gid. */
  predicate Presents(ns: Ns, folders: map<Name, Dir>, p: Point, gid: Id) {
    && p in ns.mounts && ns.mounts[p].View?
    && p.team in folders
    && Shown(ns.mounts[p].from, ns.mounts[p].to, folders[p.team].gid) == gid
  }

  /** A view counts when its root presents the gid of the reader's directory. */
  predicate Working(ns: Ns, folders: map<Name, Dir>, p: Point) {
    p.reader in ns.readers && Presents(ns, folders, p, ns.readers[p.reader])
  }

  predicate Leftover(ns: Ns, p: Point) {
    p in ns.spots && ns.spots[p] == Ours && p !in ns.mounts && p.reader != p.team
  }

  const LEFTOVER_TAG := "@leftover"

  ghost function ObservedSet(ns: Ns, folders: map<Name, Dir>, team: Name): set<Name> {
    (set p | p in ns.mounts && p.team == team && Working(ns, folders, p) :: p.reader)
    + if team in folders
      then set p | p in ns.spots && p.team == team && Leftover(ns, p) :: p.reader + LEFTOVER_TAG
      else {}
  }

  /** ReadReaderViews for one team. */
  ghost function Observed(ns: Ns, folders: map<Name, Dir>, team: Name): seq<Name> {
    SortedNames(ObservedSet(ns, folders, team))
  }

  // --- calls ---

  /** One call convergeViews makes on the system, or its decision to refuse. */
  datatype ViewCall =
    | Refuse
    | Umount(p: Point)
    | TryRemove(p: Point)               // its failure is ignored
    | Sweep(p: Point)
    | MkReader(name: Name)
    | ChgrpReader(name: Name, gid: Id)
    | MkPoint(p: Point)
    | Bind(p: Point, from: Id, to: Id)

  function ExecView(ns: Ns, folders: map<Name, Dir>, c: ViewCall): Option<Ns> {
    match c
    case Refuse => None
    case Umount(p) =>
      if p in ns.mounts && ns.mounts[p].View? then Some(ns.(mounts := ns.mounts - {p})) else None
    case TryRemove(p) =>
      if p in ns.spots && !ns.spots[p].Occupied? && p !in ns.mounts
      then Some(ns.(spots := ns.spots - {p})) else Some(ns)
    case Sweep(p) =>
      if Leftover(ns, p) then Some(ns.(spots := ns.spots - {p})) else Some(ns)
    case MkReader(r) =>
      if r in ns.readers then Some(ns) else Some(ns.(readers := ns.readers[r := 0]))
    case ChgrpReader(r, gid) =>
      if r in ns.readers then Some(ns.(readers := ns.readers[r := gid])) else None
    case MkPoint(p) =>
      if p in ns.mounts || p.reader !in ns.readers then None
      else if p !in ns.spots then Some(ns.(spots := ns.spots[p := Ours]))
      else if ns.spots[p] == Ours then Some(ns) else None
    case Bind(p, from, to) =>
      if p in ns.spots && p !in ns.mounts && p.team in folders && Shown(from, to, folders[p.team].gid) == to
      then Some(ns.(mounts := ns.mounts[p := View(from, to)])) else None
  }

  predicate Ignored(c: ViewCall) {
    c.TryRemove?
  }

  datatype ViewRun = ViewRun(ns: Ns, ok: bool)

  /** Run calls in order, stopping at the first that fails. `faults` holds the positions of the
      calls the environment fails, which then have no effect. */
  function RunViews(ns: Ns, folders: map<Name, Dir>, cs: seq<ViewCall>, faults: set<nat>, at: nat): ViewRun
    decreases |cs|
  {
    if cs == [] then ViewRun(ns, true)
    else if at in faults then
      if Ignored(cs[0]) then RunViews(ns, folders, cs[1..], faults, at + 1) else ViewRun(ns, false)
    else match ExecView(ns, folders, cs[0])
      case None => ViewRun(ns, false)
      case Some(next) => RunViews(next, folders, cs[1..], faults, at + 1)
  }

  // --- the plan of EnsureReaderViews ---

  function ReaderNames(rs: seq<Reader>): set<Name> {
    set r | r in rs :: r.name
  }

  /** The points of this team that carry a mount, by reader. */
  ghost function Table(ns: Ns, team: Name): seq<Name> {
    SortedNames(set p | p in ns.mounts && p.team == team :: p.reader)
  }

  function DropOf(ns: Ns, team: Name, want: set<Name>): Name -> seq<ViewCall> {
    reader =>
      var p := Point(reader, team);
      if p !in ns.mounts then []
      else if ns.mounts[p].Foreign? then (if reader in want then [Refuse] else [])
      else if reader in want then [] else [Umount(p), TryRemove(p)]
  }

  function SweepOf(team: Name): Name -> seq<ViewCall> {
    reader => [Sweep(Point(reader, team))]
  }

  /** ensureReaderDir, then ensureView. */
  function EnsureOf(ns: Ns, folders: map<Name, Dir>, team: Name, teamGid: Id): Reader -> seq<ViewCall> {
    (r: Reader) =>
      var p := Point(r.name, team);
      [MkReader(r.name), ChgrpReader(r.name, r.gid)]
      + if Presents(ns, folders, p, r.gid) then []
        else if teamGid == r.gid || teamGid >= MAX_ID || r.gid >= MAX_ID then [Refuse]
        else (if p in ns.mounts then [Umount(p)] else []) + [MkPoint(p), Bind(p, teamGid, r.gid)]
  }

  ghost function Plan(ns: Ns, folders: map<Name, Dir>, team: Name, teamGid: Id, rs: seq<Reader>): seq<ViewCall> {
    var want := ReaderNames(rs);
    Flat(DropOf(ns, team, want), Table(ns, team))
    + Flat(SweepOf(team), SortedNames(ns.readers.Keys - want - {team}))
    + Flat(EnsureOf(ns, folders, team, teamGid), rs)
  }

  // --- frames ---

  ghost predicate Touches(c: ViewCall, p: Point) {
    match c
    case Refuse => false
    case MkReader(_) => false
    case ChgrpReader(_, _) => false
    case Umount(q) => p == q
    case TryRemove(q) => p == q
    case Sweep(q) => p == q
    case MkPoint(q) => p == q
    case Bind(q, _, _) => p == q
  }

  ghost predicate SameAt(a: Ns, b: Ns, p: Point) {
    && (p in a.mounts <==> p in b.mounts) && (p in a.mounts ==> a.mounts[p] == b.mounts[p])
    && (p in a.spots <==> p in b.spots) && (p in a.spots ==> a.spots[p] == b.spots[p])
  }

  ghost predicate SameDir(a: Ns, b: Ns, r: Name) {
    (r in a.readers <==> r in b.readers) && (r in a.readers ==> a.readers[r] == b.readers[r])
  }

  lemma {:induction false} RunSplit(ns: Ns, folders: map<Name, Dir>, a: seq<ViewCall>, b: seq<ViewCall>,
                                    faults: set<nat>, at: nat)
    ensures RunViews(ns, folders, a + b, faults, at) ==
              var r := RunViews(ns, folders, a, faults, at);
              if r.ok then RunViews(r.ns, folders, b, faults, at + |a|) else r
    decreases |a|
  {
    if a == [] {
      assert a + b == b;
    } else {
      assert (a + b)[1..] == a[1..] + b && (a + b)[0] == a[0];
      var next := if at in faults then Some(ns) else ExecView(ns, folders, a[0]);
      if next.Some? {
        RunSplit(next.value, folders, a[1..], b, faults, at + 1);
      }
    }
  }

  lemma {:induction false} RunFrame(ns: Ns, folders: map<Name, Dir>, cs: seq<ViewCall>, faults: set<nat>, at: nat,
                                    p: Point)
    requires forall c :: c in cs ==> !Touches(c, p)
    ensures SameAt(ns, RunViews(ns, folders, cs, faults, at).ns, p)
    decreases |cs|
  {
    if cs != [] {
      assert cs[0] in cs;
      var next := if at in faults then Some(ns) else ExecView(ns, folders, cs[0]);
      if next.Some? {
        RunFrame(next.value, folders, cs[1..], faults, at + 1, p);
      }
    }
  }

  lemma {:induction false} RunDirs(ns: Ns, folders: map<Name, Dir>, cs: seq<ViewCall>, faults: set<nat>, at: nat,
                                   r: Name)
    requires forall c :: c in cs ==> c != MkReader(r) && !(c.ChgrpReader? && c.name == r)
    ensures SameDir(ns, RunViews(ns, folders, cs, faults, at).ns, r)
    decreases |cs|
  {
    if cs != [] {
      assert cs[0] in cs;
      var next := if at in faults then Some(ns) else ExecView(ns, folders, cs[0]);
      if next.Some? {
        RunDirs(next.value, folders, cs[1..], faults, at + 1, r);
      }
    }
  }

  lemma ExecWf(ns: Ns, folders: map<Name, Dir>, c: ViewCall)
    requires Wf(ns) && ExecView(ns, folders, c).Some?
    ensures Wf(ExecView(ns, folders, c).value)
    ensures ns.readers.Keys <= ExecView(ns, folders, c).value.readers.Keys
  {
    match c
    case Umount(p) =>
    case TryRemove(p) =>
    case Sweep(p) =>
    case MkReader(_) =>
    case ChgrpReader(_, _) =>
    case MkPoint(p) =>
    case Bind(p, _, _) =>
  }

  lemma {:induction false} RunWf(ns: Ns, folders: map<Name, Dir>, cs: seq<ViewCall>, faults: set<nat>, at: nat)
    requires Wf(ns)
    ensures Wf(RunViews(ns, folders, cs, faults, at).ns)
    ensures ns.readers.Keys <= RunViews(ns, folders, cs, faults, at).ns.readers.Keys
    decreases |cs|
  {
    if cs != [] {
      if at in faults {
        if Ignored(cs[0]) { RunWf(ns, folders, cs[1..], faults, at + 1); }
      } else if ExecView(ns, folders, cs[0]).Some? {
        ExecWf(ns, folders, cs[0]);
        RunWf(ExecView(ns, folders, cs[0]).value, folders, cs[1..], faults, at + 1);
      }
    }
  }

  // --- first part of the plan: views no longer declared come down ---

  /** Nothing but a foreign mount is at p. */
  ghost predicate NoView(ns: Ns, p: Point) {
    p in ns.mounts ==> ns.mounts[p].Foreign?
  }

  lemma DropsTouch(ns: Ns, team: Name, want: set<Name>, tbl: seq<Name>, c: ViewCall, p: Point)
    requires c in Flat(DropOf(ns, team, want), tbl) && Touches(c, p)
    ensures p.team == team && p.reader in tbl && p.reader !in want && p in ns.mounts && ns.mounts[p].View?
  {
    FlatMember(DropOf(ns, team, want), tbl, c);
  }

  /** Split a successful run around the i-th element of the list it was planned from. */
  lemma Segment<T>(ns: Ns, folders: map<Name, Dir>, f: T -> seq<ViewCall>, xs: seq<T>, i: nat,
                   faults: set<nat>, at: nat) returns (before: Ns, at1: nat, after: Ns, at2: nat)
    requires i < |xs|
    requires RunViews(ns, folders, Flat(f, xs), faults, at).ok
    ensures RunViews(ns, folders, Flat(f, xs[..i]), faults, at) == ViewRun(before, true)
    ensures RunViews(before, folders, f(xs[i]), faults, at1) == ViewRun(after, true)
    ensures RunViews(after, folders, Flat(f, xs[i + 1..]), faults, at2)
            == RunViews(ns, folders, Flat(f, xs), faults, at)
  {
    FlatAround(f, xs, i);
    var a, b, c := Flat(f, xs[..i]), f(xs[i]), Flat(f, xs[i + 1..]);
    RunSplit(ns, folders, a + b, c, faults, at);
    RunSplit(ns, folders, a, b, faults, at);
    at1 := at + |a|;
    at2 := at + |a + b|;
    before := RunViews(ns, folders, a, faults, at).ns;
    after := RunViews(before, folders, b, faults, at1).ns;
  }

  /** The calls for one reader: a view nobody declares is unmounted, its mountpoint tried. */
  lemma DropOne(ns0: Ns, ns: Ns, folders: map<Name, Dir>, team: Name, want: set<Name>, reader: Name,
                faults: set<nat>, at: nat)
    requires SameAt(ns0, ns, Point(reader, team))
    requires RunViews(ns, folders, DropOf(ns0, team, want)(reader), faults, at).ok
    ensures reader !in want ==>
              NoView(RunViews(ns, folders, DropOf(ns0, team, want)(reader), faults, at).ns, Point(reader, team))
    ensures reader in want && Point(reader, team) in ns.mounts ==> ns.mounts[Point(reader, team)].View?
  {
    var p := Point(reader, team);
    var cs := DropOf(ns0, team, want)(reader);
    if cs != [] && cs[0] == Umount(p) {
      var n1 := ExecView(ns, folders, cs[0]).value;
      assert cs[1..] == [TryRemove(p)] && cs[1..][1..] == [];
      assert NoView(n1, p);
      assert RunViews(n1, folders, cs[1..], faults, at + 1).ns.mounts == n1.mounts by {
        assert ExecView(n1, folders, cs[1..][0]).value.mounts == n1.mounts;
      }
      assert RunViews(ns, folders, cs, faults, at) == RunViews(n1, folders, cs[1..], faults, at + 1);
    }
  }

  lemma DropsClear(ns: Ns, folders: map<Name, Dir>, team: Name, want: set<Name>, tbl: seq<Name>, reader: Name,
                   faults: set<nat>, at: nat)
    requires Distinct(Self, tbl) && reader in tbl
    requires RunViews(ns, folders, Flat(DropOf(ns, team, want), tbl), faults, at).ok
    ensures reader !in want ==>
              NoView(RunViews(ns, folders, Flat(DropOf(ns, team, want), tbl), faults, at).ns, Point(reader, team))
    ensures reader in want && Point(reader, team) in ns.mounts ==> ns.mounts[Point(reader, team)].View?
  {
    var f, p := DropOf(ns, team, want), Point(reader, team);
    var i :| 0 <= i < |tbl| && tbl[i] == reader;
    var before, at1, after, at2 := Segment(ns, folders, f, tbl, i, faults, at);
    DropsElsewhere(ns, team, want, tbl, i);
    RunFrame(ns, folders, Flat(f, tbl[..i]), faults, at, p);
    DropOne(ns, before, folders, team, want, reader, faults, at1);
    RunFrame(after, folders, Flat(f, tbl[i + 1..]), faults, at2, p);
  }

  lemma DropsElsewhere(ns: Ns, team: Name, want: set<Name>, tbl: seq<Name>, i: nat)
    requires Distinct(Self, tbl) && i < |tbl|
    ensures forall c :: c in Flat(DropOf(ns, team, want), tbl[..i]) ==> !Touches(c, Point(tbl[i], team))
    ensures forall c :: c in Flat(DropOf(ns, team, want), tbl[i + 1..]) ==> !Touches(c, Point(tbl[i], team))
  {
    var f, p := DropOf(ns, team, want), Point(tbl[i], team);
    assert Self(tbl[i]) == tbl[i];
    assert tbl[i] !in tbl[..i] && tbl[i] !in tbl[i + 1..];
    forall c | c in Flat(f, tbl[..i]) ensures !Touches(c, p) {
      if Touches(c, p) { DropsTouch(ns, team, want, tbl[..i], c, p); }
    }
    forall c | c in Flat(f, tbl[i + 1..]) ensures !Touches(c, p) {
      if Touches(c, p) { DropsTouch(ns, team, want, tbl[i + 1..], c, p); }
    }
  }

  // --- second part: leftover mountpoints go ---

  lemma {:induction false} SweepsKeep(ns: Ns, folders: map<Name, Dir>, team: Name, xs: seq<Name>,
                                      faults: set<nat>, at: nat)
    ensures var run := RunViews(ns, folders, Flat(SweepOf(team), xs), faults, at);
            run.ns.mounts == ns.mounts && run.ns.readers == ns.readers
    decreases |xs|
  {
    if xs != [] && at !in faults {
      var cs := Flat(SweepOf(team), xs);
      assert cs == [Sweep(Point(xs[0], team))] + Flat(SweepOf(team), xs[1..]);
      assert cs[1..] == Flat(SweepOf(team), xs[1..]);
      SweepsKeep(ExecView(ns, folders, cs[0]).value, folders, team, xs[1..], faults, at + 1);
    }
  }

  lemma SweepsClear(ns: Ns, folders: map<Name, Dir>, team: Name, xs: seq<Name>, reader: Name,
                    faults: set<nat>, at: nat)
    requires Distinct(Self, xs) && reader in xs
    requires RunViews(ns, folders, Flat(SweepOf(team), xs), faults, at).ok
    ensures !Leftover(RunViews(ns, folders, Flat(SweepOf(team), xs), faults, at).ns, Point(reader, team))
  {
    var f, p := SweepOf(team), Point(reader, team);
    var i :| 0 <= i < |xs| && xs[i] == reader;
    var before, at1, after, at2 := Segment(ns, folders, f, xs, i, faults, at);
    assert f(reader)[1..] == [];
    assert !Leftover(after, p);
    forall c | c in Flat(f, xs[i + 1..]) ensures !Touches(c, p) {
      FlatMember(f, xs[i + 1..], c);
    }
    RunFrame(after, folders, Flat(f, xs[i + 1..]), faults, at2, p);
  }

  // --- third part: declared views are made ---

  lemma EnsuresTouch(ns: Ns, folders: map<Name, Dir>, team: Name, teamGid: Id, rs: seq<Reader>, c: ViewCall)
    requires c in Flat(EnsureOf(ns, folders, team, teamGid), rs)
    ensures forall p :: Touches(c, p) ==> p.team == team && p.reader in ReaderNames(rs)
    ensures c.MkReader? ==> c.name in ReaderNames(rs)
    ensures c.ChgrpReader? ==> Reader(c.name, c.gid) in rs
  {
    FlatMember(EnsureOf(ns, folders, team, teamGid), rs, c);
  }

  lemma EnsureOne(ns0: Ns, ns: Ns, folders: map<Name, Dir>, team: Name, teamGid: Id, r: Reader,
                  faults: set<nat>, at: nat)
    requires SameAt(ns0, ns, Point(r.name, team))
    requires RunViews(ns, folders, EnsureOf(ns0, folders, team, teamGid)(r), faults, at).ok
    ensures var run := RunViews(ns, folders, EnsureOf(ns0, folders, team, teamGid)(r), faults, at);
            Presents(run.ns, folders, Point(r.name, team), r.gid)
            && r.name in run.ns.readers && run.ns.readers[r.name] == r.gid
  {
    var p := Point(r.name, team);
    var cs := EnsureOf(ns0, folders, team, teamGid)(r);
    var d := [MkReader(r.name), ChgrpReader(r.name, r.gid)];
    var tail := cs[2..];
    assert cs == d + tail;
    RunSplit(ns, folders, d, tail, faults, at);
    EnsureDir(ns, folders, r, faults, at);
    var n2 := RunViews(ns, folders, d, faults, at).ns;
    assert SameAt(ns0, n2, p) by { RunFrame(ns, folders, d, faults, at, p); }
    RunDirs(n2, folders, tail, faults, at + 2, r.name);
    if !Presents(ns0, folders, p, r.gid) {
      var b := [MkPoint(p), Bind(p, teamGid, r.gid)];
      if p in ns0.mounts {
        assert tail[0] == Umount(p) && tail[1..] == b;
        var n3 := ExecView(n2, folders, tail[0]).value;
        EnsureBind(n3, folders, p, teamGid, r.gid, faults, at + 3);
      } else {
        assert tail == b;
        EnsureBind(n2, folders, p, teamGid, r.gid, faults, at + 2);
      }
    }
  }

  lemma EnsureDir(ns: Ns, folders: map<Name, Dir>, r: Reader, faults: set<nat>, at: nat)
    ensures var run := RunViews(ns, folders, [MkReader(r.name), ChgrpReader(r.name, r.gid)], faults, at);
            run.ok ==> run.ns == ns.(readers := ns.readers[r.name := r.gid])
  {
    var cs := [MkReader(r.name), ChgrpReader(r.name, r.gid)];
    var n1 := ExecView(ns, folders, cs[0]).value;
    assert cs[1..] == [ChgrpReader(r.name, r.gid)] && cs[1..][1..] == [];
    assert n1.readers[r.name := r.gid] == ns.readers[r.name := r.gid];
    var last := RunViews(n1, folders, cs[1..], faults, at + 1);
    var n2 := ExecView(n1, folders, cs[1..][0]).value;
    assert RunViews(n2, folders, [], faults, at + 2) == ViewRun(n2, true);
    assert last.ok ==> last == RunViews(n2, folders, cs[1..][1..], faults, at + 1 + 1);
  }

  lemma EnsureBind(ns: Ns, folders: map<Name, Dir>, p: Point, from: Id, to: Id, faults: set<nat>, at: nat)
    requires RunViews(ns, folders, [MkPoint(p), Bind(p, from, to)], faults, at).ok
    ensures Presents(RunViews(ns, folders, [MkPoint(p), Bind(p, from, to)], faults, at).ns, folders, p, to)
  {
    var cs := [MkPoint(p), Bind(p, from, to)];
    var n1 := ExecView(ns, folders, cs[0]).value;
    assert cs[1..] == [Bind(p, from, to)] && cs[1..][1..] == [];
    var n2 := ExecView(n1, folders, cs[1]).value;
    assert RunViews(n2, folders, [], faults, at + 2).ns == n2;
  }

  function ReaderKey(r: Reader): Name { r.name }

  lemma EnsuresMake(ns0: Ns, ns: Ns, folders: map<Name, Dir>, team: Name, teamGid: Id, rs: seq<Reader>, r: Reader,
                    faults: set<nat>, at: nat)
    requires Distinct(ReaderKey, rs) && r in rs
    requires SameAt(ns0, ns, Point(r.name, team))
    requires RunViews(ns, folders, Flat(EnsureOf(ns0, folders, team, teamGid), rs), faults, at).ok
    ensures var run := RunViews(ns, folders, Flat(EnsureOf(ns0, folders, team, teamGid), rs), faults, at);
            Presents(run.ns, folders, Point(r.name, team), r.gid)
            && r.name in run.ns.readers && run.ns.readers[r.name] == r.gid
  {
    var f, p := EnsureOf(ns0, folders, team, teamGid), Point(r.name, team);
    var i :| 0 <= i < |rs| && rs[i] == r;
    assert ReaderKey(r) == r.name;
    var before, at1, after, at2 := Segment(ns, folders, f, rs, i, faults, at);
    forall c | c in Flat(f, rs[..i]) ensures !Touches(c, p) {
      OtherReader(ns0, folders, team, teamGid, rs[..i], c, r.name);
    }
    RunFrame(ns, folders, Flat(f, rs[..i]), faults, at, p);
    EnsureOne(ns0, before, folders, team, teamGid, r, faults, at1);
    forall c | c in Flat(f, rs[i + 1..])
      ensures !Touches(c, p) && c != MkReader(r.name) && !(c.ChgrpReader? && c.name == r.name)
    {
      OtherReader(ns0, folders, team, teamGid, rs[i + 1..], c, r.name);
    }
    RunFrame(after, folders, Flat(f, rs[i + 1..]), faults, at2, p);
    RunDirs(after, folders, Flat(f, rs[i + 1..]), faults, at2, r.name);
  }

  lemma OtherReader(ns: Ns, folders: map<Name, Dir>, team: Name, teamGid: Id, rs: seq<Reader>, c: ViewCall, r: Name)
    requires c in Flat(EnsureOf(ns, folders, team, teamGid), rs)
    requires forall x :: x in rs ==> ReaderKey(x) != r
    ensures forall p :: Touches(c, p) ==> p.reader != r
    ensures c != MkReader(r) && !(c.ChgrpReader? && c.name == r)
  {
    EnsuresTouch(ns, folders, team, teamGid, rs, c);
    forall x | x in rs ensures x.name != r { assert ReaderKey(x) == x.name; }
  }

  lemma DropsAbout(ns: Ns, team: Name, want: set<Name>, tbl: seq<Name>, c: ViewCall)
    requires c in Flat(DropOf(ns, team, want), tbl)
    ensures (forall p :: Touches(c, p) ==> p.team == team) && !c.MkReader? && !c.ChgrpReader?
  {
    FlatMember(DropOf(ns, team, want), tbl, c);
  }

  lemma SweepsAbout(team: Name, xs: seq<Name>, c: ViewCall)
    requires c in Flat(SweepOf(team), xs)
    ensures (forall p :: Touches(c, p) ==> p.team == team) && !c.MkReader? && !c.ChgrpReader?
  {
    FlatMember(SweepOf(team), xs, c);
  }

  /** Every call of a plan is about its team, and only declared readers' directories are changed. */
  lemma PlanTouches(ns: Ns, folders: map<Name, Dir>, team: Name, teamGid: Id, rs: seq<Reader>, c: ViewCall)
    requires c in Plan(ns, folders, team, teamGid, rs)
    ensures forall p :: Touches(c, p) ==> p.team == team
    ensures c.MkReader? ==> c.name in ReaderNames(rs)
    ensures c.ChgrpReader? ==> Reader(c.name, c.gid) in rs
  {
    var want := ReaderNames(rs);
    var tbl, xs := Table(ns, team), SortedNames(ns.readers.Keys - want - {team});
    if c in Flat(EnsureOf(ns, folders, team, teamGid), rs) {
      EnsuresTouch(ns, folders, team, teamGid, rs, c);
    } else if c in Flat(DropOf(ns, team, want), tbl) {
      DropsAbout(ns, team, want, tbl, c);
    } else {
      SweepsAbout(team, xs, c);
    }
  }

  // --- the theorem of EnsureReaderViews ---

  ghost function Ensured(ns: Ns, folders: map<Name, Dir>, team: Name, teamGid: Id, rs: seq<Reader>,
                         faults: set<nat>): ViewRun {
    RunViews(ns, folders, Plan(ns, folders, team, teamGid, rs), faults, 0)
  }

  /** What the team's point in one reader's directory should look like: the declared reader's view, in a
      directory that carries the declared gid, and otherwise no view and no leftover mountpoint. */
  ghost predicate SettledAt(ns: Ns, folders: map<Name, Dir>, team: Name, rs: seq<Reader>, reader: Name) {
    var p := Point(reader, team);
    if reader in ReaderNames(rs)
    then exists r :: r in rs && r.name == reader && Presents(ns, folders, p, r.gid)
                     && reader in ns.readers && ns.readers[reader] == r.gid
    else NoView(ns, p) && !Leftover(ns, p)
  }

  ghost predicate Settled(ns: Ns, folders: map<Name, Dir>, team: Name, rs: seq<Reader>) {
    forall reader: Name :: SettledAt(ns, folders, team, rs, reader)
  }

  /** What the three parts of a successful plan leave at one point of the team. */
  lemma EnsuredAt(ns: Ns, folders: map<Name, Dir>, team: Name, teamGid: Id, rs: seq<Reader>, faults: set<nat>,
                  reader: Name)
    requires Wf(ns) && Distinct(ReaderKey, rs)
    requires Ensured(ns, folders, team, teamGid, rs, faults).ok
    ensures SettledAt(Ensured(ns, folders, team, teamGid, rs, faults).ns, folders, team, rs, reader)
  {
    var want, p := ReaderNames(rs), Point(reader, team);
    var tbl := Table(ns, team);
    var xs := SortedNames(ns.readers.Keys - want - {team});
    AscendingDistinct(Self, tbl);
    AscendingDistinct(Self, xs);
    var A, B := Flat(DropOf(ns, team, want), tbl), Flat(SweepOf(team), xs);
    var C := Flat(EnsureOf(ns, folders, team, teamGid), rs);
    RunSplit(ns, folders, A + B, C, faults, 0);
    RunSplit(ns, folders, A, B, faults, 0);
    var nA := RunViews(ns, folders, A, faults, 0).ns;
    var nB := RunViews(nA, folders, B, faults, |A|).ns;
    var after := RunViews(nB, folders, C, faults, |A + B|).ns;
    SweepsKeep(nA, folders, team, xs, faults, |A|);
    if reader in want {
      var r :| r in rs && r.name == reader;
      PointKept(ns, folders, team, want, tbl, xs, reader, faults);
      EnsuresMake(ns, nB, folders, team, teamGid, rs, r, faults, |A + B|);
    } else {
      DroppedAt(ns, folders, team, want, reader, faults);
      forall c | c in C ensures !Touches(c, p) { EnsuresTouch(ns, folders, team, teamGid, rs, c); }
      RunFrame(nB, folders, C, faults, |A + B|, p);
      if Leftover(nB, p) {
        SweptReader(ns, nA, nB, folders, team, want, tbl, xs, reader, faults);
        SweepsClear(nA, folders, team, xs, reader, faults, |A|);
      }
    }
  }

  lemma PointKept(ns: Ns, folders: map<Name, Dir>, team: Name, want: set<Name>, tbl: seq<Name>, xs: seq<Name>,
                  reader: Name, faults: set<nat>)
    requires reader in want && xs == SortedNames(ns.readers.Keys - want - {team})
    ensures var A, B := Flat(DropOf(ns, team, want), tbl), Flat(SweepOf(team), xs);
            var nA := RunViews(ns, folders, A, faults, 0).ns;
            SameAt(ns, RunViews(nA, folders, B, faults, |A|).ns, Point(reader, team))
  {
    var p := Point(reader, team);
    var A, B := Flat(DropOf(ns, team, want), tbl), Flat(SweepOf(team), xs);
    forall c | c in A ensures !Touches(c, p) {
      if Touches(c, p) { DropsTouch(ns, team, want, tbl, c, p); }
    }
    RunFrame(ns, folders, A, faults, 0, p);
    forall c | c in B ensures !Touches(c, p) {
      FlatMember(SweepOf(team), xs, c);
      assert reader !in SetOf(xs);
    }
    RunFrame(RunViews(ns, folders, A, faults, 0).ns, folders, B, faults, |A|, p);
  }

  lemma DroppedAt(ns: Ns, folders: map<Name, Dir>, team: Name, want: set<Name>, reader: Name, faults: set<nat>)
    requires reader !in want
    requires RunViews(ns, folders, Flat(DropOf(ns, team, want), Table(ns, team)), faults, 0).ok
    ensures NoView(RunViews(ns, folders, Flat(DropOf(ns, team, want), Table(ns, team)), faults, 0).ns,
            Point(reader, team))
  {
    var p, tbl := Point(reader, team), Table(ns, team);
    if p in ns.mounts {
      assert reader in SetOf(tbl);
      AscendingDistinct(Self, tbl);
      DropsClear(ns, folders, team, want, tbl, reader, faults, 0);
    } else {
      var A := Flat(DropOf(ns, team, want), tbl);
      forall c | c in A ensures !Touches(c, p) {
        if Touches(c, p) { DropsTouch(ns, team, want, tbl, c, p); }
      }
      RunFrame(ns, folders, A, faults, 0, p);
    }
  }

  lemma SweptReader(ns: Ns, nA: Ns, nB: Ns, folders: map<Name, Dir>, team: Name, want: set<Name>, tbl: seq<Name>,
                    xs: seq<Name>, reader: Name, faults: set<nat>)
    requires Wf(ns) && reader !in want && xs == SortedNames(ns.readers.Keys - want - {team})
    requires nA == RunViews(ns, folders, Flat(DropOf(ns, team, want), tbl), faults, 0).ns
    requires nB == RunViews(nA, folders, Flat(SweepOf(team), xs), faults, |Flat(DropOf(ns, team, want), tbl)|).ns
    requires Leftover(nB, Point(reader, team))
    ensures reader in xs
  {
    var A := Flat(DropOf(ns, team, want), tbl);
    RunWf(ns, folders, A, faults, 0);
    RunWf(nA, folders, Flat(SweepOf(team), xs), faults, |A|);
    SweepsKeep(nA, folders, team, xs, faults, |A|);
    DropsKeepDirs(ns, folders, team, want, tbl, reader, faults);
    assert reader in SetOf(xs);
  }

  lemma DropsKeepDirs(ns: Ns, folders: map<Name, Dir>, team: Name, want: set<Name>, tbl: seq<Name>, reader: Name,
                      faults: set<nat>)
    ensures SameDir(ns, RunViews(ns, folders, Flat(DropOf(ns, team, want), tbl), faults, 0).ns, reader)
  {
    var A := Flat(DropOf(ns, team, want), tbl);
    forall c | c in A ensures c != MkReader(reader) && !(c.ChgrpReader? && c.name == reader) {
      FlatMember(DropOf(ns, team, want), tbl, c);
    }
    RunDirs(ns, folders, A, faults, 0, reader);
  }

  lemma EnsuredSettled(ns: Ns, folders: map<Name, Dir>, team: Name, teamGid: Id, rs: seq<Reader>, faults: set<nat>)
    requires Wf(ns) && Distinct(ReaderKey, rs)
    requires Ensured(ns, folders, team, teamGid, rs, faults).ok
    ensures Settled(Ensured(ns, folders, team, teamGid, rs, faults).ns, folders, team, rs)
  {
    forall reader: Name
      ensures SettledAt(Ensured(ns, folders, team, teamGid, rs, faults).ns, folders, team, rs, reader)
    {
      EnsuredAt(ns, folders, team, teamGid, rs, faults, reader);
    }
  }

  /** A settled team is observed to have exactly its declared readers. */
  lemma SettledObserved(ns: Ns, folders: map<Name, Dir>, team: Name, rs: seq<Reader>)
    requires Settled(ns, folders, team, rs)
    ensures Observed(ns, folders, team) == SortedNames(ReaderNames(rs))
  {
    var want := ReaderNames(rs);
    forall r: Name ensures r in want ==> Working(ns, folders, Point(r, team))
      ensures r !in want ==> NoView(ns, Point(r, team)) && !Leftover(ns, Point(r, team))
    {
      assert SettledAt(ns, folders, team, rs, r);
    }
    ObservedIs(ns, folders, team, want);
  }

  /** After EnsureReaderViews succeeds, exactly the declared readers are observed, with no leftover,
      and every declared reader's directory carries its declared gid. */
  lemma EnsuredObserved(ns: Ns, folders: map<Name, Dir>, team: Name, teamGid: Id, rs: seq<Reader>, faults: set<nat>)
    requires Wf(ns) && Distinct(ReaderKey, rs)
    requires Ensured(ns, folders, team, teamGid, rs, faults).ok
    ensures Observed(Ensured(ns, folders, team, teamGid, rs, faults).ns, folders, team) == SortedNames(ReaderNames(rs))
    ensures forall r :: r in rs ==>
              var dirs := Ensured(ns, folders, team, teamGid, rs, faults).ns.readers;
              r.name in dirs && dirs[r.name] == r.gid
  {
    var after := Ensured(ns, folders, team, teamGid, rs, faults).ns;
    EnsuredSettled(ns, folders, team, teamGid, rs, faults);
    SettledObserved(after, folders, team, rs);
    forall r | r in rs ensures r.name in after.readers && after.readers[r.name] == r.gid {
      assert SettledAt(after, folders, team, rs, r.name);
      var q :| q in rs && q.name == r.name && r.name in after.readers && after.readers[r.name] == q.gid;
      SameReader(rs, q, r);
    }
  }

  lemma SameReader(rs: seq<Reader>, q: Reader, r: Reader)
    requires Distinct(ReaderKey, rs) && q in rs && r in rs && q.name == r.name
    ensures q == r
  {
    var i :| 0 <= i < |rs| && rs[i] == q;
    var j :| 0 <= j < |rs| && rs[j] == r;
    assert ReaderKey(rs[i]) == ReaderKey(rs[j]);
  }

  lemma ObservedIs(ns: Ns, folders: map<Name, Dir>, team: Name, want: set<Name>)
    requires forall r :: r in want ==> Working(ns, folders, Point(r, team))
    requires forall r :: r !in want ==> NoView(ns, Point(r, team)) && !Leftover(ns, Point(r, team))
    ensures ObservedSet(ns, folders, team) == want
  {
    forall p | p in ns.spots && p.team == team ensures !Leftover(ns, p) {
      assert p == Point(p.reader, team);
      assert Working(ns, folders, p) || !Leftover(ns, p);
    }
    forall p | p in ns.mounts && p.team == team ensures Working(ns, folders, p) <==> p.reader in want {
      assert p == Point(p.reader, team);
      assert Working(ns, folders, p) || NoView(ns, p);
    }
    forall r ensures r in ObservedSet(ns, folders, team) <==> r in want {
      if r in want {
        assert Point(r, team) in ns.mounts;
      }
    }
  }

  // --- what EnsureReaderViews leaves alone ---

  /** Successful or not, a run for one team changes no other team's point. */
  lemma OtherTeams(ns: Ns, folders: map<Name, Dir>, team: Name, teamGid: Id, rs: seq<Reader>, faults: set<nat>,
                   p: Point)
    requires p.team != team
    ensures SameAt(ns, Ensured(ns, folders, team, teamGid, rs, faults).ns, p)
  {
    var cs := Plan(ns, folders, team, teamGid, rs);
    forall c | c in cs ensures !Touches(c, p) { PlanTouches(ns, folders, team, teamGid, rs, c); }
    RunFrame(ns, folders, cs, faults, 0, p);
  }

  /** Whatever is called, a mount that is not a view and a path that is not an empty directory stay. */
  lemma {:induction false} RunKeepsForeign(ns: Ns, folders: map<Name, Dir>, cs: seq<ViewCall>, faults: set<nat>,
                                           at: nat,
                                           p: Point)
    ensures var after := RunViews(ns, folders, cs, faults, at).ns;
            && (p in ns.mounts && ns.mounts[p].Foreign? ==> p in after.mounts && after.mounts[p].Foreign?)
            && (p in ns.spots && ns.spots[p].Occupied? ==> p in after.spots && after.spots[p].Occupied?)
    decreases |cs|
  {
    if cs != [] {
      var next := if at in faults then Some(ns) else ExecView(ns, folders, cs[0]);
      if next.Some? {
        RunKeepsForeign(next.value, folders, cs[1..], faults, at + 1, p);
      }
    }
  }

  // --- paths that are not usersync's own mountpoints ---

  /** A view nobody declares any more, mounted on an empty directory that does not look like one usersync
      made: what was beneath it cannot be seen while it is up, and goes with it. */
  ghost predicate BeneathDropped(ns: Ns, team: Name, rs: seq<Reader>, p: Point) {
    && p.team == team && p.reader !in ReaderNames(rs)
    && p in ns.mounts && ns.mounts[p].View? && p in ns.spots && ns.spots[p] == Empty
  }

  /** Only a blind removal can take a path that is not usersync's own mountpoint. */
  lemma {:induction false} RunSpot(ns: Ns, folders: map<Name, Dir>, cs: seq<ViewCall>, faults: set<nat>, at: nat,
                                   p: Point)
    requires p in ns.spots && ns.spots[p] != Ours
    requires TryRemove(p) in cs ==> ns.spots[p] == Occupied
    ensures var after := RunViews(ns, folders, cs, faults, at).ns; p in after.spots && after.spots[p] == ns.spots[p]
    decreases |cs|
  {
    if cs != [] {
      assert cs == [cs[0]] + cs[1..];
      var next := if at in faults then Some(ns) else ExecView(ns, folders, cs[0]);
      if next.Some? { RunSpot(next.value, folders, cs[1..], faults, at + 1, p); }
    }
  }

  lemma {:induction false} RunAbsent(ns: Ns, folders: map<Name, Dir>, cs: seq<ViewCall>, faults: set<nat>, at: nat,
                                     p: Point)
    requires p !in ns.spots && MkPoint(p) !in cs
    ensures p !in RunViews(ns, folders, cs, faults, at).ns.spots
    decreases |cs|
  {
    if cs != [] {
      assert cs == [cs[0]] + cs[1..];
      var next := if at in faults then Some(ns) else ExecView(ns, folders, cs[0]);
      if next.Some? { RunAbsent(next.value, folders, cs[1..], faults, at + 1, p); }
    }
  }

  /** A plan removes blindly only where an undeclared view comes down, and makes only declared points. */
  lemma PlanSpots(ns: Ns, folders: map<Name, Dir>, team: Name, teamGid: Id, rs: seq<Reader>, p: Point)
    ensures TryRemove(p) in Plan(ns, folders, team, teamGid, rs) ==>
              p.team == team && p.reader !in ReaderNames(rs) && p in ns.mounts && ns.mounts[p].View?
    ensures MkPoint(p) in Plan(ns, folders, team, teamGid, rs) ==> p.team == team && p.reader in ReaderNames(rs)
  {
    var cs := Plan(ns, folders, team, teamGid, rs);
    if TryRemove(p) in cs { RemovesPlanned(ns, folders, team, teamGid, rs, TryRemove(p)); }
    if MkPoint(p) in cs { RemovesPlanned(ns, folders, team, teamGid, rs, MkPoint(p)); }
  }

  lemma RemovesPlanned(ns: Ns, folders: map<Name, Dir>, team: Name, teamGid: Id, rs: seq<Reader>, c: ViewCall)
    requires (c.TryRemove? || c.MkPoint?) && c in Plan(ns, folders, team, teamGid, rs)
    ensures c.TryRemove? ==>
              c.p.team == team && c.p.reader !in ReaderNames(rs) && c.p in ns.mounts && ns.mounts[c.p].View?
    ensures c.MkPoint? ==> c.p.team == team && c.p.reader in ReaderNames(rs)
  {
    var want := ReaderNames(rs);
    FlatMember(DropOf(ns, team, want), Table(ns, team), c);
    FlatMember(SweepOf(team), SortedNames(ns.readers.Keys - want - {team}), c);
    FlatMember(EnsureOf(ns, folders, team, teamGid), rs, c);
  }

  /** Successful or not, whatever fails, a run for a team leaves every path that is not usersync's own
      mountpoint as it is, but for empty directories beneath views it takes down; and makes paths only
      for declared readers. */
  lemma SpotsKept(ns: Ns, folders: map<Name, Dir>, team: Name, teamGid: Id, rs: seq<Reader>, faults: set<nat>, p: Point)
    ensures var after := Ensured(ns, folders, team, teamGid, rs, faults).ns;
            && (p in ns.spots && ns.spots[p] != Ours && !BeneathDropped(ns, team, rs, p) ==>
                  p in after.spots && after.spots[p] == ns.spots[p])
            && (p in after.spots && p !in ns.spots ==> p.team == team && p.reader in ReaderNames(rs))
  {
    var cs := Plan(ns, folders, team, teamGid, rs);
    PlanSpots(ns, folders, team, teamGid, rs, p);
    if p in ns.spots && ns.spots[p] != Ours && !BeneathDropped(ns, team, rs, p) {
      RunSpot(ns, folders, cs, faults, 0, p);
    }
    if p !in ns.spots && MkPoint(p) !in cs { RunAbsent(ns, folders, cs, faults, 0, p); }
  }

  /** The empty directory goes with the view above it. */
  lemma BeneathDown(ns: Ns, folders: map<Name, Dir>, team: Name, rs: seq<Reader>, p: Point)
    requires BeneathDropped(ns, team, rs, p)
    requires RunViews(ns, folders, Flat(DropOf(ns, team, ReaderNames(rs)), Table(ns, team)), {}, 0).ok
    ensures p !in RunViews(ns, folders, Flat(DropOf(ns, team, ReaderNames(rs)), Table(ns, team)), {}, 0).ns.spots
  {
    var want, tbl := ReaderNames(rs), Table(ns, team);
    var f := DropOf(ns, team, want);
    AscendingDistinct(Self, tbl);
    assert p.reader in SetOf(tbl);
    var i :| 0 <= i < |tbl| && tbl[i] == p.reader;
    var before, at1, after, at2 := Segment(ns, folders, f, tbl, i, {}, 0);
    DropsElsewhere(ns, team, want, tbl, i);
    assert p == Point(tbl[i], team);
    RunFrame(ns, folders, Flat(f, tbl[..i]), {}, 0, p);
    DropEmpty(before, folders, p, at1);
    RunFrame(after, folders, Flat(f, tbl[i + 1..]), {}, at2, p);
  }

  lemma BeneathRemoved(ns: Ns, folders: map<Name, Dir>, team: Name, teamGid: Id, rs: seq<Reader>, p: Point)
    requires Ensured(ns, folders, team, teamGid, rs, {}).ok && BeneathDropped(ns, team, rs, p)
    ensures p !in Ensured(ns, folders, team, teamGid, rs, {}).ns.spots
  {
    var A := Flat(DropOf(ns, team, ReaderNames(rs)), Table(ns, team));
    var B := Flat(SweepOf(team), SortedNames(ns.readers.Keys - ReaderNames(rs) - {team}));
    var C := Flat(EnsureOf(ns, folders, team, teamGid), rs);
    assert A + B + C == A + (B + C);
    RunSplit(ns, folders, A, B + C, {}, 0);
    BeneathDown(ns, folders, team, rs, p);
    PlanSpots(ns, folders, team, teamGid, rs, p);
    RunAbsent(RunViews(ns, folders, A, {}, 0).ns, folders, B + C, {}, |A|, p);
  }

  /** A run that meets no fault and succeeds removes exactly those. */
  lemma RemovedExactly(ns: Ns, folders: map<Name, Dir>, team: Name, teamGid: Id, rs: seq<Reader>, p: Point)
    requires Ensured(ns, folders, team, teamGid, rs, {}).ok && p in ns.spots && ns.spots[p] != Ours
    ensures p !in Ensured(ns, folders, team, teamGid, rs, {}).ns.spots <==> BeneathDropped(ns, team, rs, p)
  {
    SpotsKept(ns, folders, team, teamGid, rs, {}, p);
    if BeneathDropped(ns, team, rs, p) { BeneathRemoved(ns, folders, team, teamGid, rs, p); }
  }

  lemma DropEmpty(ns: Ns, folders: map<Name, Dir>, p: Point, at: nat)
    requires p in ns.mounts && ns.mounts[p].View? && p in ns.spots && ns.spots[p] == Empty
    ensures p !in RunViews(ns, folders, [Umount(p), TryRemove(p)], {}, at).ns.spots
  {
    var cs := [Umount(p), TryRemove(p)];
    var n1 := ExecView(ns, folders, cs[0]).value;
    assert cs[1..] == [TryRemove(p)] && cs[1..][1..] == [];
    var n2 := ExecView(n1, folders, cs[1]).value;
    assert RunViews(n1, folders, cs[1..], {}, at + 1) == RunViews(n2, folders, cs[1..][1..], {}, at + 2);
  }

  /** A directory that already carries the gid every call would give it keeps it. */
  lemma {:induction false} RunDirKeeps(ns: Ns, folders: map<Name, Dir>, cs: seq<ViewCall>, faults: set<nat>, at: nat,
                                       r: Name, gid: Id)
    requires r in ns.readers && ns.readers[r] == gid
    requires forall c :: c in cs && c.ChgrpReader? && c.name == r ==> c.gid == gid
    ensures var after := RunViews(ns, folders, cs, faults, at).ns; r in after.readers && after.readers[r] == gid
    decreases |cs|
  {
    if cs != [] {
      assert cs[0] in cs;
      var next := if at in faults then Some(ns) else ExecView(ns, folders, cs[0]);
      if next.Some? {
        RunDirKeeps(next.value, folders, cs[1..], faults, at + 1, r, gid);
      }
    }
  }

  ghost predicate Agree(a: seq<Reader>, b: seq<Reader>) {
    forall x, y :: x in a && y in b && x.name == y.name ==> x.gid == y.gid
  }

  /** A directory's gid after a run for some team: declared, when the team's readers include it. */
  lemma DirAfter(ns: Ns, folders: map<Name, Dir>, team: Name, teamGid: Id, rs: seq<Reader>, faults: set<nat>, r: Name)
    ensures r !in ReaderNames(rs) ==> SameDir(ns, Ensured(ns, folders, team, teamGid, rs, faults).ns, r)
  {
    if r !in ReaderNames(rs) {
      var cs := Plan(ns, folders, team, teamGid, rs);
      forall c | c in cs ensures c != MkReader(r) && !(c.ChgrpReader? && c.name == r) {
        PlanTouches(ns, folders, team, teamGid, rs, c);
      }
      RunDirs(ns, folders, cs, faults, 0, r);
    }
  }

  /** Runs for other teams leave a settled team settled, so going over all teams settles them all at once. */
  lemma StaysSettled(ns: Ns, folders: map<Name, Dir>, team: Name, rs: seq<Reader>,
                     other: Name, otherGid: Id, os: seq<Reader>, faults: set<nat>)
    requires Settled(ns, folders, team, rs) && other != team && Agree(rs, os)
    ensures Settled(Ensured(ns, folders, other, otherGid, os, faults).ns, folders, team, rs)
  {
    var after := Ensured(ns, folders, other, otherGid, os, faults).ns;
    var cs := Plan(ns, folders, other, otherGid, os);
    forall reader: Name ensures SettledAt(after, folders, team, rs, reader) {
      assert SettledAt(ns, folders, team, rs, reader);
      OtherTeams(ns, folders, other, otherGid, os, faults, Point(reader, team));
      if reader in ReaderNames(rs) {
        var r :| r in rs && r.name == reader && Presents(ns, folders, Point(reader, team), r.gid)
                 && reader in ns.readers && ns.readers[reader] == r.gid;
        forall c | c in cs && c.ChgrpReader? && c.name == reader ensures c.gid == r.gid {
          PlanTouches(ns, folders, other, otherGid, os, c);
        }
        RunDirKeeps(ns, folders, cs, faults, 0, reader, r.gid);
        assert Presents(after, folders, Point(reader, team), r.gid);
      }
    }
  }

  /** What is observed of a team depends on its points, the directories of its views and its folder's gid. */
  lemma ObservedDepends(a: Ns, b: Ns, fa: map<Name, Dir>, fb: map<Name, Dir>, team: Name)
    requires forall r: Name :: SameAt(a, b, Point(r, team)) && (Point(r, team) in a.mounts ==> SameDir(a, b, r))
    requires team in fa && team in fb && fa[team].gid == fb[team].gid
    ensures Observed(a, fa, team) == Observed(b, fb, team)
  {
    forall p: Point | p.team == team
      ensures SameAt(a, b, p) && (p in a.mounts ==> SameDir(a, b, p.reader))
    {
      assert p == Point(p.reader, team);
    }
    forall x ensures x in ObservedSet(a, fa, team) <==> x in ObservedSet(b, fb, team) {
    }
    assert ObservedSet(a, fa, team) == ObservedSet(b, fb, team);
  }

  // --- when EnsureReaderViews succeeds ---

  /** Binding the team's folder at p shows the reader's gid. */
  predicate Binds(folders: map<Name, Dir>, team: Name, from: Id, to: Id) {
    team in folders && Shown(from, to, folders[team].gid) == to
  }

  /** A declared view is up, or nothing stands in the way of mounting it, on the folders as they are. */
  ghost predicate PointReady(ns: Ns, folders: map<Name, Dir>, team: Name, teamGid: Id, r: Reader) {
    var p := Point(r.name, team);
    && (p in ns.mounts ==> ns.mounts[p].View?)
    && (Presents(ns, folders, p, r.gid)
        || (teamGid != r.gid && teamGid < MAX_ID && r.gid < MAX_ID && (p in ns.spots ==> ns.spots[p] == Ours)
            && Binds(folders, team, teamGid, r.gid)))
  }

  lemma PointReadySame(a: Ns, b: Ns, fa: map<Name, Dir>, fb: map<Name, Dir>, team: Name, teamGid: Id, r: Reader)
    requires SameAt(a, b, Point(r.name, team))
    requires (team in fa <==> team in fb) && (team in fa ==> fa[team].gid == fb[team].gid)
    ensures PointReady(a, fa, team, teamGid, r) <==> PointReady(b, fb, team, teamGid, r)
  {
  }

  /** The same where the folder carries the team's gid. */
  ghost predicate PointClear(ns: Ns, team: Name, teamGid: Id, r: Reader) {
    var p := Point(r.name, team);
    && (p in ns.mounts ==> ns.mounts[p].View?)
    && (Presents(ns, map[team := Dir(0, 0, teamGid)], p, r.gid)
        || (teamGid != r.gid && teamGid < MAX_ID && r.gid < MAX_ID && (p in ns.spots ==> ns.spots[p] == Ours)))
  }

  lemma ReadyIsClear(ns: Ns, folders: map<Name, Dir>, team: Name, teamGid: Id, r: Reader)
    requires team in folders && folders[team].gid == teamGid
    ensures PointReady(ns, folders, team, teamGid, r) <==> PointClear(ns, team, teamGid, r)
  {
  }

  /** Without faults the calls for one reader succeed exactly when its point is ready. */
  lemma EnsureOneOk(ns0: Ns, ns: Ns, folders: map<Name, Dir>, team: Name, teamGid: Id, r: Reader, at: nat)
    requires Wf(ns) && SameAt(ns0, ns, Point(r.name, team))
    requires Point(r.name, team) in ns.mounts ==> ns.mounts[Point(r.name, team)].View?
    ensures RunViews(ns, folders, EnsureOf(ns0, folders, team, teamGid)(r), {}, at).ok
            <==> PointReady(ns, folders, team, teamGid, r)
  {
    var p := Point(r.name, team);
    var cs := EnsureOf(ns0, folders, team, teamGid)(r);
    var d := [MkReader(r.name), ChgrpReader(r.name, r.gid)];
    var tail := cs[2..];
    assert cs == d + tail;
    RunSplit(ns, folders, d, tail, {}, at);
    var n2 := ns.(readers := ns.readers[r.name := r.gid]);
    DirOk(ns, folders, r, at);
    assert Presents(ns0, folders, p, r.gid) <==> Presents(ns, folders, p, r.gid);
    if !Presents(ns0, folders, p, r.gid) {
      if teamGid == r.gid || teamGid >= MAX_ID || r.gid >= MAX_ID {
        assert tail == [Refuse];
      } else {
        MountOk(n2, folders, p, teamGid, r.gid, at + 2);
        assert tail == (if p in ns0.mounts then [Umount(p)] else []) + [MkPoint(p), Bind(p, teamGid, r.gid)];
      }
    }
  }

  lemma DirOk(ns: Ns, folders: map<Name, Dir>, r: Reader, at: nat)
    ensures RunViews(ns, folders, [MkReader(r.name), ChgrpReader(r.name, r.gid)], {}, at)
            == ViewRun(ns.(readers := ns.readers[r.name := r.gid]), true)
  {
    var cs := [MkReader(r.name), ChgrpReader(r.name, r.gid)];
    var n1 := ExecView(ns, folders, cs[0]).value;
    assert cs[1..] == [ChgrpReader(r.name, r.gid)] && cs[1..][1..] == [];
    assert n1.readers[r.name := r.gid] == ns.readers[r.name := r.gid];
    var n2 := ExecView(n1, folders, cs[1]).value;
    assert RunViews(n2, folders, [], {}, at + 2) == ViewRun(n2, true);
    assert RunViews(n1, folders, cs[1..], {}, at + 1) == RunViews(n2, folders, cs[1..][1..], {}, at + 2);
  }

  lemma BindOk(ns: Ns, folders: map<Name, Dir>, p: Point, from: Id, to: Id, at: nat)
    requires p !in ns.mounts && p.reader in ns.readers
    ensures RunViews(ns, folders, [MkPoint(p), Bind(p, from, to)], {}, at).ok
            <==> (p in ns.spots ==> ns.spots[p] == Ours) && Binds(folders, p.team, from, to)
  {
    var cs := [MkPoint(p), Bind(p, from, to)];
    assert cs[1..] == [Bind(p, from, to)] && cs[1..][1..] == [];
    if p in ns.spots ==> ns.spots[p] == Ours {
      var n1 := ExecView(ns, folders, cs[0]).value;
      assert RunViews(ns, folders, cs, {}, at) == RunViews(n1, folders, cs[1..], {}, at + 1);
      if Binds(folders, p.team, from, to) {
        var n2 := ExecView(n1, folders, cs[1]).value;
        assert RunViews(n2, folders, cs[1..][1..], {}, at + 2).ok;
      }
    }
  }

  lemma MountOk(ns: Ns, folders: map<Name, Dir>, p: Point, from: Id, to: Id, at: nat)
    requires (p in ns.mounts ==> ns.mounts[p].View?) && p.reader in ns.readers
    ensures RunViews(ns, folders, (if p in ns.mounts then [Umount(p)] else []) + [MkPoint(p), Bind(p, from, to)],
            {}, at).ok
            <==> (p in ns.spots ==> ns.spots[p] == Ours) && Binds(folders, p.team, from, to)
  {
    var b := [MkPoint(p), Bind(p, from, to)];
    if p in ns.mounts {
      var cs := [Umount(p)] + b;
      assert cs[1..] == b;
      BindOk(ns.(mounts := ns.mounts - {p}), folders, p, from, to, at + 1);
    } else {
      assert [] + b == b;
      BindOk(ns, folders, p, from, to, at);
    }
  }

  lemma OneDropOk(ns0: Ns, ns: Ns, folders: map<Name, Dir>, team: Name, want: set<Name>, reader: Name, at: nat)
    requires SameAt(ns0, ns, Point(reader, team)) && Point(reader, team) in ns0.mounts
    ensures RunViews(ns, folders, DropOf(ns0, team, want)(reader), {}, at).ok
            <==> (reader in want ==> ns0.mounts[Point(reader, team)].View?)
  {
    var p := Point(reader, team);
    var cs := DropOf(ns0, team, want)(reader);
    if cs == [Umount(p), TryRemove(p)] {
      assert cs[1..] == [TryRemove(p)] && cs[1..][1..] == [];
      var n1 := ExecView(ns, folders, cs[0]).value;
      var n2 := ExecView(n1, folders, cs[1]).value;
      assert RunViews(n1, folders, cs[1..], {}, at + 1) == RunViews(n2, folders, [], {}, at + 2);
    }
  }

  lemma {:induction false} DropsOk(ns0: Ns, ns: Ns, folders: map<Name, Dir>, team: Name, want: set<Name>,
                                   tbl: seq<Name>, at: nat)
    requires Distinct(Self, tbl)
    requires forall x :: x in tbl ==> Point(x, team) in ns0.mounts && SameAt(ns0, ns, Point(x, team))
    ensures RunViews(ns, folders, Flat(DropOf(ns0, team, want), tbl), {}, at).ok
            <==> forall x :: x in tbl && x in want ==> ns0.mounts[Point(x, team)].View?
    decreases |tbl|
  {
    if tbl != [] {
      var f, rest := DropOf(ns0, team, want), tbl[1..];
      RunSplit(ns, folders, f(tbl[0]), Flat(f, rest), {}, at);
      OneDropOk(ns0, ns, folders, team, want, tbl[0], at);
      var next := RunViews(ns, folders, f(tbl[0]), {}, at).ns;
      forall x | x in rest ensures SameAt(ns0, next, Point(x, team)) {
        assert Self(x) != Self(tbl[0]);
        RunFrame(ns, folders, f(tbl[0]), {}, at, Point(x, team));
      }
      assert tbl == [tbl[0]] + rest;
      DropsOk(ns0, next, folders, team, want, rest, at + |f(tbl[0])|);
    }
  }

  lemma {:induction false} SweepsOk(ns: Ns, folders: map<Name, Dir>, team: Name, xs: seq<Name>, at: nat)
    ensures RunViews(ns, folders, Flat(SweepOf(team), xs), {}, at).ok
    decreases |xs|
  {
    if xs != [] {
      var cs := Flat(SweepOf(team), xs);
      assert cs == [Sweep(Point(xs[0], team))] + Flat(SweepOf(team), xs[1..]);
      assert cs[1..] == Flat(SweepOf(team), xs[1..]);
      SweepsOk(ExecView(ns, folders, cs[0]).value, folders, team, xs[1..], at + 1);
    }
  }

  ghost predicate AllViews(ns: Ns, team: Name, rs: seq<Reader>) {
    forall r :: r in rs && Point(r.name, team) in ns.mounts ==> ns.mounts[Point(r.name, team)].View?
  }

  lemma OthersPoint(ns0: Ns, ns: Ns, folders: map<Name, Dir>, team: Name, teamGid: Id, r: Reader, q: Reader, at: nat)
    requires ReaderKey(q) != ReaderKey(r) && SameAt(ns0, ns, Point(q.name, team))
    ensures SameAt(ns0, RunViews(ns, folders, EnsureOf(ns0, folders, team, teamGid)(r), {}, at).ns, Point(q.name, team))
  {
    RunFrame(ns, folders, EnsureOf(ns0, folders, team, teamGid)(r), {}, at, Point(q.name, team));
  }

  lemma {:induction false} EnsuresOk(ns0: Ns, ns: Ns, folders: map<Name, Dir>, team: Name, teamGid: Id, rs: seq<Reader>,
                                     at: nat)
    requires Wf(ns) && Distinct(ReaderKey, rs) && AllViews(ns0, team, rs)
    requires forall r :: r in rs ==> SameAt(ns0, ns, Point(r.name, team))
    ensures RunViews(ns, folders, Flat(EnsureOf(ns0, folders, team, teamGid), rs), {}, at).ok
            <==> forall r :: r in rs ==> PointReady(ns0, folders, team, teamGid, r)
    decreases |rs|
  {
    if rs != [] {
      var f, rest := EnsureOf(ns0, folders, team, teamGid), rs[1..];
      RunSplit(ns, folders, f(rs[0]), Flat(f, rest), {}, at);
      assert rs[0] in rs && rs == [rs[0]] + rest;
      EnsureOneOk(ns0, ns, folders, team, teamGid, rs[0], at);
      PointReadySame(ns0, ns, folders, folders, team, teamGid, rs[0]);
      var next := RunViews(ns, folders, f(rs[0]), {}, at).ns;
      RunWf(ns, folders, f(rs[0]), {}, at);
      forall r | r in rest ensures SameAt(ns0, next, Point(r.name, team)) {
        OthersPoint(ns0, ns, folders, team, teamGid, rs[0], r, at);
      }
      EnsuresOk(ns0, next, folders, team, teamGid, rest, at + |f(rs[0])|);
    }
  }

  lemma TableViews(ns: Ns, team: Name, rs: seq<Reader>)
    ensures forall x :: x in Table(ns, team) <==> Point(x, team) in ns.mounts
    ensures (forall x :: x in Table(ns, team) && x in ReaderNames(rs) ==> ns.mounts[Point(x, team)].View?)
            <==> AllViews(ns, team, rs)
  {
    forall x ensures x in Table(ns, team) <==> Point(x, team) in ns.mounts {
      assert x in Table(ns, team) <==> x in SetOf(Table(ns, team));
    }
    assert forall r :: r in rs ==> r.name in ReaderNames(rs);
  }

  /** What comes down for the team: only a mount that is not a view, at a declared reader's point, is in
      the way. */
  lemma DownOk(ns: Ns, folders: map<Name, Dir>, team: Name, rs: seq<Reader>)
    requires Wf(ns)
    ensures RunViews(ns, folders, Downs(ns, team, rs), {}, 0).ok <==> AllViews(ns, team, rs)
    ensures Wf(RunViews(ns, folders, Downs(ns, team, rs), {}, 0).ns)
  {
    var want, tbl := ReaderNames(rs), Table(ns, team);
    var xs := SortedNames(ns.readers.Keys - want - {team});
    AscendingDistinct(Self, tbl);
    TableViews(ns, team, rs);
    DropsOk(ns, ns, folders, team, want, tbl, 0);
    var A, B := Flat(DropOf(ns, team, want), tbl), Flat(SweepOf(team), xs);
    RunSplit(ns, folders, A, B, {}, 0);
    SweepsOk(RunViews(ns, folders, A, {}, 0).ns, folders, team, xs, |A|);
    RunWf(ns, folders, A + B, {}, 0);
  }

  lemma DownKeeps(ns: Ns, folders: map<Name, Dir>, team: Name, rs: seq<Reader>, q: Reader)
    requires Wf(ns) && q in rs && AllViews(ns, team, rs)
    ensures SameAt(ns, RunViews(ns, folders, Downs(ns, team, rs), {}, 0).ns, Point(q.name, team))
  {
    var want, tbl := ReaderNames(rs), Table(ns, team);
    var xs := SortedNames(ns.readers.Keys - want - {team});
    var A, B := Flat(DropOf(ns, team, want), tbl), Flat(SweepOf(team), xs);
    DownOk(ns, folders, team, rs);
    RunSplit(ns, folders, A, B, {}, 0);
    PointKept(ns, folders, team, want, tbl, xs, q.name, {});
  }

  ghost function Downs(ns: Ns, team: Name, rs: seq<Reader>): seq<ViewCall> {
    Flat(DropOf(ns, team, ReaderNames(rs)), Table(ns, team))
    + Flat(SweepOf(team), SortedNames(ns.readers.Keys - ReaderNames(rs) - {team}))
  }

  /** Without faults EnsureReaderViews succeeds exactly when every declared reader's point is ready. */
  lemma EnsuredOk(ns: Ns, folders: map<Name, Dir>, team: Name, teamGid: Id, rs: seq<Reader>)
    requires Wf(ns) && Distinct(ReaderKey, rs)
    ensures Ensured(ns, folders, team, teamGid, rs, {}).ok
            <==> forall r :: r in rs ==> PointReady(ns, folders, team, teamGid, r)
  {
    var down, C := Downs(ns, team, rs), Flat(EnsureOf(ns, folders, team, teamGid), rs);
    RunSplit(ns, folders, down, C, {}, 0);
    DownOk(ns, folders, team, rs);
    if AllViews(ns, team, rs) {
      forall q | q in rs ensures SameAt(ns, RunViews(ns, folders, down, {}, 0).ns, Point(q.name, team)) {
        DownKeeps(ns, folders, team, rs, q);
      }
      EnsuresOk(ns, RunViews(ns, folders, down, {}, 0).ns, folders, team, teamGid, rs, |down|);
    }
  }

  // --- what EnsureReaderViews looks at ---

  lemma {:induction false} RunDepends(ns: Ns, fa: map<Name, Dir>, fb: map<Name, Dir>, team: Name, cs: seq<ViewCall>,
                                      faults: set<nat>, at: nat)
    requires team in fa && team in fb && fa[team].gid == fb[team].gid
    requires forall c :: c in cs && c.Bind? ==> c.p.team == team
    ensures RunViews(ns, fa, cs, faults, at) == RunViews(ns, fb, cs, faults, at)
    decreases |cs|
  {
    if cs != [] {
      assert cs[0] in cs && forall c :: c in cs[1..] ==> c in cs;
      if at in faults {
        if Ignored(cs[0]) { RunDepends(ns, fa, fb, team, cs[1..], faults, at + 1); }
      } else {
        assert ExecView(ns, fa, cs[0]) == ExecView(ns, fb, cs[0]);
        if ExecView(ns, fa, cs[0]).Some? {
          RunDepends(ExecView(ns, fa, cs[0]).value, fa, fb, team, cs[1..], faults, at + 1);
        }
      }
    }
  }

  /** Of all the folders only the gid of the team's own matters. */
  lemma EnsuredDepends(ns: Ns, fa: map<Name, Dir>, fb: map<Name, Dir>, team: Name, teamGid: Id, rs: seq<Reader>,
                       faults: set<nat>)
    requires team in fa && team in fb && fa[team].gid == fb[team].gid
    ensures Ensured(ns, fa, team, teamGid, rs, faults) == Ensured(ns, fb, team, teamGid, rs, faults)
  {
    forall r | r in rs ensures EnsureOf(ns, fa, team, teamGid)(r) == EnsureOf(ns, fb, team, teamGid)(r) {
      assert Presents(ns, fa, Point(r.name, team), r.gid) <==> Presents(ns, fb, Point(r.name, team), r.gid);
    }
    FlatPointwise(EnsureOf(ns, fa, team, teamGid), EnsureOf(ns, fb, team, teamGid), rs);
    forall c | c in Plan(ns, fa, team, teamGid, rs) && c.Bind? ensures c.p.team == team {
      PlanTouches(ns, fa, team, teamGid, rs, c);
      assert Touches(c, c.p);
    }
    RunDepends(ns, fa, fb, team, Plan(ns, fa, team, teamGid, rs), faults, 0);
  }
}
