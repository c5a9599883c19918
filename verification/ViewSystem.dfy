/** convergeViews as it runs: a mount namespace changed call by call (internal/fsops/view.go). */
module ViewSystem {
  import opened Common
  import opened Names
  import opened IdMap
  import opened Views

  /** What one call does: nothing when the environment fails it, else what the call means. */
  ghost predicate Did(before: Ns, folders: map<Name, Dir>, c: ViewCall, failed: bool, after: Ns, ok: bool) {
    if failed then after == before && ok == Ignored(c)
    else match ExecView(before, folders, c)
      case None => after == before && !ok
      case Some(next) => after == next && ok
  }

  lemma DidStep(before: Ns, folders: map<Name, Dir>, cs: seq<ViewCall>, faults: set<nat>, at: nat, after: Ns, ok: bool)
    requires cs != [] && Did(before, folders, cs[0], at in faults, after, ok)
    ensures RunViews(before, folders, cs, faults, at) ==
              if ok then RunViews(after, folders, cs[1..], faults, at + 1) else ViewRun(after, false)
  {
  }

  /** The paths below the views base, and the mounts on them, of one mount namespace. */
  class Namespace {
    var readers: map<Name, Id>
    var spots: map<Point, Spot>
    var mounts: map<Point, Mount>
    var faults: set<nat>   // the calls the environment fails, by number
    var at: nat            // calls made so far

    constructor (ns: Ns)
      ensures Value() == ns && at == 0 && faults == {}
    {
      readers, spots, mounts := ns.readers, ns.spots, ns.mounts;
      faults, at := {}, 0;
    }

    function Value(): Ns
      reads this
    {
      Ns(readers, spots, mounts)
    }

    // --- system calls ---

    method Refusal(folders: map<Name, Dir>) returns (ok: bool)
      modifies this`at
      ensures at == old(at) + 1 && !ok
      ensures Did(old(Value()), folders, Refuse, old(at) in faults, Value(), ok)
    {
      at, ok := at + 1, false;
    }

    /** umount, or umount -l when it is busy. */
    method UnmountView(folders: map<Name, Dir>, p: Point) returns (ok: bool)
      modifies this`at, this`mounts
      ensures at == old(at) + 1
      ensures Did(old(Value()), folders, Umount(p), old(at) in faults, Value(), ok)
    {
      ok := at !in faults && p in mounts && mounts[p].View?;
      at := at + 1;
      if ok { mounts := mounts - {p}; }
    }

    /** os.Remove of an unmounted view's mountpoint; its error is dropped. */
    method RemovePoint(folders: map<Name, Dir>, p: Point) returns (ok: bool)
      modifies this`at, this`spots
      ensures at == old(at) + 1 && ok
      ensures Did(old(Value()), folders, TryRemove(p), old(at) in faults, Value(), ok)
    {
      if at !in faults && p in spots && !spots[p].Occupied? && p !in mounts { spots := spots - {p}; }
      at, ok := at + 1, true;
    }

    /** os.Remove of a leftover mountpoint. */
    method SweepPoint(folders: map<Name, Dir>, p: Point) returns (ok: bool)
      modifies this`at, this`spots
      ensures at == old(at) + 1
      ensures Did(old(Value()), folders, Sweep(p), old(at) in faults, Value(), ok)
    {
      ok := at !in faults;
      at := at + 1;
      if ok && Leftover(Value(), p) { spots := spots - {p}; }
    }

    method MakeReaderDir(folders: map<Name, Dir>, r: Name) returns (ok: bool)
      modifies this`at, this`readers
      ensures at == old(at) + 1
      ensures Did(old(Value()), folders, MkReader(r), old(at) in faults, Value(), ok)
    {
      ok := at !in faults;
      at := at + 1;
      if ok && r !in readers { readers := readers[r := 0]; }
    }

    method ChownReaderDir(folders: map<Name, Dir>, r: Name, gid: Id) returns (ok: bool)
      modifies this`at, this`readers
      ensures at == old(at) + 1
      ensures Did(old(Value()), folders, ChgrpReader(r, gid), old(at) in faults, Value(), ok)
    {
      ok := at !in faults && r in readers;
      at := at + 1;
      if ok { readers := readers[r := gid]; }
    }

    /** ensureMountpoint: a new directory, or one usersync left. */
    method EnsureMountpoint(folders: map<Name, Dir>, p: Point) returns (ok: bool)
      modifies this`at, this`spots
      ensures at == old(at) + 1
      ensures Did(old(Value()), folders, MkPoint(p), old(at) in faults, Value(), ok)
    {
      ok := at !in faults && p !in mounts && p.reader in readers && (p !in spots || spots[p] == Ours);
      at := at + 1;
      if ok { spots := spots[p := Ours]; }
    }

    /** mount --rbind with the id mapping, and the check that it came up as the reader. */
    method MountView(folders: map<Name, Dir>, p: Point, from: Id, to: Id) returns (ok: bool)
      modifies this`at, this`mounts
      ensures at == old(at) + 1
      ensures Did(old(Value()), folders, Bind(p, from, to), old(at) in faults, Value(), ok)
    {
      ok := at !in faults && p in spots && p !in mounts && p.team in folders
        && Shown(from, to, folders[p.team].gid) == to;
      at := at + 1;
      if ok { mounts := mounts[p := View(from, to)]; }
    }

    // --- observation ---

    /** The readers whose directory has a mount for the team. */
    method MountTable(team: Name) returns (tbl: seq<Name>)
      ensures tbl == Table(Value(), team)
      ensures Distinct(Self, tbl) && forall x :: x in tbl <==> Point(x, team) in mounts
    {
      tbl := Sorted(set p | p in mounts && p.team == team :: p.reader);
      TableOf(Value(), team, tbl);
    }

    method ReadWorking(folders: map<Name, Dir>, team: Name) returns (found: set<Name>)
      ensures found == set p | p in mounts && p.team == team && Working(Value(), folders, p) :: p.reader
    {
      found := {};
      var tbl := MountTable(team);
      for i := 0 to |tbl|
        invariant forall x :: x in found <==> x in tbl[..i] && Working(Value(), folders, Point(x, team))
      {
        assert tbl[..i + 1] == tbl[..i] + [tbl[i]];
        if Working(Value(), folders, Point(tbl[i], team)) { found := found + {tbl[i]}; }
      }
      WorkingOf(Value(), folders, team, tbl, found);
    }

    method ReadLeftover(team: Name) returns (found: set<Name>)
      ensures found == set p | p in spots && p.team == team && Leftover(Value(), p) :: p.reader + LEFTOVER_TAG
    {
      found := {};
      var dirs := Sorted(set p | p in spots && p.team == team :: p.reader);
      for i := 0 to |dirs|
        invariant found == set x | x in dirs[..i] && Leftover(Value(), Point(x, team)) :: x + LEFTOVER_TAG
      {
        assert dirs[..i + 1] == dirs[..i] + [dirs[i]];
        if Leftover(Value(), Point(dirs[i], team)) { found := found + {dirs[i] + LEFTOVER_TAG}; }
      }
      LeftoverOf(Value(), team, dirs);
    }

    /** ReadReaderViews, for one team: the readers with a working view, then the leftover mountpoints. */
    method ReadReaderViews(folders: map<Name, Dir>, team: Name) returns (out: seq<Name>)
      ensures out == Observed(Value(), folders, team)
    {
      var found := ReadWorking(folders, team);
      if team in folders {
        var left := ReadLeftover(team);
        found := found + left;
      }
      out := Sorted(found);
      assert found == SetOf(Observed(Value(), folders, team));
    }

    // --- convergence ---

    /** One mount of the team: left, refused, or taken down with its mountpoint. */
    method DropReader(folders: map<Name, Dir>, ghost start: Ns, team: Name, want: set<Name>, reader: Name, mount: Mount)
      returns (ok: bool)
      requires Point(reader, team) in start.mounts && mount == start.mounts[Point(reader, team)]
      requires SameAt(start, Value(), Point(reader, team))
      modifies this`at, this`mounts, this`spots
      ensures var cs := DropOf(start, team, want)(reader);
              ViewRun(Value(), ok) == RunViews(old(Value()), folders, cs, faults, old(at))
                && (ok ==> at == old(at) + |cs|)
    {
      var p := Point(reader, team);
      ghost var cs, before := DropOf(start, team, want)(reader), Value();
      if mount.Foreign? {
        if reader !in want { return true; }
        ok := Refusal(folders);
        DidStep(before, folders, cs, faults, at - 1, Value(), ok);
      } else if reader in want {
        ok := true;
      } else {
        ok := UnmountView(folders, p);
        DidStep(before, folders, cs, faults, at - 1, Value(), ok);
        if !ok { return; }
        ghost var between := Value();
        ok := RemovePoint(folders, p);
        DidStep(between, folders, cs[1..], faults, at - 1, Value(), ok);
      }
    }

    /** The next mount of the table. */
    method DropNext(folders: map<Name, Dir>, ghost start: Ns, ghost first: nat, team: Name, want: set<Name>,
                    tbl: seq<Name>, i: nat, mount: Mount) returns (ok: bool)
      requires Distinct(Self, tbl) && i < |tbl|
      requires Point(tbl[i], team) in start.mounts && mount == start.mounts[Point(tbl[i], team)]
      requires RunViews(start, folders, Flat(DropOf(start, team, want), tbl[..i]), faults, first)
               == ViewRun(Value(), true)
      requires at == first + |Flat(DropOf(start, team, want), tbl[..i])|
      modifies this`at, this`mounts, this`spots
      ensures ok ==>
                && RunViews(start, folders, Flat(DropOf(start, team, want), tbl[..i + 1]), faults, first)
                == ViewRun(Value(), true)
                && at == first + |Flat(DropOf(start, team, want), tbl[..i + 1])|
      ensures !ok ==>
                RunViews(start, folders, Flat(DropOf(start, team, want), tbl), faults, first) == ViewRun(Value(), false)
    {
      Prefix(start, folders, DropOf(start, team, want), tbl, i, faults, first, Value(), at);
      DropsLeave(start, folders, team, want, tbl, i, faults, first, tbl[i]);
      ok := DropReader(folders, start, team, want, tbl[i], mount);
    }

    /** Views of the team nobody declares any more come down; the declared readers that are mounted. */
    method DropUndeclared(folders: map<Name, Dir>, team: Name, want: set<Name>) returns (ok: bool, mounted: set<Name>)
      modifies this`at, this`mounts, this`spots
      ensures var cs := Flat(DropOf(old(Value()), team, want), Table(old(Value()), team));
              ViewRun(Value(), ok) == RunViews(old(Value()), folders, cs, faults, old(at))
                && (ok ==> at == old(at) + |cs|)
      ensures ok ==> mounted == SetOf(Table(old(Value()), team)) * want
    {
      ghost var start, first := Value(), at;
      var was := mounts;
      var tbl := MountTable(team);
      assert forall i :: 0 <= i < |tbl| ==> Point(tbl[i], team) in was;
      mounted := {};
      for i := 0 to |tbl|
        invariant RunViews(start, folders, Flat(DropOf(start, team, want), tbl[..i]), faults, first)
                  == ViewRun(Value(), true)
        invariant at == first + |Flat(DropOf(start, team, want), tbl[..i])|
        invariant mounted == SetOf(tbl[..i]) * want
      {
        ok := DropNext(folders, start, first, team, want, tbl, i, was[Point(tbl[i], team)]);
        if !ok { return; }
        if tbl[i] in want { mounted := mounted + {tbl[i]}; }
      }
      ok := true;
      assert tbl[..|tbl|] == tbl;
    }

    method SweepNext(folders: map<Name, Dir>, ghost start: Ns, ghost first: nat, team: Name, xs: seq<Name>, i: nat)
      returns (ok: bool)
      requires i < |xs|
      requires RunViews(start, folders, Flat(SweepOf(team), xs[..i]), faults, first) == ViewRun(Value(), true)
      requires at == first + |Flat(SweepOf(team), xs[..i])|
      modifies this`at, this`spots
      ensures ok ==>
                && RunViews(start, folders, Flat(SweepOf(team), xs[..i + 1]), faults, first) == ViewRun(Value(), true)
                && at == first + |Flat(SweepOf(team), xs[..i + 1])|
      ensures !ok ==> RunViews(start, folders, Flat(SweepOf(team), xs), faults, first) == ViewRun(Value(), false)
    {
      Prefix(start, folders, SweepOf(team), xs, i, faults, first, Value(), at);
      ghost var before, cs := Value(), SweepOf(team)(xs[i]);
      ok := SweepPoint(folders, Point(xs[i], team));
      DidStep(before, folders, cs, faults, at - 1, Value(), ok);
      assert cs[1..] == [];
    }

    /** sweepLeftoverPoints: the team's mountpoints without a mount, but for the wanted readers'. */
    method SweepLeftoverPoints(folders: map<Name, Dir>, team: Name, want: set<Name>) returns (ok: bool)
      modifies this`at, this`spots
      ensures var cs := Flat(SweepOf(team), SortedNames(old(readers).Keys - want - {team}));
              ViewRun(Value(), ok) == RunViews(old(Value()), folders, cs, faults, old(at))
                && (ok ==> at == old(at) + |cs|)
    {
      ghost var start, first := Value(), at;
      var xs := Sorted(readers.Keys - want - {team});
      for i := 0 to |xs|
        invariant RunViews(start, folders, Flat(SweepOf(team), xs[..i]), faults, first) == ViewRun(Value(), true)
        invariant at == first + |Flat(SweepOf(team), xs[..i])|
      {
        ok := SweepNext(folders, start, first, team, xs, i);
        if !ok { return; }
      }
      ok := true;
      assert xs[..|xs|] == xs;
    }

    /** ensureReaderDir: the directory of a reader group, with the group's gid. */
    method EnsureReaderDir(folders: map<Name, Dir>, r: Reader) returns (ok: bool)
      modifies this`at, this`readers
      ensures var cs := [MkReader(r.name), ChgrpReader(r.name, r.gid)];
              ViewRun(Value(), ok) == RunViews(old(Value()), folders, cs, faults, old(at)) && (ok ==> at == old(at) + 2)
    {
      ghost var cs, before := [MkReader(r.name), ChgrpReader(r.name, r.gid)], Value();
      ok := MakeReaderDir(folders, r.name);
      DidStep(before, folders, cs, faults, at - 1, Value(), ok);
      if !ok { return; }
      before := Value();
      ok := ChownReaderDir(folders, r.name, r.gid);
      DidStep(before, folders, cs[1..], faults, at - 1, Value(), ok);
      assert cs[1..][1..] == [];
    }

    /** The mount of a fresh view. */
    method Mount(folders: map<Name, Dir>, p: Point, from: Id, to: Id) returns (ok: bool)
      modifies this`at, this`spots, this`mounts
      ensures var cs := [MkPoint(p), Bind(p, from, to)];
              ViewRun(Value(), ok) == RunViews(old(Value()), folders, cs, faults, old(at)) && (ok ==> at == old(at) + 2)
    {
      ghost var cs, before := [MkPoint(p), Bind(p, from, to)], Value();
      ok := EnsureMountpoint(folders, p);
      DidStep(before, folders, cs, faults, at - 1, Value(), ok);
      if !ok { return; }
      before := Value();
      ok := MountView(folders, p, from, to);
      DidStep(before, folders, cs[1..], faults, at - 1, Value(), ok);
      assert cs[1..][1..] == [];
    }

    /** ensureView: left if it presents the reader, else mounted anew. */
    method EnsureView(folders: map<Name, Dir>, team: Name, teamGid: Id, r: Reader, isMounted: bool) returns (ok: bool)
      requires isMounted == (Point(r.name, team) in mounts)
      modifies this`at, this`spots, this`mounts
      ensures var cs := EnsureOf(old(Value()), folders, team, teamGid)(r)[2..];
              ViewRun(Value(), ok) == RunViews(old(Value()), folders, cs, faults, old(at))
                && (ok ==> at == old(at) + |cs|)
    {
      var p := Point(r.name, team);
      ghost var start := Value();
      ghost var cs := EnsureOf(start, folders, team, teamGid)(r)[2..];
      if isMounted && Presents(Value(), folders, p, r.gid) {
        assert cs == [];
        return true;
      }
      if teamGid == r.gid || teamGid >= MAX_ID || r.gid >= MAX_ID {
        assert cs == [Refuse];
        ok := Refusal(folders);
        DidStep(start, folders, cs, faults, at - 1, Value(), ok);
        return;
      }
      if isMounted {
        assert cs == [Umount(p)] + [MkPoint(p), Bind(p, teamGid, r.gid)];
        ok := UnmountView(folders, p);
        DidStep(start, folders, cs, faults, at - 1, Value(), ok);
        assert cs[1..] == [MkPoint(p), Bind(p, teamGid, r.gid)];
        if !ok { return; }
      } else {
        assert cs == [MkPoint(p), Bind(p, teamGid, r.gid)];
      }
      ok := Mount(folders, p, teamGid, r.gid);
    }

    /** One declared reader: its directory, then its view. */
    method EnsureReader(folders: map<Name, Dir>, ghost start: Ns, team: Name, teamGid: Id, r: Reader, isMounted: bool)
      returns (ok: bool)
      requires SameAt(start, Value(), Point(r.name, team)) && isMounted == (Point(r.name, team) in mounts)
      modifies this`at, this`readers, this`spots, this`mounts
      ensures var cs := EnsureOf(start, folders, team, teamGid)(r);
              ViewRun(Value(), ok) == RunViews(old(Value()), folders, cs, faults, old(at))
                && (ok ==> at == old(at) + |cs|)
    {
      ghost var before, here := Value(), at;
      ghost var cs, dir := EnsureOf(start, folders, team, teamGid)(r), [MkReader(r.name), ChgrpReader(r.name, r.gid)];
      assert cs == dir + cs[2..];
      RunSplit(before, folders, dir, cs[2..], faults, here);
      ok := EnsureReaderDir(folders, r);
      if !ok { return; }
      RunFrame(before, folders, dir, faults, here, Point(r.name, team));
      assert EnsureOf(Value(), folders, team, teamGid)(r)[2..] == cs[2..];
      ok := EnsureView(folders, team, teamGid, r, isMounted);
    }

    /** The declared readers, one after another. */
    method EnsureReaders(folders: map<Name, Dir>, ghost start: Ns, team: Name, teamGid: Id, rs: seq<Reader>,
                         mounted: set<Name>) returns (ok: bool)
      requires Distinct(ReaderKey, rs)
      requires forall r :: r in rs ==> SameAt(start, Value(), Point(r.name, team))
      requires forall r :: r in rs ==> (r.name in mounted <==> Point(r.name, team) in start.mounts)
      modifies this`at, this`readers, this`spots, this`mounts
      ensures var cs := Flat(EnsureOf(start, folders, team, teamGid), rs);
              ViewRun(Value(), ok) == RunViews(old(Value()), folders, cs, faults, old(at))
    {
      ghost var begin, first := Value(), at;
      ghost var f := EnsureOf(start, folders, team, teamGid);
      for i := 0 to |rs|
        invariant RunViews(begin, folders, Flat(f, rs[..i]), faults, first) == ViewRun(Value(), true)
        invariant at == first + |Flat(f, rs[..i])|
      {
        Prefix(begin, folders, f, rs, i, faults, first, Value(), at);
        EnsuresLeave(start, begin, folders, team, teamGid, rs, i, faults, first);
        ok := EnsureReader(folders, start, team, teamGid, rs[i], rs[i].name in mounted);
        if !ok { return; }
      }
      ok := true;
      assert rs[..|rs|] == rs;
    }

    /** Everything that comes down for the team. */
    method DropAndSweep(folders: map<Name, Dir>, team: Name, want: set<Name>) returns (ok: bool, mounted: set<Name>)
      modifies this`at, this`spots, this`mounts
      ensures ViewRun(Value(), ok) == RunViews(old(Value()), folders, Falls(old(Value()), team, want), faults, old(at))
      ensures ok ==>
                at == old(at) + |Falls(old(Value()), team, want)| && mounted == SetOf(Table(old(Value()), team)) * want
    {
      ghost var start, first := Value(), at;
      FallsSplit(start, folders, team, want, faults, first);
      ok, mounted := DropUndeclared(folders, team, want);
      if !ok { return; }
      ok := SweepLeftoverPoints(folders, team, want);
    }

    /** EnsureReaderViews: exactly the run of the plan made for the namespace it started on. */
    method EnsureReaderViews(folders: map<Name, Dir>, team: Name, teamGid: Id, rs: seq<Reader>) returns (ok: bool)
      requires Distinct(ReaderKey, rs)
      modifies this`at, this`readers, this`spots, this`mounts
      ensures ViewRun(Value(), ok) ==
                RunViews(old(Value()), folders, Plan(old(Value()), folders, team, teamGid, rs), faults, old(at))
    {
      ghost var start, first := Value(), at;
      var want := ReaderNames(rs);
      RunSplit(start, folders, Falls(start, team, want), Flat(EnsureOf(start, folders, team, teamGid), rs), faults,
        first);
      var mounted;
      ok, mounted := DropAndSweep(folders, team, want);
      if !ok { return; }
      Untouched(start, folders, team, want, faults, first, rs);
      ok := EnsureReaders(folders, start, team, teamGid, rs, mounted);
    }
  }

  ghost function Falls(ns: Ns, team: Name, want: set<Name>): seq<ViewCall> {
    Flat(DropOf(ns, team, want), Table(ns, team)) + Flat(SweepOf(team), SortedNames(ns.readers.Keys - want - {team}))
  }

  lemma FallsSplit(ns: Ns, folders: map<Name, Dir>, team: Name, want: set<Name>, faults: set<nat>, at: nat)
    ensures var A := Flat(DropOf(ns, team, want), Table(ns, team));
            var B := Flat(SweepOf(team), SortedNames(ns.readers.Keys - want - {team}));
            var r := RunViews(ns, folders, A, faults, at);
            && |Falls(ns, team, want)| == |A| + |B|
            && RunViews(ns, folders, Falls(ns, team, want), faults, at) ==
                 if r.ok then RunViews(r.ns, folders, B, faults, at + |A|) else r
  {
    RunSplit(ns, folders, Flat(DropOf(ns, team, want), Table(ns, team)),
             Flat(SweepOf(team), SortedNames(ns.readers.Keys - want - {team})), faults, at);
  }

  /** Making views leaves alone the points it has not come to. */
  lemma EnsuresLeave(start: Ns, begin: Ns, folders: map<Name, Dir>, team: Name, teamGid: Id, rs: seq<Reader>, i: nat,
                     faults: set<nat>, at: nat)
    requires Distinct(ReaderKey, rs) && i < |rs| && SameAt(start, begin, Point(rs[i].name, team))
    ensures SameAt(start,
            RunViews(begin, folders, Flat(EnsureOf(start, folders, team, teamGid), rs[..i]), faults, at).ns,
                   Point(rs[i].name, team))
  {
    var cs := Flat(EnsureOf(start, folders, team, teamGid), rs[..i]);
    forall c | c in cs ensures !Touches(c, Point(rs[i].name, team)) {
      OtherReader(start, folders, team, teamGid, rs[..i], c, rs[i].name);
    }
    RunFrame(begin, folders, cs, faults, at, Point(rs[i].name, team));
  }

  /** The declared readers' points come through the drops and sweeps as they were. */
  lemma Untouched(start: Ns, folders: map<Name, Dir>, team: Name, want: set<Name>, faults: set<nat>, at: nat,
                  rs: seq<Reader>)
    requires want == ReaderNames(rs)
    ensures forall r :: r in rs ==>
              SameAt(start, RunViews(start, folders, Falls(start, team, want), faults, at).ns, Point(r.name, team))
  {
    forall r | r in rs
      ensures SameAt(start, RunViews(start, folders, Falls(start, team, want), faults, at).ns, Point(r.name, team))
    {
      forall c | c in Falls(start, team, want) ensures !Touches(c, Point(r.name, team)) {
        FallsElsewhere(start, team, want, c, r.name);
      }
      RunFrame(start, folders, Falls(start, team, want), faults, at, Point(r.name, team));
    }
  }

  lemma FallsElsewhere(ns: Ns, team: Name, want: set<Name>, c: ViewCall, x: Name)
    requires c in Falls(ns, team, want) && x in want
    ensures !Touches(c, Point(x, team))
  {
    var xs := SortedNames(ns.readers.Keys - want - {team});
    if c in Flat(DropOf(ns, team, want), Table(ns, team)) {
      if Touches(c, Point(x, team)) { DropsTouch(ns, team, want, Table(ns, team), c, Point(x, team)); }
    } else {
      FlatMember(SweepOf(team), xs, c);
      assert x !in SetOf(xs);
    }
  }

  /** Dropping leaves alone the declared readers' points, and those it has not come to. */
  lemma DropsLeave(ns: Ns, folders: map<Name, Dir>, team: Name, want: set<Name>, tbl: seq<Name>, i: nat,
                   faults: set<nat>, at: nat, x: Name)
    requires Distinct(Self, tbl) && i <= |tbl| && (x in want || (i < |tbl| && x == tbl[i]))
    ensures SameAt(ns, RunViews(ns, folders, Flat(DropOf(ns, team, want), tbl[..i]), faults, at).ns, Point(x, team))
  {
    var cs := Flat(DropOf(ns, team, want), tbl[..i]);
    assert forall y :: y in tbl[..i] && i < |tbl| ==> Self(y) != Self(tbl[i]);
    forall c | c in cs ensures !Touches(c, Point(x, team)) {
      if Touches(c, Point(x, team)) { DropsTouch(ns, team, want, tbl[..i], c, Point(x, team)); }
    }
    RunFrame(ns, folders, cs, faults, at, Point(x, team));
  }

  lemma WorkingOf(ns: Ns, folders: map<Name, Dir>, team: Name, tbl: seq<Name>, found: set<Name>)
    requires tbl == SortedNames(set p | p in ns.mounts && p.team == team :: p.reader)
    requires forall x :: x in found <==> x in tbl && Working(ns, folders, Point(x, team))
    ensures found == set p | p in ns.mounts && p.team == team && Working(ns, folders, p) :: p.reader
  {
    assert forall x :: x in tbl <==> x in SetOf(tbl);
    forall p | p in ns.mounts && p.team == team ensures p == Point(p.reader, team) && p.reader in tbl {
      assert p.reader in SetOf(tbl);
    }
  }

  lemma LeftoverOf(ns: Ns, team: Name, dirs: seq<Name>)
    requires dirs == SortedNames(set p | p in ns.spots && p.team == team :: p.reader)
    ensures (set x | x in dirs && Leftover(ns, Point(x, team)) :: x + LEFTOVER_TAG)
            == set p | p in ns.spots && p.team == team && Leftover(ns, p) :: p.reader + LEFTOVER_TAG
  {
    assert forall x :: x in dirs <==> x in SetOf(dirs);
    var a := set x | x in dirs && Leftover(ns, Point(x, team)) :: x + LEFTOVER_TAG;
    var b := set p | p in ns.spots && p.team == team && Leftover(ns, p) :: p.reader + LEFTOVER_TAG;
    forall y | y in a ensures y in b {
      var x :| x in dirs && Leftover(ns, Point(x, team)) && y == x + LEFTOVER_TAG;
      assert Point(x, team) in ns.spots;
    }
    forall y | y in b ensures y in a {
      var p :| p in ns.spots && p.team == team && Leftover(ns, p) && y == p.reader + LEFTOVER_TAG;
      assert p == Point(p.reader, team) && p.reader in SetOf(dirs);
    }
  }

  lemma TableOf(ns: Ns, team: Name, tbl: seq<Name>)
    requires tbl == Table(ns, team)
    ensures Distinct(Self, tbl) && forall x :: x in tbl <==> Point(x, team) in ns.mounts
  {
    AscendingDistinct(Self, tbl);
    assert forall x :: x in tbl <==> x in SetOf(tbl);
  }

  /** One more element of the list, after what the run has done; a failure there is the outcome. */
  lemma Prefix<T(!new)>(ns: Ns, folders: map<Name, Dir>, f: T -> seq<ViewCall>, xs: seq<T>, i: nat, faults: set<nat>,
                 at: nat,
                        mid: Ns, here: nat)
    requires i < |xs|
    requires RunViews(ns, folders, Flat(f, xs[..i]), faults, at) == ViewRun(mid, true)
             && here == at + |Flat(f, xs[..i])|
    ensures RunViews(ns, folders, Flat(f, xs[..i + 1]), faults, at) == RunViews(mid, folders, f(xs[i]), faults, here)
    ensures |Flat(f, xs[..i + 1])| == |Flat(f, xs[..i])| + |f(xs[i])|
    ensures !RunViews(mid, folders, f(xs[i]), faults, here).ok ==>
              RunViews(ns, folders, Flat(f, xs), faults, at) == RunViews(mid, folders, f(xs[i]), faults, here)
  {
    FlatStep(f, xs, i);
    RunSplit(ns, folders, Flat(f, xs[..i]), f(xs[i]), faults, at);
    FlatConcat(f, xs[..i + 1], xs[i + 1..]);
    assert xs == xs[..i + 1] + xs[i + 1..];
    RunSplit(ns, folders, Flat(f, xs[..i + 1]), Flat(f, xs[i + 1..]), faults, at);
  }
}
