/** What observing reader views reports, said of the mounts and paths themselves (internal/fsops/view.go,
    ReadReaderViews). */
module Observation {
  import opened Common
  import opened Names
  import opened Views

  /** A view of the team is mounted for the reader, and its root shows the gid of the reader's directory: the
      mount swaps one gid for another, and shows the overflow id for the one it swaps it for. */
  ghost predicate Shows(ns: Ns, folders: map<Name, Dir>, team: Name, reader: Name) {
    var p := Point(reader, team);
    && p in ns.mounts && ns.mounts[p].View? && team in folders && reader in ns.readers
    && var id, m := folders[team].gid, ns.mounts[p];
       ns.readers[reader] == if id == m.to || id >= 4294967295 then 65534 else if id == m.from then m.to else id
  }

  /** A mountpoint as usersync leaves them, with nothing mounted on it, of a reader other than the team. */
  ghost predicate Stray(ns: Ns, team: Name, reader: Name) {
    var p := Point(reader, team);
    reader != team && p in ns.spots && ns.spots[p] == Ours && p !in ns.mounts
  }

  /** Reported are the readers with a view that shows, under their names, and the stray mountpoints of a team
      that has a folder, marked as leftovers; each once, in the order of the names. */
  lemma ObservedExact(ns: Ns, folders: map<Name, Dir>, team: Name, x: Name)
    ensures x in Observed(ns, folders, team) <==>
              || Shows(ns, folders, team, x)
              || (team in folders && exists r: Name :: Stray(ns, team, r) && x == r + "@leftover")
    ensures Ascending(Self, Observed(ns, folders, team))
  {
    var working := set p | p in ns.mounts && p.team == team && Working(ns, folders, p) :: p.reader;
    var left := set p | p in ns.spots && p.team == team && Leftover(ns, p) :: p.reader + LEFTOVER_TAG;
    assert x in Observed(ns, folders, team) <==> x in SetOf(Observed(ns, folders, team));
    assert x in working <==> Shows(ns, folders, team, x) by {
      if x in working {
        var p :| p in ns.mounts && p.team == team && Working(ns, folders, p) && p.reader == x;
        assert p == Point(x, team);
      }
      if Shows(ns, folders, team, x) {
        assert Working(ns, folders, Point(x, team));
      }
    }
    assert x in left <==> exists r: Name :: Stray(ns, team, r) && x == r + "@leftover" by {
      if x in left {
        var p :| p in ns.spots && p.team == team && Leftover(ns, p) && p.reader + LEFTOVER_TAG == x;
        assert p == Point(p.reader, team) && Stray(ns, team, p.reader);
      }
      if r: Name :| Stray(ns, team, r) && x == r + "@leftover" {
        assert Leftover(ns, Point(r, team));
      }
    }
  }

  /** So a leftover is seen, wherever no reader directory has a name of the marked form. */
  lemma LeftoverSeen(ns: Ns, folders: map<Name, Dir>, team: Name, r: Name)
    requires team in folders && r + "@leftover" !in ns.readers
    ensures r + "@leftover" in Observed(ns, folders, team) <==> Stray(ns, team, r)
  {
    var x := r + "@leftover";
    ObservedExact(ns, folders, team, x);
    forall q: Name | x == q + "@leftover" ensures q == r {
      assert |q| == |r| && q == x[..|q|] && r == x[..|r|];
    }
  }

  /** A team with a folder is observed as a set of names without the mark exactly if these are the readers whose
      view shows, and no mountpoint of the team is stray: what it takes for a plan to leave it alone. */
  lemma AgreesExactly(ns: Ns, folders: map<Name, Dir>, team: Name, names: set<Name>)
    requires team in folders && forall n :: n in names ==> '@' !in n
    ensures Observed(ns, folders, team) == SortedNames(names) <==>
              && (forall r: Name :: Shows(ns, folders, team, r) <==> r in names)
              && forall r: Name :: !Stray(ns, team, r)
  {
    var seen := Observed(ns, folders, team);
    forall x ensures x in seen <==> x in SetOf(seen) {}
    forall x ensures x in SortedNames(names) <==> x in names { assert SetOf(SortedNames(names)) == names; }
    forall x { ObservedExact(ns, folders, team, x); }
    if seen == SortedNames(names) {
      forall r: Name ensures !Stray(ns, team, r) {
        var x := r + "@leftover";
        assert x[|r|] == '@';
        assert x !in names;
      }
    }
    if (forall r: Name :: Shows(ns, folders, team, r) <==> r in names) && forall r: Name :: !Stray(ns, team, r) {
      assert SetOf(seen) == names;
      SortedNamesIs(seen, names);
    }
  }
}
