/** The gid mapping of a reader view (internal/fsops/view.go, idmapSpec). */
module IdMap {
  import opened Common

  /** One extent of an X-mount.idmap mapping: `count` ids from `from` appear from `to` on. */
  datatype Extent = Extent(from: nat, to: nat, count: nat)

  /** Exclusive top of the mappable id space; (uid_t)-1 is not an id. */
  const MAX_ID: nat := 4294967295

  /** What an id no extent covers appears as. */
  const OVERFLOW_ID: Id := 65534

  datatype Spec = Spec(uid: seq<Extent>, gid: seq<Extent>)

  datatype SpecResult = Ok(spec: Spec) | SameGroup | OutOfRange

  predicate Covers(e: Extent, id: nat) {
    e.from <= id < e.from + e.count
  }

  /** The kernel's reading of an extent list: the extent that covers id decides. */
  function Lookup(ext: seq<Extent>, id: nat): Option<nat> {
    if ext == [] then None
    else if Covers(ext[0], id) then Some(ext[0].to + (id - ext[0].from))
    else Lookup(ext[1..], id)
  }

  /** Ascending in source, disjoint in source and in destination, and inside the id space. */
  ghost predicate WellFormed(ext: seq<Extent>) {
    && (forall e :: e in ext ==> e.count > 0 && e.from + e.count <= MAX_ID && e.to + e.count <= MAX_ID)
    && (forall i, j :: 0 <= i < j < |ext| ==> ext[i].from + ext[i].count <= ext[j].from)
    && (forall i, j :: 0 <= i < j < |ext| ==>
        ext[i].to + ext[i].count <= ext[j].to || ext[j].to + ext[j].count <= ext[i].to)
  }

  /** The whole id space onto itself, but for team, which appears as reader. */
  ghost predicate Substitutes(ext: seq<Extent>, team: nat, reader: nat) {
    forall id: nat {:trigger Lookup(ext, id)} ::
      Lookup(ext, id) ==
        if id >= MAX_ID || id == reader then None
        else if id == team then Some(reader)
        else Some(id)
  }

  method IdmapSpec(teamGid: Id, readerGid: Id) returns (r: SpecResult)
    ensures r.SameGroup? <==> teamGid == readerGid
    ensures r.OutOfRange? <==> teamGid != readerGid && (teamGid >= MAX_ID || readerGid >= MAX_ID)
    ensures r.Ok? ==> WellFormed(r.spec.gid) && Substitutes(r.spec.gid, teamGid, readerGid)
    ensures r.Ok? ==> WellFormed(r.spec.uid) && forall id: nat ::
                        Lookup(r.spec.uid, id) == if id < MAX_ID then Some(id) else None
  {
    if teamGid == readerGid { return SameGroup; }
    if teamGid >= MAX_ID || readerGid >= MAX_ID { return OutOfRange; }
    var ext := GidExtents(teamGid, readerGid);
    ExtentsSubstitute(teamGid, readerGid);
    ExtentsWellFormed(teamGid, readerGid);
    var uid := [Extent(0, 0, MAX_ID)];
    forall id: nat ensures Lookup(uid, id) == if id < MAX_ID then Some(id) else None {
      LookupAppend([], uid[0], id);
      assert [] + [uid[0]] == uid;
    }
    r := Ok(Spec(uid, ext));
  }

  /** The gid extents in ascending source order, empty ones left out. */
  method GidExtents(teamGid: nat, readerGid: nat) returns (ext: seq<Extent>)
    requires teamGid != readerGid && teamGid < MAX_ID && readerGid < MAX_ID
    ensures ext == Extents(teamGid, readerGid)
  {
    var lo, hi := teamGid, readerGid;
    if hi < lo { lo, hi := hi, lo; }
    ext := Add([], 0, 0, lo);
    if teamGid < readerGid { ext := Add(ext, teamGid, readerGid, 1); }
    ext := Add(ext, lo + 1, lo + 1, hi - lo - 1);
    if readerGid < teamGid { ext := Add(ext, teamGid, readerGid, 1); }
    ext := Add(ext, hi + 1, hi + 1, MAX_ID - hi - 1);
  }

  function If(e: Extent): seq<Extent> {
    if e.count > 0 then [e] else []
  }

  /** Identity below the lower id, the substitution, identity between and above. */
  function Extents(team: nat, reader: nat): seq<Extent>
    requires team != reader && team < MAX_ID && reader < MAX_ID
  {
    if team < reader then
      [] + If(Extent(0, 0, team)) + If(Extent(team, reader, 1))
      + If(Extent(team + 1, team + 1, reader - team - 1))
      + If(Extent(reader + 1, reader + 1, MAX_ID - reader - 1))
    else
      [] + If(Extent(0, 0, reader))
      + If(Extent(reader + 1, reader + 1, team - reader - 1))
      + If(Extent(team, reader, 1))
      + If(Extent(team + 1, team + 1, MAX_ID - team - 1))
  }

  lemma ExtentsSubstitute(team: nat, reader: nat)
    requires team != reader && team < MAX_ID && reader < MAX_ID
    ensures Substitutes(Extents(team, reader), team, reader)
  {
    forall id: nat { ExtentsLookup(team, reader, id); }
  }

  lemma ExtentsWellFormed(team: nat, reader: nat)
    requires team != reader && team < MAX_ID && reader < MAX_ID
    ensures WellFormed(Extents(team, reader))
  {
    var s := Extent(team, reader, 1);
    if team < reader {
      var m, t := Extent(team + 1, team + 1, reader - team - 1), Extent(reader + 1, reader + 1, MAX_ID - reader - 1);
      var p := [] + If(Extent(0, 0, team));
      Append(p, s);
      Append(p + If(s), m);
      Append(p + If(s) + If(m), t);
    } else {
      var m, t := Extent(reader + 1, reader + 1, team - reader - 1), Extent(team + 1, team + 1, MAX_ID - team - 1);
      var p := [] + If(Extent(0, 0, reader));
      Append(p, m);
      Append(p + If(m), s);
      Append(p + If(m) + If(s), t);
    }
  }

  lemma Append(ext: seq<Extent>, e: Extent)
    requires WellFormed(ext) && e.from + e.count <= MAX_ID && e.to + e.count <= MAX_ID
    requires forall x :: x in ext ==>
               x.from + x.count <= e.from && (x.to + x.count <= e.to || e.to + e.count <= x.to)
    ensures WellFormed(ext + If(e))
  {
    var r := ext + If(e);
    forall i, j | 0 <= i < j < |r|
      ensures r[i].from + r[i].count <= r[j].from
      ensures r[i].to + r[i].count <= r[j].to || r[j].to + r[j].count <= r[i].to
    {
      assert r[i] == ext[i];
      if j < |ext| { assert r[j] == ext[j]; }
    }
  }

  lemma ExtentsLookup(team: nat, reader: nat, id: nat)
    requires team != reader && team < MAX_ID && reader < MAX_ID
    ensures Lookup(Extents(team, reader), id) ==
        if id >= MAX_ID || id == reader then None else if id == team then Some(reader) else Some(id)
  {
    var s := Extent(team, reader, 1);
    if team < reader {
      LookupFour(Extent(0, 0, team), s,
                 Extent(team + 1, team + 1, reader - team - 1), Extent(reader + 1, reader + 1, MAX_ID - reader - 1),
                 id);
    } else {
      LookupFour(Extent(0, 0, reader), Extent(reader + 1, reader + 1, team - reader - 1),
                 s, Extent(team + 1, team + 1, MAX_ID - team - 1), id);
    }
  }

  function Hit(e: Extent, id: nat, rest: Option<nat>): Option<nat> {
    if Covers(e, id) then Some(e.to + (id - e.from)) else rest
  }

  lemma LookupFour(a: Extent, b: Extent, c: Extent, d: Extent, id: nat)
    ensures Lookup([] + If(a) + If(b) + If(c) + If(d), id) == Hit(a, id, Hit(b, id, Hit(c, id, Hit(d, id, None))))
  {
    LookupIf([], a, id);
    LookupIf([] + If(a), b, id);
    LookupIf([] + If(a) + If(b), c, id);
    LookupIf([] + If(a) + If(b) + If(c), d, id);
  }

  lemma LookupIf(ext: seq<Extent>, e: Extent, id: nat)
    ensures Lookup(ext + If(e), id) ==
              if Lookup(ext, id).Some? then Lookup(ext, id)
              else if Covers(e, id) then Some(e.to + (id - e.from)) else None
  {
    LookupAppend(ext, e, id);
    assert ext + [] == ext;
  }

  /** Append an extent unless it is empty. */
  method Add(ext: seq<Extent>, from: nat, to: nat, count: nat) returns (r: seq<Extent>)
    ensures r == ext + If(Extent(from, to, count))
  {
    r := ext;
    if count > 0 {
      r := r + [Extent(from, to, count)];
    }
  }

  lemma {:induction false} LookupAppend(ext: seq<Extent>, e: Extent, id: nat)
    ensures Lookup(ext + [e], id) ==
              if Lookup(ext, id).Some? then Lookup(ext, id)
              else if Covers(e, id) then Some(e.to + (id - e.from)) else None
  {
    if ext == [] {
      assert [e][1..] == [];
    } else {
      LookupAppend(ext[1..], e, id);
      assert (ext + [e])[1..] == ext[1..] + [e];
    }
  }

  /** The gid a mapped directory of on-disk gid `id` shows. */
  function Shown(from: Id, to: Id, id: Id): Id {
    if id >= MAX_ID || id == to then OVERFLOW_ID else if id == from then to else id
  }

  /** Shown is what the extents say, with uncovered ids read as the overflow id. */
  lemma ShownIsMapping(ext: seq<Extent>, team: Id, reader: Id, id: Id)
    requires Substitutes(ext, team, reader)
    ensures Shown(team, reader, id) ==
              match Lookup(ext, id) { case Some(n) => n case None => OVERFLOW_ID }
  {
    var l := Lookup(ext, id);
  }

  /** The mapping is one-to-one and its image misses exactly the team gid. */
  lemma MappingInjective(ext: seq<Extent>, team: nat, reader: nat, a: nat, b: nat)
    requires team != reader && team < MAX_ID && reader < MAX_ID
    requires Substitutes(ext, team, reader)
    requires Lookup(ext, a).Some? && Lookup(ext, a) == Lookup(ext, b)
    ensures a == b
  {
  }

  lemma MappingImage(ext: seq<Extent>, team: nat, reader: nat, n: nat)
    requires team != reader && team < MAX_ID && reader < MAX_ID && n < MAX_ID
    requires Substitutes(ext, team, reader)
    ensures (exists a: nat :: Lookup(ext, a) == Some(n)) <==> n != team
  {
    var source := if n == reader then team else n;
    assert n != team ==> Lookup(ext, source) == Some(n);
  }
}
