/** Which ids usersync may touch (internal/idrange/idrange.go). */
module IdRange {
  import opened Common

  /** The absolute minimum id usersync ever touches. */
  const HARD_FLOOR: Id := 1000

  /** An inclusive window of ids. */
  datatype Range = Range(min: Id, max: Id) {
    predicate Contains(id: Id) { min <= id <= max }
  }

  datatype IdSet = IdSet(manage: Range, protect: seq<Range>)

  datatype Class = Protected | Managed | OutOfScope

  datatype Config = Config(systemFloor: Id, uid: IdSet, gid: IdSet)

  datatype Classifier = Classifier(systemFloor: Id, uid: IdSet, gid: IdSet) {

    function Classify(id: Id, s: IdSet): Class {
      if id < systemFloor then Protected
      else if exists i :: 0 <= i < |s.protect| && s.protect[i].Contains(id) then Protected
      else if s.manage.Contains(id) then Managed
      else OutOfScope
    }

    function Uid(id: Id): Class { Classify(id, uid) }

    function Gid(id: Id): Class { Classify(id, gid) }
  }

  function New(cfg: Config): Classifier {
    Classifier(if cfg.systemFloor < HARD_FLOOR then HARD_FLOOR else cfg.systemFloor, cfg.uid, cfg.gid)
  }

  /** What a validated configuration guarantees: a user's private gid (== uid) is never a team gid. */
  ghost predicate Windows(cls: Classifier) {
    && HARD_FLOOR <= cls.systemFloor
    && (cls.uid.manage.max < cls.gid.manage.min || cls.gid.manage.max < cls.uid.manage.min)
  }

  /** classify, with its search of the protect ranges as the loop it is. */
  method ClassifyLoop(cls: Classifier, id: Id, s: IdSet) returns (c: Class)
    ensures c == cls.Classify(id, s)
  {
    if id < cls.systemFloor { return Protected; }
    for i := 0 to |s.protect|
      invariant forall k :: 0 <= k < i ==> !s.protect[k].Contains(id)
    {
      if s.protect[i].Contains(id) { return Protected; }
    }
    if s.manage.Contains(id) { return Managed; }
    return OutOfScope;
  }

  /** What the three classes mean of an id, with every bound of every range included. */
  ghost predicate Splits(c: Class, floor: Id, s: IdSet, id: Id) {
    var low := id < 1000 || id < floor;
    var kept := exists i: nat :: i < |s.protect| && s.protect[i].min <= id <= s.protect[i].max;
    && (c == Protected <==> low || kept)
    && (c == Managed <==> !low && !kept && s.manage.min <= id <= s.manage.max)
    && (c == OutOfScope <==> !low && !kept && (id < s.manage.min || s.manage.max < id))
  }

  /** The classes of a configuration, in comparisons only. */
  lemma ClassesExact(cfg: Config, id: Id)
    ensures Splits(New(cfg).Uid(id), cfg.systemFloor, cfg.uid, id)
    ensures Splits(New(cfg).Gid(id), cfg.systemFloor, cfg.gid, id)
  {
    forall s: IdSet
      ensures (exists i :: 0 <= i < |s.protect| && s.protect[i].Contains(id))
              <==> exists i: nat :: i < |s.protect| && s.protect[i].min <= id <= s.protect[i].max
    {
      if i :| 0 <= i < |s.protect| && s.protect[i].Contains(id) {
        assert s.protect[i].min <= id <= s.protect[i].max;
      }
      if i: nat :| i < |s.protect| && s.protect[i].min <= id <= s.protect[i].max {
        assert s.protect[i].Contains(id);
      }
    }
  }

  /** No configuration makes an id below the floor, or inside a protect range, manageable. */
  lemma ProtectedWins(cfg: Config, id: Id, i: nat)
    ensures (id < 1000 || (i < |cfg.uid.protect| && cfg.uid.protect[i].min <= id <= cfg.uid.protect[i].max)) ==>
              New(cfg).Uid(id) == Protected
    ensures (id < 1000 || (i < |cfg.gid.protect| && cfg.gid.protect[i].min <= id <= cfg.gid.protect[i].max)) ==>
              New(cfg).Gid(id) == Protected
  {
    ClassesExact(cfg, id);
  }

  lemma WindowsDisjoint(cls: Classifier, id: Id)
    requires Windows(cls)
    ensures !(cls.Uid(id) == Managed && cls.Gid(id) == Managed)
  {
  }
}
