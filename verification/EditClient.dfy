/** One member client as it runs: the bounded wait for the lock, the critical section, and the write by
    rename (internal/roster/lock.go, internal/roster/edit.go, internal/cmd/member.go). */
module EditClient {
  import opened Common
  import opened Names
  import opened RosterEdit
  import opened EditProtocol

  // --- flockWait ---

  datatype Answer = Granted | WouldBlock | Broken

  /** One attempt: what flock answered, and what the clock showed after it. */
  datatype Attempt = Attempt(answer: Answer, at: nat)

  datatype Outcome = Locked | Failed | TimedOut

  /** The attempt ends the wait. */
  predicate Ends(a: Attempt, deadline: nat) {
    a.answer != WouldBlock || a.at > deadline
  }

  function Verdict(a: Attempt): Outcome {
    match a.answer case Granted => Locked case Broken => Failed case WouldBlock => TimedOut
  }

  /** flockWait: try until granted, broken or past the deadline. The wait ends at the first attempt that
      is one of these, however many blocked before it, and a lock granted late is still taken. */
  method FlockWait(attempts: seq<Attempt>, start: nat, d: nat) returns (r: Outcome, tries: nat)
    requires exists k :: 0 <= k < |attempts| && Ends(attempts[k], start + d)
    ensures 0 < tries <= |attempts| && Ends(attempts[tries - 1], start + d) && r == Verdict(attempts[tries - 1])
    ensures forall k :: 0 <= k < tries - 1 ==> attempts[k].answer == WouldBlock && attempts[k].at <= start + d
  {
    var deadline := start + d;
    tries := 0;
    while true
      invariant tries <= |attempts| && forall k :: 0 <= k < tries ==> !Ends(attempts[k], deadline)
      decreases |attempts| - tries
    {
      ghost var k :| 0 <= k < |attempts| && Ends(attempts[k], deadline);
      assert tries <= k;
      var a := attempts[tries];
      tries := tries + 1;
      if a.answer == Granted { return Locked, tries; }
      if a.answer != WouldBlock { return Failed, tries; }
      if a.at > deadline { return TimedOut, tries; }
    }
  }

  // --- the directory of the roster file ---

  datatype Edit = Refused | Unchanged | Rewritten | NotWritten

  class Directory {
    var roster: File
    var temp: Option<File>

    constructor (doc: Doc)
      ensures roster == File(doc, true, true) && temp == None
    {
      roster, temp := File(doc, true, true), None;
    }

    /** WriteFile: a temp file is created, written, synced, given its mode, closed and renamed; `fails` is
        the first step the environment fails. The roster is the new text on disk, or what it was. */
    method WriteFile(doc: Doc, fails: Option<nat>) returns (ok: bool)
      modifies this
      ensures ok <==> fails == None || fails.value >= 6
      ensures roster == if ok then File(doc, true, true) else old(roster)
      ensures temp == if fails == Some(0) then old(temp) else None
    {
      if fails == Some(0) { return false; }
      temp := Some(File(doc, false, false));
      if fails == Some(1) { temp := None; return false; }
      temp := Some(temp.value.(complete := true));
      if fails == Some(2) { temp := None; return false; }
      temp := Some(temp.value.(synced := true));
      if fails == Some(3) || fails == Some(4) || fails == Some(5) { temp := None; return false; }
      roster, temp := temp.value, None;
      return true;
    }

    /** editMembership: read, edit, validate, write. Nothing is written that the loader or the validator
        would refuse, and a refused or failed edit leaves the file exactly as it was. */
    method EditMembership(r: Rules, op: Op, fails: Option<nat>) returns (e: Edit)
      requires roster.complete
      modifies this
      ensures e.Refused? <==> !Permitted(r.accepts, r.declares, old(roster).doc, op)
      ensures e.Unchanged? <==> Permitted(r.accepts, r.declares, old(roster).doc, op)
                                && !RosterEdit.Edited(old(roster).doc.groups, op).value.changed
      ensures e.Rewritten? ==> roster == File(Next(old(roster).doc, op).value, true, true) && r.accepts(roster.doc)
      ensures !e.Rewritten? ==> roster == old(roster)
      ensures e.NotWritten? <==>
                && Permitted(r.accepts, r.declares, old(roster).doc, op)
                && RosterEdit.Edited(old(roster).doc.groups, op).value.changed
                && fails.Some? && fails.value < 6
    {
      var src := roster.doc;
      if !r.declares(src, op) { return Refused; }
      var doc := new Document(src.groups);
      var changed: Result<bool>;
      match op {
        case Add(g, u) => changed := doc.AddMember(g, u);
        case Remove(g, u) => changed := doc.RemoveMember(g, u);
      }
      if changed.Err? { return Refused; }
      var next := src.(groups := doc.groups);
      if !r.accepts(next) { return Refused; }
      if !changed.value { return Unchanged; }
      var ok := WriteFile(next, fails);
      return if ok then Rewritten else NotWritten;
    }
  }
}
