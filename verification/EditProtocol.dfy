/** Many clients editing one roster file: lock, read, edit, validate, write by rename, unlock; with lock
    timeouts, write errors, dying clients and power loss (internal/roster/lock.go, internal/roster/edit.go,
    internal/cmd/member.go). */
module EditProtocol {
  import opened Common
  import opened Names
  import opened RosterEdit

  /** A parsed roster: its groups, and everything else in the file. */
  datatype Doc = Doc(groups: seq<Entry>, rest: string)

  /** A file: what it says once written in full, whether that is so, and whether it is on disk. */
  datatype File = File(doc: Doc, complete: bool, synced: bool)

  /** Where a client is. `held` phases are those of the critical section. */
  datatype Phase =
    | Waiting(deadline: nat)              // flockWait
    | Entered                             // holds the lock
    | Edited(read: Doc, next: Doc)        // edited and validated; a write is due
    | Created(read: Doc, next: Doc)       // the temp file exists
    | Written(read: Doc, next: Doc)       // and holds the new text
    | Synced(read: Doc, next: Doc)        // and is on disk
    | Leaving(ok: bool)                   // the critical section is over
    | Done(ok: bool)
    | Dead

  predicate Held(p: Phase) {
    p.Entered? || p.Edited? || p.Created? || p.Written? || p.Synced? || p.Leaving?
  }

  datatype Client = Client(op: Op, phase: Phase)

  /** The system: clock, lock holder, roster file, the files replaced by renames that are not on disk yet,
      oldest first, temp files by client, clients, and (for the statement) the edits committed so far. */
  datatype Sys = Sys(
    now: nat, lock: Option<nat>, roster: File, replaced: seq<File>, temps: map<nat, File>,
    clients: seq<Client>, log: seq<Op>)

  const WAIT: nat := 5000

  // --- one edit of the file ---

  /** The document after an edit that succeeds. */
  function Next(d: Doc, op: Op): Result<Doc> {
    match RosterEdit.Edited(d.groups, op)
    case Err(e) => Err(e)
    case Ok(e) => Ok(d.(groups := e.groups))
  }

  /** Both names are declared, the edit goes through, and the outcome loads and validates. */
  ghost predicate Permitted(accepts: Doc -> bool, declares: (Doc, Op) -> bool, d: Doc, op: Op) {
    declares(d, op) && Next(d, op).Ok? && accepts(Next(d, op).value)
  }

  /** The document a log of committed edits makes of the first one. */
  function Fold(d: Doc, log: seq<Op>): Doc
    decreases |log|
  {
    if log == [] then d
    else
      var before := Fold(d, log[..|log| - 1]);
      if Next(before, log[|log| - 1]).Ok? then Next(before, log[|log| - 1]).value else before
  }

  // --- steps ---

  /** What is fixed about a system: its loader and validator, and which names a document declares. */
  datatype Rules = Rules(accepts: Doc -> bool, declares: (Doc, Op) -> bool)

  /** The loader is strict: it only accepts loadable documents. */
  ghost predicate Strict(r: Rules) {
    forall d :: r.accepts(d) ==> Loadable(d.groups)
  }

  function Move(s: Sys, i: nat, p: Phase): Sys
    requires i < |s.clients|
  {
    s.(clients := s.clients[i := s.clients[i].(phase := p)])
  }

  /** flock succeeds when nobody holds the lock. */
  ghost predicate Lock(s: Sys, t: Sys, i: nat) {
    i < |s.clients| && s.clients[i].phase.Waiting? && s.lock == None && t == Move(s, i, Entered).(lock := Some(i))
  }

  ghost predicate GiveUp(s: Sys, t: Sys, i: nat) {
    i < |s.clients| && s.clients[i].phase.Waiting? && s.lock.Some? && s.now > s.clients[i].phase.deadline
    && t == Move(s, i, Done(false))
  }

  /** Read, edit and validate; without a change there is nothing to write. */
  ghost predicate ReadEdit(r: Rules, s: Sys, t: Sys, i: nat) {
    i < |s.clients| && s.clients[i].phase.Entered?
    && var d, op := s.roster.doc, s.clients[i].op;
       if !s.roster.complete || !Permitted(r.accepts, r.declares, d, op) then t == Move(s, i, Leaving(false))
       else if !RosterEdit.Edited(d.groups, op).value.changed then t == Move(s, i, Leaving(true))
       else t == Move(s, i, Phase.Edited(d, Next(d, op).value))
  }

  /** CreateTemp; Write; Sync and Chmod. */
  ghost predicate CreateTemp(s: Sys, t: Sys, i: nat) {
    i < |s.clients| && s.clients[i].phase.Edited?
    && t == Move(s, i, Created(s.clients[i].phase.read, s.clients[i].phase.next))
            .(temps := s.temps[i := File(s.clients[i].phase.next, false, false)])
  }

  ghost predicate Write(s: Sys, t: Sys, i: nat) {
    i < |s.clients| && s.clients[i].phase.Created? && i in s.temps
    && t == Move(s, i, Written(s.clients[i].phase.read, s.clients[i].phase.next))
            .(temps := s.temps[i := s.temps[i].(complete := true)])
  }

  ghost predicate Sync(s: Sys, t: Sys, i: nat) {
    i < |s.clients| && s.clients[i].phase.Written? && i in s.temps
    && t == Move(s, i, Phase.Synced(s.clients[i].phase.read, s.clients[i].phase.next))
            .(temps := s.temps[i := s.temps[i].(synced := true)])
  }

  /** The rename commits: readers see the new file from here on. */
  ghost predicate Rename(s: Sys, t: Sys, i: nat) {
    i < |s.clients| && s.clients[i].phase.Synced? && i in s.temps
    && t == Move(s, i, Leaving(true)).(
              roster := s.temps[i], replaced := s.replaced + [s.roster], temps := s.temps - {i},
              log := s.log + [s.clients[i].op])
  }

  /** The directory reaches the disk, by its own sync or any later one: the renames are now durable. A
      client's own sync may fail unnoticed, so any number of renames can be waiting for this. */
  ghost predicate DirSync(s: Sys, t: Sys) {
    t == s.(replaced := [])
  }

  /** Any step of WriteFile fails: the temp file goes, and the client leaves. */
  ghost predicate WriteFails(s: Sys, t: Sys, i: nat) {
    i < |s.clients|
    && (s.clients[i].phase.Edited? || s.clients[i].phase.Created?
        || s.clients[i].phase.Written? || s.clients[i].phase.Synced?)
    && t == Move(s, i, Leaving(false)).(temps := s.temps - {i})
  }

  ghost predicate Unlock(s: Sys, t: Sys, i: nat) {
    i < |s.clients| && s.clients[i].phase.Leaving? && s.lock == Some(i)
    && t == Move(s, i, Done(s.clients[i].phase.ok)).(lock := None)
  }

  /** A client dies anywhere; the kernel drops its lock, its temp file stays. */
  ghost predicate Die(s: Sys, t: Sys, i: nat) {
    i < |s.clients| && t == Move(s, i, Dead).(lock := if s.lock == Some(i) then None else s.lock)
  }

  function Lost(f: File): File {
    if f.synced then f else f.(complete := false)
  }

  /** Power loss: every client dies, files not on disk are torn, and the last few renames not on disk may
      be undone. */
  ghost predicate PowerLoss(s: Sys, t: Sys, undone: nat) {
    && undone <= |s.replaced| && undone <= |s.log|
    && t == s.(
         lock := None, replaced := [],
         roster := Lost(if undone == 0 then s.roster else s.replaced[|s.replaced| - undone]),
         temps := map i | i in s.temps :: Lost(s.temps[i]),
         clients := seq(|s.clients|, i requires 0 <= i < |s.clients| => s.clients[i].(phase := Dead)),
         log := s.log[..|s.log| - undone])
  }

  /** A new client arrives and starts to wait. */
  ghost predicate Arrive(s: Sys, t: Sys, op: Op) {
    t == s.(clients := s.clients + [Client(op, Waiting(s.now + WAIT))])
  }

  ghost predicate Tick(s: Sys, t: Sys) {
    t == s.(now := s.now + 1)
  }

  ghost predicate ClientStep(r: Rules, s: Sys, t: Sys, i: nat) {
    Lock(s, t, i) || GiveUp(s, t, i) || ReadEdit(r, s, t, i) || CreateTemp(s, t, i) || Write(s, t, i)
    || Sync(s, t, i) || Rename(s, t, i) || WriteFails(s, t, i) || Unlock(s, t, i) || Die(s, t, i)
  }

  ghost predicate Step(r: Rules, s: Sys, t: Sys) {
    Tick(s, t) || DirSync(s, t) || (exists op :: Arrive(s, t, op)) || (exists n :: PowerLoss(s, t, n))
    || exists i :: ClientStep(r, s, t, i)
  }

  // --- the invariant ---

  ghost predicate WholeFile(f: File) {
    f.complete && f.synced
  }

  /** What a client in the critical section knows. */
  ghost predicate ClientOk(r: Rules, s: Sys, i: nat)
    requires i < |s.clients|
  {
    var p := s.clients[i].phase;
    && (Held(p) <==> s.lock == Some(i))
    && (p.Edited? || p.Created? || p.Written? || p.Synced? ==>
          p.read == s.roster.doc && Next(p.read, s.clients[i].op) == Ok(p.next) && r.accepts(p.next))
    && (p.Created? ==> i in s.temps && s.temps[i].doc == p.next)
    && (p.Written? ==> i in s.temps && s.temps[i].doc == p.next && s.temps[i].complete)
    && (p.Synced? ==> i in s.temps && s.temps[i].doc == p.next && WholeFile(s.temps[i]))
  }

  /** Whole, accepted, and what the first n committed edits made of the first document. */
  ghost predicate Commits(r: Rules, first: Doc, log: seq<Op>, n: nat, f: File)
    requires n <= |log|
  {
    WholeFile(f) && r.accepts(f.doc) && f.doc == Fold(first, log[..n])
  }

  /** The roster holds every committed edit; so did the files it replaced, one edit earlier each, for as
      long as power loss can bring them back. */
  ghost predicate Inv(r: Rules, first: Doc, s: Sys) {
    && Commits(r, first, s.log, |s.log|, s.roster) && |s.replaced| <= |s.log|
    && (forall k :: 0 <= k < |s.replaced| ==> Commits(r, first, s.log, |s.log| - |s.replaced| + k, s.replaced[k]))
    && (s.lock.Some? ==> s.lock.value < |s.clients|)
    && forall i :: 0 <= i < |s.clients| ==> ClientOk(r, s, i)
  }

  lemma RosterIs(r: Rules, first: Doc, s: Sys)
    requires Inv(r, first, s)
    ensures s.roster.complete && r.accepts(s.roster.doc) && s.roster.doc == Fold(first, s.log)
  {
    assert s.log[..|s.log|] == s.log;
  }

  lemma LockStep(r: Rules, first: Doc, s: Sys, t: Sys, i: nat)
    requires Inv(r, first, s) && (Lock(s, t, i) || GiveUp(s, t, i) || Unlock(s, t, i) || Die(s, t, i))
    ensures Inv(r, first, t)
  {
    forall j | 0 <= j < |t.clients| ensures ClientOk(r, t, j) {
      assert ClientOk(r, s, j);
    }
  }

  lemma ReadEditSelf(r: Rules, first: Doc, s: Sys, t: Sys, i: nat)
    requires Inv(r, first, s) && ReadEdit(r, s, t, i)
    ensures |t.clients| == |s.clients| && ClientOk(r, t, i)
    ensures t == s.(clients := t.clients)
  {
    assert ClientOk(r, s, i);
  }

  lemma ReadEditOther(r: Rules, first: Doc, s: Sys, t: Sys, i: nat, j: nat)
    requires Inv(r, first, s) && ReadEdit(r, s, t, i) && j < |s.clients| && j != i
    ensures |t.clients| == |s.clients| && ClientOk(r, t, j)
  {
    assert ClientOk(r, s, j) && t.clients[j] == s.clients[j];
  }

  lemma ReadEditStep(r: Rules, first: Doc, s: Sys, t: Sys, i: nat)
    requires Inv(r, first, s) && ReadEdit(r, s, t, i)
    ensures Inv(r, first, t)
  {
    ReadEditSelf(r, first, s, t, i);
    forall j | 0 <= j < |t.clients| && j != i ensures ClientOk(r, t, j) {
      ReadEditOther(r, first, s, t, i, j);
    }
  }

  lemma WriteStep(r: Rules, first: Doc, s: Sys, t: Sys, i: nat)
    requires Inv(r, first, s) && (CreateTemp(s, t, i) || Write(s, t, i) || Sync(s, t, i) || WriteFails(s, t, i))
    ensures Inv(r, first, t)
  {
    assert ClientOk(r, s, i) && ClientOk(r, t, i);
    forall j | 0 <= j < |t.clients| && j != i ensures ClientOk(r, t, j) {
      assert ClientOk(r, s, j) && t.clients[j] == s.clients[j];
    }
  }

  lemma RenamedLog(r: Rules, first: Doc, s: Sys, t: Sys, i: nat)
    requires Inv(r, first, s) && Rename(s, t, i)
    ensures t.log[..|t.log| - 1] == s.log == s.log[..|s.log|] && t.log[..|t.log|] == t.log
    ensures |t.replaced| <= |t.log|
    ensures forall k :: 0 <= k < |t.replaced| ==> Commits(r, first, t.log, |t.log| - |t.replaced| + k, t.replaced[k])
  {
    assert t.log[..|t.log| - 1] == s.log == s.log[..|s.log|] && t.log[..|t.log|] == t.log;
    forall k | 0 <= k < |t.replaced| ensures Commits(r, first, t.log, |t.log| - |t.replaced| + k, t.replaced[k]) {
      var n := |t.log| - |t.replaced| + k;
      assert t.log[..n] == s.log[..n];
    }
  }

  lemma RenameStep(r: Rules, first: Doc, s: Sys, t: Sys, i: nat)
    requires Inv(r, first, s) && Rename(s, t, i)
    ensures Inv(r, first, t)
  {
    assert ClientOk(r, s, i);
    RenamedLog(r, first, s, t, i);
    forall j | 0 <= j < |t.clients| ensures ClientOk(r, t, j) {
      assert ClientOk(r, s, j);
    }
  }

  lemma PowerStep(r: Rules, first: Doc, s: Sys, t: Sys, undone: nat)
    requires Inv(r, first, s) && PowerLoss(s, t, undone)
    ensures Inv(r, first, t)
  {
    assert t.log[..|t.log|] == s.log[..|t.log|];
    if undone > 0 {
      assert Commits(r, first, s.log, |s.log| - undone, s.replaced[|s.replaced| - undone]);
    }
    forall j | 0 <= j < |t.clients| ensures ClientOk(r, t, j) {}
  }

  lemma ArriveStep(r: Rules, first: Doc, s: Sys, t: Sys, op: Op)
    requires Inv(r, first, s) && (Arrive(s, t, op) || Tick(s, t) || DirSync(s, t))
    ensures Inv(r, first, t)
  {
    forall j | 0 <= j < |t.clients| ensures ClientOk(r, t, j) {
      if j < |s.clients| { assert ClientOk(r, s, j); }
    }
  }

  /** Every step of the system keeps the invariant. */
  lemma StepKeeps(r: Rules, first: Doc, s: Sys, t: Sys)
    requires Inv(r, first, s) && Step(r, s, t)
    ensures Inv(r, first, t)
  {
    if op :| Arrive(s, t, op) {
      ArriveStep(r, first, s, t, op);
    } else if Tick(s, t) || DirSync(s, t) {
      ArriveStep(r, first, s, t, Add("", ""));
    } else if n :| PowerLoss(s, t, n) {
      PowerStep(r, first, s, t, n);
    } else {
      var i :| ClientStep(r, s, t, i);
      if Rename(s, t, i) { RenameStep(r, first, s, t, i); }
      else if ReadEdit(r, s, t, i) { ReadEditStep(r, first, s, t, i); }
      else if Lock(s, t, i) || GiveUp(s, t, i) || Unlock(s, t, i) || Die(s, t, i) { LockStep(r, first, s, t, i); }
      else { WriteStep(r, first, s, t, i); }
    }
  }

  // --- runs ---

  ghost predicate Starts(r: Rules, first: Doc, s: Sys) {
    r.accepts(first) && s == Sys(s.now, None, File(first, true, true), [], map[], [], [])
  }

  ghost predicate Trace(r: Rules, first: Doc, ss: seq<Sys>) {
    ss != [] && Starts(r, first, ss[0]) && forall k :: 0 <= k < |ss| - 1 ==> Step(r, ss[k], ss[k + 1])
  }

  lemma {:induction false} TraceKeeps(r: Rules, first: Doc, ss: seq<Sys>, k: nat)
    requires Trace(r, first, ss) && k < |ss|
    ensures Inv(r, first, ss[k])
  {
    if k > 0 {
      TraceKeeps(r, first, ss, k - 1);
      StepKeeps(r, first, ss[k - 1], ss[k]);
    }
  }

  /** In every interleaving the roster is a complete, accepted document: the committed edits, in commit
      order, applied to the first one. */
  lemma AlwaysWhole(r: Rules, first: Doc, ss: seq<Sys>, k: nat)
    requires Trace(r, first, ss) && k < |ss|
    ensures ss[k].roster.complete && r.accepts(ss[k].roster.doc) && ss[k].roster.doc == Fold(first, ss[k].log)
  {
    TraceKeeps(r, first, ss, k);
    RosterIs(r, first, ss[k]);
  }

  /** At most one client is in the critical section. */
  lemma Exclusive(r: Rules, first: Doc, ss: seq<Sys>, k: nat, i: nat, j: nat)
    requires Trace(r, first, ss) && k < |ss| && i < |ss[k].clients| && j < |ss[k].clients|
    requires Held(ss[k].clients[i].phase) && Held(ss[k].clients[j].phase)
    ensures i == j
  {
    TraceKeeps(r, first, ss, k);
    assert ClientOk(r, ss[k], i) && ClientOk(r, ss[k], j);
  }

  // --- each membership is decided by its last committed edit ---

  /** The last committed edit of a membership, if there is one. */
  function Last(log: seq<Op>, group: Name, user: Name): Option<Op>
    decreases |log|
  {
    if log == [] then None
    else
      var op := log[|log| - 1];
      if op.group == group && op.user == user then Some(op) else Last(log[..|log| - 1], group, user)
  }

  /** Along the log every edit found a document it could edit. */
  ghost predicate Sound(first: Doc, log: seq<Op>) {
    forall k :: 0 <= k < |log| ==> Next(Fold(first, log[..k]), log[k]).Ok?
  }

  lemma {:induction false} FoldDecides(first: Doc, log: seq<Op>, group: Name, user: Name)
    requires Loadable(first.groups) && Sound(first, log)
    ensures Loadable(Fold(first, log).groups)
    ensures In(Fold(first, log).groups, group, user) <==>
              match Last(log, group, user) case Some(op) => op.Add? case None => In(first.groups, group, user)
    decreases |log|
  {
    if log != [] {
      var n := |log| - 1;
      SoundPrefix(first, log, n);
      FoldDecides(first, log[..n], group, user);
      assert Next(Fold(first, log[..n]), log[n]).Ok?;
      EditedExact(Fold(first, log[..n]).groups, log[n], group, user);
    }
  }

  ghost predicate SoundLog(r: Rules, first: Doc, s: Sys) {
    Inv(r, first, s) && Sound(first, s.log)
  }

  /** A step leaves the log, appends the edit of a client that renames, or takes the last few edits back. */
  lemma LogStep(r: Rules, s: Sys, t: Sys)
    requires Step(r, s, t)
    ensures t.log == s.log || (exists i: nat :: Rename(s, t, i)) || t.log <= s.log
  {
    if i :| ClientStep(r, s, t, i) && !Rename(s, t, i) {
      assert t.log == s.log;
    }
  }

  lemma SoundAppend(first: Doc, log: seq<Op>, op: Op)
    requires Sound(first, log) && Next(Fold(first, log), op).Ok?
    ensures Sound(first, log + [op])
  {
    var next := log + [op];
    forall k | 0 <= k < |next| ensures Next(Fold(first, next[..k]), next[k]).Ok? {
      assert next[..k] == log[..k];
      if k == |log| { assert log[..k] == log; }
    }
  }

  lemma SoundPrefix(first: Doc, log: seq<Op>, n: nat)
    requires Sound(first, log) && n <= |log|
    ensures Sound(first, log[..n])
  {
    forall k | 0 <= k < n ensures Next(Fold(first, log[..n][..k]), log[..n][k]).Ok? {
      assert log[..n][..k] == log[..k];
      assert Next(Fold(first, log[..k]), log[k]).Ok?;
    }
  }

  lemma SoundStep(r: Rules, first: Doc, s: Sys, t: Sys)
    requires SoundLog(r, first, s) && Step(r, s, t)
    ensures SoundLog(r, first, t)
  {
    StepKeeps(r, first, s, t);
    LogStep(r, s, t);
    if i: nat :| Rename(s, t, i) {
      CommitSound(r, first, s, t, i);
    } else {
      assert t.log == s.log[..|t.log|];
      SoundPrefix(first, s.log, |t.log|);
    }
  }

  lemma CommitSound(r: Rules, first: Doc, s: Sys, t: Sys, i: nat)
    requires SoundLog(r, first, s) && Rename(s, t, i)
    ensures Sound(first, t.log)
  {
    assert ClientOk(r, s, i);
    RosterIs(r, first, s);
    SoundAppend(first, s.log, s.clients[i].op);
  }

  lemma {:induction false} TraceSound(r: Rules, first: Doc, ss: seq<Sys>, k: nat)
    requires Trace(r, first, ss) && k < |ss|
    ensures SoundLog(r, first, ss[k])
  {
    if k > 0 {
      TraceSound(r, first, ss, k - 1);
      SoundStep(r, first, ss[k - 1], ss[k]);
    } else {
      TraceKeeps(r, first, ss, 0);
    }
  }

  /** In every run, who is in which group is what the last committed edit of that membership said, and
      where there is none, what the first document said: no committed edit is ever lost. */
  lemma LastEditDecides(r: Rules, first: Doc, ss: seq<Sys>, k: nat, group: Name, user: Name)
    requires Strict(r) && Trace(r, first, ss) && k < |ss|
    ensures In(ss[k].roster.doc.groups, group, user) <==>
              match Last(ss[k].log, group, user) case Some(op) => op.Add? case None => In(first.groups, group, user)
  {
    TraceSound(r, first, ss, k);
    RosterIs(r, first, ss[k]);
    FoldDecides(first, ss[k].log, group, user);
  }

  lemma Decided(d: Doc, op: Op, group: Name, user: Name)
    requires Loadable(d.groups) && Next(d, op).Ok?
    ensures In(Next(d, op).value.groups, group, user) <==>
              if group == op.group && user == op.user then op.Add? else In(d.groups, group, user)
  {
    EditedExact(d.groups, op, group, user);
  }

  lemma OnlyRename(r: Rules, s: Sys, t: Sys, i: nat)
    requires i < |s.clients| && i < |t.clients| && ClientStep(r, s, t, i) && !ReadEdit(r, s, t, i)
    requires s.clients[i].phase != Leaving(true) && t.clients[i].phase == Leaving(true)
    ensures Rename(s, t, i)
  {
  }

  lemma Succeeds(r: Rules, first: Doc, s: Sys, t: Sys, i: nat)
    requires i < |s.clients| && i < |t.clients| && Inv(r, first, s) && ClientStep(r, s, t, i)
    requires s.clients[i].phase != Leaving(true) && t.clients[i].phase == Leaving(true)
    ensures Next(s.roster.doc, s.clients[i].op) == Ok(t.roster.doc)
  {
    assert ClientOk(r, s, i);
    if ReadEdit(r, s, t, i) {
      assert t.roster == s.roster;
    } else {
      OnlyRename(r, s, t, i);
    }
  }

  /** A client that succeeds leaves, at that moment, the membership as it asked, and only that one. */
  lemma SuccessMeans(r: Rules, first: Doc, s: Sys, t: Sys, i: nat, group: Name, user: Name)
    requires i < |s.clients| && i < |t.clients| && Strict(r) && Inv(r, first, s) && ClientStep(r, s, t, i)
    requires s.clients[i].phase != Leaving(true) && t.clients[i].phase == Leaving(true)
    ensures var op := s.clients[i].op;
            In(t.roster.doc.groups, group, user) <==>
              if group == op.group && user == op.user then op.Add? else In(s.roster.doc.groups, group, user)
  {
    Succeeds(r, first, s, t, i);
    Decided(s.roster.doc, s.clients[i].op, group, user);
  }

  // --- how long a client waits ---

  /** Client i came with step j of the run. */
  ghost predicate Arrived(ss: seq<Sys>, i: nat, j: nat) {
    j + 1 < |ss| && |ss[j].clients| == i && |ss[j + 1].clients| == i + 1
  }

  /** Who waits has just come, or waited before, for the same deadline. */
  lemma StillWaits(r: Rules, s: Sys, t: Sys, i: nat)
    requires Step(r, s, t) && i < |t.clients| && t.clients[i].phase.Waiting?
    ensures if i < |s.clients| then s.clients[i].phase == t.clients[i].phase
            else i == |s.clients| && |t.clients| == i + 1 && t.clients[i].phase.deadline == s.now + 5000
  {
  }

  /** Who waits in the k-th state waited before for the same deadline, or has just come. */
  ghost predicate WaitedBefore(ss: seq<Sys>, k: nat, i: nat)
    requires 0 < k < |ss| && i < |ss[k].clients| && ss[k].clients[i].phase.Waiting?
  {
    if i < |ss[k - 1].clients| then ss[k - 1].clients[i].phase == ss[k].clients[i].phase
    else Arrived(ss, i, k - 1) && ss[k].clients[i].phase.deadline == ss[k - 1].now + 5000
  }

  ghost predicate AllWaited(ss: seq<Sys>) {
    forall k: nat, i: nat :: 0 < k < |ss| && i < |ss[k].clients| && ss[k].clients[i].phase.Waiting? ==>
      WaitedBefore(ss, k, i)
  }

  lemma TraceWaits(r: Rules, first: Doc, ss: seq<Sys>)
    requires Trace(r, first, ss)
    ensures AllWaited(ss) && |ss[0].clients| == 0
  {
    forall k: nat, i: nat | 0 < k < |ss| && i < |ss[k].clients| && ss[k].clients[i].phase.Waiting?
      ensures WaitedBefore(ss, k, i)
    {
      assert Step(r, ss[k - 1], ss[k - 1 + 1]);
      StillWaits(r, ss[k - 1], ss[k], i);
    }
  }

  lemma {:induction false} WaitsSince(ss: seq<Sys>, k: nat, i: nat) returns (j: nat)
    requires |ss| > 0 && |ss[0].clients| == 0 && AllWaited(ss)
    requires k < |ss| && i < |ss[k].clients| && ss[k].clients[i].phase.Waiting?
    ensures j < k && Arrived(ss, i, j) && ss[k].clients[i].phase.deadline == ss[j].now + 5000
  {
    assert WaitedBefore(ss, k, i);
    if i < |ss[k - 1].clients| {
      j := WaitsSince(ss, k - 1, i);
    } else {
      j := k - 1;
    }
  }

  lemma OnlyGivesUp(r: Rules, s: Sys, t: Sys, i: nat)
    requires Step(r, s, t) && i < |s.clients| && i < |t.clients|
    requires s.clients[i].phase.Waiting? && t.clients[i].phase.Done?
    ensures GiveUp(s, t, i)
  {
  }

  /** A client gives up waiting only while somebody else has the lock, and not before it has waited for five
      seconds; and then it reports no success. */
  lemma GivesUpLate(r: Rules, first: Doc, ss: seq<Sys>, k: nat, i: nat) returns (j: nat)
    requires Trace(r, first, ss) && k + 1 < |ss| && i < |ss[k].clients| && i < |ss[k + 1].clients|
    requires ss[k].clients[i].phase.Waiting? && ss[k + 1].clients[i].phase.Done?
    ensures ss[k].lock.Some? && ss[k].lock != Some(i) && !ss[k + 1].clients[i].phase.ok
    ensures j < k && Arrived(ss, i, j) && ss[k].now > ss[j].now + 5000
  {
    TraceKeeps(r, first, ss, k);
    assert ClientOk(r, ss[k], i);
    OnlyGivesUp(r, ss[k], ss[k + 1], i);
    TraceWaits(r, first, ss);
    j := WaitsSince(ss, k, i);
  }
}
