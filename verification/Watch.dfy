/** The watch loop: polling two files, reloading the configuration in place, and one cycle per change
    (internal/cmd/watch.go). */
module Watch {
  import opened Common

  datatype Mode = Manage | Audit

  /** A configuration as loaded: its mode, its otel section, and everything else. */
  datatype Config = Config(mode: Mode, otel: string, rest: string)

  /** What reading, defaulting, validating and applying the command line make of the file. */
  datatype Load = Rejected | Loaded(cfg: Config)

  /** A signature of a file: "" where there is no file to watch. */
  type Sig = string

  /** One tick: the files' signatures, and what the configuration would load as. */
  datatype Tick = Tick(cfgSig: Sig, rosterSig: Sig, load: Load)

  /** What a tick does; notice: the operator is told that the otel section changed. */
  datatype Report = Idle | Cycled(cfg: Config, notice: bool) | ModeChanged

  /** What the loop remembers. */
  datatype Memory = Memory(cfg: Config, otelAsRead: string, last: Sig, lastCfg: Sig)

  datatype Turn = Turn(memory: Memory, report: Report)

  /** The configuration a reload leaves: the new one with the running otel section, if it is accepted. */
  function Reloaded(m: Memory, load: Load): Memory {
    if load.Rejected? || load.cfg.mode != Manage then m
    else m.(cfg := load.cfg.(otel := m.cfg.otel), otelAsRead := load.cfg.otel)
  }

  predicate Accepted(load: Load) { load.Loaded? && load.cfg.mode == Manage }

  predicate Due(watched: bool, m: Memory, t: Tick) { watched && t.cfgSig != m.lastCfg }

  function TurnOf(watched: bool, m: Memory, t: Tick): Turn {
    if Due(watched, m, t) && t.load.Loaded? && t.load.cfg.mode != Manage then Turn(m.(lastCfg := t.cfgSig), ModeChanged)
    else
      var r := if Due(watched, m, t) then Reloaded(m, t.load).(lastCfg := t.cfgSig) else m;
      var reloaded := Due(watched, m, t) && Accepted(t.load);
      Turn(r.(last := t.rosterSig),
           if reloaded || t.rosterSig != m.last
           then Cycled(r.cfg, reloaded && t.load.cfg.otel != m.otelAsRead) else Idle)
  }

  /** The loop's state, updated in place. */
  class Watcher {
    var cfg: Config
    var otelAsRead: string
    var last: Sig
    var lastCfg: Sig
    const watched: bool

    constructor (c: Config, otel: string, roster: Sig, config: Sig, hasFile: bool)
      ensures Value() == Memory(c, otel, roster, config) && watched == hasFile
    {
      cfg, otelAsRead, last, lastCfg, watched := c, otel, roster, config, hasFile;
    }

    function Value(): Memory
      reads this
    {
      Memory(cfg, otelAsRead, last, lastCfg)
    }

    /** reloadConfig: an accepted configuration replaces the one in use, but for its otel section. */
    method Reload(load: Load) returns (ok: bool, left: bool, otelChanged: bool)
      modifies this`cfg, this`otelAsRead
      ensures ok <==> Accepted(load)
      ensures left <==> load.Loaded? && load.cfg.mode != Manage
      ensures Value() == Reloaded(old(Value()), load)
      ensures otelChanged <==> ok && load.cfg.otel != old(otelAsRead)
    {
      if load.Rejected? { return false, false, false; }
      var nc := load.cfg;
      if nc.mode != Manage { return false, true, false; }
      otelChanged := nc.otel != otelAsRead;
      if otelChanged { otelAsRead := nc.otel; }
      nc := nc.(otel := cfg.otel);
      cfg := nc;
      return true, false, otelChanged;
    }

    /** One tick of the loop. */
    method OnTick(t: Tick) returns (r: Report)
      modifies this
      ensures TurnOf(watched, old(Value()), t) == Turn(Value(), r)
    {
      var changed, notice := false, false;
      if watched && t.cfgSig != lastCfg {
        lastCfg := t.cfgSig;
        var ok, left, otelChanged := Reload(t.load);
        if left { return ModeChanged; }
        if ok { changed, notice := true, otelChanged; }
      }
      if t.rosterSig != last {
        last := t.rosterSig;
        changed := true;
      }
      return if changed then Cycled(cfg, notice) else Idle;
    }
  }

  // --- whole runs ---

  /** The reports of a run, which a configuration that leaves manage mode ends. */
  function Run(watched: bool, m: Memory, ts: seq<Tick>): seq<Report>
    decreases |ts|
  {
    if ts == [] then []
    else
      var t := TurnOf(watched, m, ts[0]);
      [t.report] + if t.report.ModeChanged? then [] else Run(watched, t.memory, ts[1..])
  }

  // --- what a run is, tick by tick, without the loop's memory ---

  /** Tick i finds the configuration file changed since tick i - 1. */
  predicate Tried(watched: bool, m: Memory, ts: seq<Tick>, i: nat)
    requires i < |ts|
  {
    watched && ts[i].cfgSig != if i == 0 then m.lastCfg else ts[i - 1].cfgSig
  }

  /** Tick i reloads the configuration. */
  predicate Reloads(watched: bool, m: Memory, ts: seq<Tick>, i: nat)
    requires i < |ts|
  {
    Tried(watched, m, ts, i) && ts[i].load.Loaded? && ts[i].load.cfg.mode == Manage
  }

  /** Tick i finds a configuration that leaves manage mode. */
  predicate Leaves(watched: bool, m: Memory, ts: seq<Tick>, i: nat)
    requires i < |ts|
  {
    Tried(watched, m, ts, i) && ts[i].load.Loaded? && ts[i].load.cfg.mode != Manage
  }

  predicate RosterChanged(m: Memory, ts: seq<Tick>, i: nat)
    requires i < |ts|
  {
    ts[i].rosterSig != if i == 0 then m.last else ts[i - 1].rosterSig
  }

  /** c is the last configuration accepted at or before tick i, with the otel section of the start; or the
      one the run started with. */
  ghost predicate LastAccepted(watched: bool, m: Memory, ts: seq<Tick>, i: nat, c: Config)
    requires i < |ts|
  {
    && (forall j :: && 0 <= j <= i && Reloads(watched, m, ts, j)
                    && (forall k :: j < k <= i ==> !Reloads(watched, m, ts, k))
                    ==> c == ts[j].load.cfg.(otel := m.cfg.otel))
    && ((forall j :: 0 <= j <= i ==> !Reloads(watched, m, ts, j)) ==> c == m.cfg)
  }

  /** The otel section as last written in a configuration that was accepted before tick i. */
  function OtelBefore(watched: bool, m: Memory, ts: seq<Tick>, i: nat): string
    requires i <= |ts|
  {
    if i == 0 then m.otelAsRead
    else if Reloads(watched, m, ts, i - 1) then ts[i - 1].load.cfg.otel
    else OtelBefore(watched, m, ts, i - 1)
  }

  /** The operator is told exactly when an accepted configuration brings another section than the last one. */
  predicate Notices(watched: bool, m: Memory, ts: seq<Tick>, i: nat)
    requires i < |ts|
  {
    Reloads(watched, m, ts, i) && ts[i].load.cfg.otel != OtelBefore(watched, m, ts, i)
  }

  lemma {:induction false} OtelShifted(watched: bool, m: Memory, ts: seq<Tick>, i: nat)
    requires 0 < i <= |ts| && !Leaves(watched, m, ts, 0)
    ensures OtelBefore(watched, TurnOf(watched, m, ts[0]).memory, ts[1..], i - 1) == OtelBefore(watched, m, ts, i)
    decreases i
  {
    if i > 1 {
      OtelShifted(watched, m, ts, i - 1);
      Shifted(watched, m, ts, i - 1);
    }
  }

  /** One tick later: what is said of the rest of the run is said of the run. */
  lemma Shifted(watched: bool, m: Memory, ts: seq<Tick>, i: nat)
    requires 0 < i < |ts| && !Leaves(watched, m, ts, 0)
    ensures var n := TurnOf(watched, m, ts[0]).memory;
            && (Tried(watched, n, ts[1..], i - 1) <==> Tried(watched, m, ts, i))
            && (RosterChanged(n, ts[1..], i - 1) <==> RosterChanged(m, ts, i))
  {
  }

  lemma LaterAccepted(watched: bool, m: Memory, ts: seq<Tick>, i: nat, c: Config)
    requires 0 < i < |ts| && !Leaves(watched, m, ts, 0)
    requires LastAccepted(watched, TurnOf(watched, m, ts[0]).memory, ts[1..], i - 1, c)
    ensures LastAccepted(watched, m, ts, i, c)
  {
    var n, rest := TurnOf(watched, m, ts[0]).memory, ts[1..];
    forall j | 0 < j <= i ensures Reloads(watched, n, rest, j - 1) <==> Reloads(watched, m, ts, j) {
      Shifted(watched, m, ts, j);
    }
    forall j | 0 <= j <= i && Reloads(watched, m, ts, j) && (forall k :: j < k <= i ==> !Reloads(watched, m, ts, k))
      ensures c == ts[j].load.cfg.(otel := m.cfg.otel)
    {
      forall k | j - 1 < k <= i - 1 && 0 <= k ensures !Reloads(watched, n, rest, k) {
        assert !Reloads(watched, m, ts, k + 1);
      }
      if j > 0 { assert Reloads(watched, n, rest, j - 1) && rest[j - 1] == ts[j]; }
    }
    if forall j :: 0 <= j <= i ==> !Reloads(watched, m, ts, j) {
      forall k | 0 <= k <= i - 1 ensures !Reloads(watched, n, rest, k) { assert !Reloads(watched, m, ts, k + 1); }
      assert !Reloads(watched, m, ts, 0);
    }
  }

  lemma FirstReport(watched: bool, m: Memory, ts: seq<Tick>)
    requires |Run(watched, m, ts)| > 0
    ensures ts != [] && Run(watched, m, ts)[0] == TurnOf(watched, m, ts[0]).report
    ensures Run(watched, m, ts)[0].ModeChanged? <==> Leaves(watched, m, ts, 0)
    ensures Run(watched, m, ts)[0].Cycled? <==>
              !Leaves(watched, m, ts, 0) && (RosterChanged(m, ts, 0) || Reloads(watched, m, ts, 0))
    ensures Run(watched, m, ts)[0].Cycled? ==>
              && LastAccepted(watched, m, ts, 0, Run(watched, m, ts)[0].cfg)
              && (Run(watched, m, ts)[0].notice <==> Notices(watched, m, ts, 0))
  {
  }

  /** Every report of every run: tick i cycles exactly if the roster changed since tick i - 1 or the
      configuration was reloaded at i, and then with the last configuration accepted by then; it ends the
      run exactly on a configuration that leaves manage mode. A rejected reload leaves no trace. A changed
      otel section is announced once per change. */
  lemma {:induction false} RunExact(watched: bool, m: Memory, ts: seq<Tick>, i: nat)
    requires i < |Run(watched, m, ts)|
    ensures i < |ts| && (Run(watched, m, ts)[i].ModeChanged? <==> Leaves(watched, m, ts, i))
    ensures Run(watched, m, ts)[i].Cycled? <==>
              !Leaves(watched, m, ts, i) && (RosterChanged(m, ts, i) || Reloads(watched, m, ts, i))
    ensures Run(watched, m, ts)[i].Cycled? ==>
              && LastAccepted(watched, m, ts, i, Run(watched, m, ts)[i].cfg)
              && (Run(watched, m, ts)[i].notice <==> Notices(watched, m, ts, i))
    decreases i
  {
    if i == 0 {
      FirstReport(watched, m, ts);
    } else {
      var n, rest := TurnOf(watched, m, ts[0]).memory, ts[1..];
      assert Run(watched, m, ts)[i] == Run(watched, n, rest)[i - 1];
      RunExact(watched, n, rest, i - 1);
      Shifted(watched, m, ts, i);
      OtelShifted(watched, m, ts, i);
      if Run(watched, m, ts)[i].Cycled? { LaterAccepted(watched, m, ts, i, Run(watched, m, ts)[i].cfg); }
    }
  }

  /** So no cycle of any run leaves manage mode or the otel section the process started with. */
  lemma CyclesSound(watched: bool, m: Memory, ts: seq<Tick>, i: nat)
    requires m.cfg.mode == Manage && i < |Run(watched, m, ts)| && Run(watched, m, ts)[i].Cycled?
    ensures Run(watched, m, ts)[i].cfg.mode == Manage && Run(watched, m, ts)[i].cfg.otel == m.cfg.otel
  {
    RunExact(watched, m, ts, i);
    if j :| 0 <= j <= i && Reloads(watched, m, ts, j) {
      LatestReload(watched, m, ts, i, j);
    }
  }

  lemma {:induction false} LatestReload(watched: bool, m: Memory, ts: seq<Tick>, i: nat, j: nat)
    requires j <= i < |ts| && Reloads(watched, m, ts, j)
    ensures exists l :: && j <= l <= i && Reloads(watched, m, ts, l)
                        && forall k :: l < k <= i ==> !Reloads(watched, m, ts, k)
    decreases i - j
  {
    if k :| j < k <= i && Reloads(watched, m, ts, k) { LatestReload(watched, m, ts, i, k); }
  }

  /** A configuration that does not load is not tried again until the file changes again. */
  lemma NotRetried(watched: bool, m: Memory, t: Tick, again: Tick)
    requires Due(watched, m, t) && t.load.Rejected? && again.cfgSig == t.cfgSig && again.rosterSig == t.rosterSig
    ensures var n := TurnOf(watched, m, t).memory; TurnOf(watched, n, again) == Turn(n, Idle)
  {
  }

  /** Tick i is reported exactly if no earlier tick leaves manage mode. */
  lemma {:induction false} EndsOnMode(watched: bool, m: Memory, ts: seq<Tick>, i: nat)
    requires i < |ts|
    ensures i < |Run(watched, m, ts)| <==> forall k :: 0 <= k < i ==> !Leaves(watched, m, ts, k)
    decreases i
  {
    if i > 0 && !Leaves(watched, m, ts, 0) {
      var n, rest := TurnOf(watched, m, ts[0]).memory, ts[1..];
      EndsOnMode(watched, n, rest, i - 1);
      forall k | 0 < k < i ensures Leaves(watched, n, rest, k - 1) <==> Leaves(watched, m, ts, k) {
        Shifted(watched, m, ts, k);
      }
      forall k | 0 <= k < i - 1 && !Leaves(watched, m, ts, k + 1) ensures !Leaves(watched, n, rest, k) {
      }
    }
  }

}
