/** `main` of watchdog/watchdog.py: one process of the watchdog, over any finite number of
    ticks, with the statistics it keeps and the notifications it sends. */
module Watchdog {
  import opened Common
  import opened UptimeTrace
  import opened UptimeStats
  import opened UptimeRefinement
  import opened AlertHistory

  /** All probes so far: those of earlier processes, then the first `n` of this one. */
  function Trace(t0: seq<Probe>, ticks: seq<Tick>, n: nat): (t: seq<Probe>)
    requires n <= |ticks|
    ensures |t| == |t0| + n
  {
    if n == 0 then t0 else Trace(t0, ticks, n - 1) + [ticks[n - 1].p]
  }

  ghost predicate Announced(c: Setup, ticks: seq<Tick>, k: nat)
    requires k < |ticks|
  {
    DownAt(c, ticks, k) || NeverUpAt(c, ticks, k)
  }

  ghost function Marks(c: Setup, m0: set<nat>, base: nat, ticks: seq<Tick>, n: nat): set<nat>
    requires n <= |ticks|
  {
    if n == 0 then m0
    else Marks(c, m0, base, ticks, n - 1) + if Announced(c, ticks, n - 1) then {base + n - 1} else {}
  }

  /** The number of DOWN and never-came-up notifications. */
  ghost function Announcements(c: Setup, ticks: seq<Tick>, n: nat): nat
    requires n <= |ticks|
  {
    if n == 0 then 0 else Announcements(c, ticks, n - 1) + if Announced(c, ticks, n - 1) then 1 else 0
  }

  function OpenFails(f: Fields): nat {
    if f.currentOutage.Some? then f.currentOutage.value.downProbes else 0
  }

  /** What the process finds on disk is the record of the probes `t0` and marks `m0`. */
  ghost predicate Begins(c: Setup, lim: Limits, t0: seq<Probe>, m0: set<nat>, ticks: seq<Tick>) {
    && Sane(lim) && Ordered(Trace(t0, ticks, |ticks|)) && MarksIn(t0, m0)
    && c.open == OpenFails(Expected(lim, t0, m0))
  }

  /** The statistics after `n` ticks. */
  ghost function FieldsAt(c: Setup, lim: Limits, t0: seq<Probe>, m0: set<nat>, ticks: seq<Tick>, n: nat): Fields
    requires n <= |ticks|
  {
    Expected(lim, Trace(t0, ticks, n), Marks(c, m0, |t0|, ticks, n))
  }

  lemma {:induction false} TraceOrdered(t0: seq<Probe>, ticks: seq<Tick>, n: nat, m: nat)
    requires n <= m <= |ticks| && Ordered(Trace(t0, ticks, m))
    ensures Ordered(Trace(t0, ticks, n))
  {
    if n < m {
      var t := Trace(t0, ticks, m - 1);
      assert forall i :: 0 <= i < |t| ==> Trace(t0, ticks, m)[i] == t[i];
      TraceOrdered(t0, ticks, n, m - 1);
    }
  }

  lemma {:induction false} MarksInside(c: Setup, t0: seq<Probe>, m0: set<nat>, ticks: seq<Tick>, n: nat)
    requires n <= |ticks| && MarksIn(t0, m0)
    ensures MarksIn(Trace(t0, ticks, n), Marks(c, m0, |t0|, ticks, n))
  {
    if n > 0 {
      MarksInside(c, t0, m0, ticks, n - 1);
    }
  }

  /** One tick of the statistics: record the probe, and mark the outage when announced. */
  lemma FieldsNext(c: Setup, lim: Limits, t0: seq<Probe>, m0: set<nat>, ticks: seq<Tick>, n: nat)
    requires n < |ticks| && Begins(c, lim, t0, m0, ticks)
    ensures var g := ObserveStep(lim, FieldsAt(c, lim, t0, m0, ticks, n), ticks[n].p);
            FieldsAt(c, lim, t0, m0, ticks, n + 1) == if Announced(c, ticks, n) then MarkStep(g) else g
  {
    hide Expected, ObserveStep, MarkStep, Announced;
    var t, marks := Trace(t0, ticks, n), Marks(c, m0, |t0|, ticks, n);
    TraceOrdered(t0, ticks, n + 1, |ticks|);
    MarksInside(c, t0, m0, ticks, n);
    ObserveRefines(lim, t, marks, ticks[n].p);
    MarkRefines(lim, t + [ticks[n].p], marks);
    assert marks + {} == marks;
  }

  lemma ObserveOutage(lim: Limits, f: Fields, p: Probe)
    ensures var g := ObserveStep(lim, f, p);
            && g.lifetime.alertedOutages == f.lifetime.alertedOutages
            && OpenFails(g) == (if p.healthy then 0 else OpenFails(f) + 1)
            && g.currentOutage.Some? == !p.healthy
            && (g.currentOutage.Some? ==>
                  (g.currentOutage.value.alerted <==> f.currentOutage.Some? && f.currentOutage.value.alerted))
            && g.lastHealthy == Some(p.healthy)
  {
    AccountKeepsOutage(lim, f, p.ts);
    hide WithDay;
  }

  /** An open outage has failed probes. */
  lemma OpenHasFails(lim: Limits, t: seq<Probe>, marks: set<nat>)
    ensures Expected(lim, t, marks).currentOutage.Some? <==> OpenFails(Expected(lim, t, marks)) > 0
  {
    hide Records, RowOf, KeptDays, LifetimeOf, LastN, Distinct, SamplesOf;
  }

  ghost predicate AlertedOpen(f: Fields) { f.currentOutage.Some? && f.currentOutage.value.alerted }

  /** The loop's variables and the statistics say the same: `fails` is the open outage's
      count, and every DOWN or never-came-up adds exactly one alerted outage. */
  lemma {:induction false} LoopAgreesWithStats(
    c: Setup, lim: Limits, t0: seq<Probe>, m0: set<nat>, ticks: seq<Tick>, n: nat)
    requires n <= |ticks| && Begins(c, lim, t0, m0, ticks)
    ensures var f := FieldsAt(c, lim, t0, m0, ticks, n);
            && FailsAt(c, ticks, n) == OpenFails(f)
            && f.lifetime.alertedOutages
               == Expected(lim, t0, m0).lifetime.alertedOutages + Announcements(c, ticks, n)
            && (AlertedOpen(f) ==> StateAt(c, ticks, n) == Some(false)
                                   || (StateAt(c, ticks, n).None? && WarnedAt(c, ticks, n)))
  {
    hide Expected, ObserveStep, FailsAt, StateAt, WarnedAt, MailAlert;
    if n == 0 {
      AtStart(c, lim, t0, m0, ticks);
    } else {
      LoopAgreesWithStats(c, lim, t0, m0, ticks, n - 1);
      LoopStep(c, lim, t0, m0, ticks, n - 1);
    }
  }

  lemma AtStart(c: Setup, lim: Limits, t0: seq<Probe>, m0: set<nat>, ticks: seq<Tick>)
    requires Begins(c, lim, t0, m0, ticks)
    ensures FailsAt(c, ticks, 0) == c.open
    ensures AlertedOpen(Expected(lim, t0, m0)) ==> StateAt(c, ticks, 0) == Some(false)
  {
    hide Expected;
    OpenHasFails(lim, t0, m0);
  }

  lemma AnnouncedIs(c: Setup, ticks: seq<Tick>, n: nat)
    requires n < |ticks|
    ensures Announced(c, ticks, n) <==> MailAlert(c, ticks, n) == [Alert.Down] || MailAlert(c, ticks, n) == [NeverUp]
  {
  }

  lemma LoopStep(c: Setup, lim: Limits, t0: seq<Probe>, m0: set<nat>, ticks: seq<Tick>, n: nat)
    requires n < |ticks| && Begins(c, lim, t0, m0, ticks)
    requires var f := FieldsAt(c, lim, t0, m0, ticks, n);
             && FailsAt(c, ticks, n) == OpenFails(f)
             && (AlertedOpen(f) ==> StateAt(c, ticks, n) == Some(false)
                                    || (StateAt(c, ticks, n).None? && WarnedAt(c, ticks, n)))
    ensures var f, g := FieldsAt(c, lim, t0, m0, ticks, n), FieldsAt(c, lim, t0, m0, ticks, n + 1);
            && FailsAt(c, ticks, n + 1) == OpenFails(g)
            && g.lifetime.alertedOutages
               == f.lifetime.alertedOutages + (if Announced(c, ticks, n) then 1 else 0)
            && (AlertedOpen(g) ==> StateAt(c, ticks, n + 1) == Some(false)
                                   || (StateAt(c, ticks, n + 1).None? && WarnedAt(c, ticks, n + 1)))
  {
    hide FieldsAt, ObserveStep, FailsAt, StateAt, WarnedAt, MailAlert, Announced;
    var f := FieldsAt(c, lim, t0, m0, ticks, n);
    FieldsNext(c, lim, t0, m0, ticks, n);
    ObserveOutage(lim, f, ticks[n].p);
    AnnouncedIs(c, ticks, n);
    if ticks[n].p.healthy {
      HealthyTick(c, ticks, n);
    } else {
      FailedTick(c, ticks, n);
    }
  }

  /** The operations on the statistics after the earlier ones: one more process. */
  ghost function OpsOf(c: Setup, earlier: seq<Op>, ticks: seq<Tick>, n: nat): seq<Op>
    requires n <= |ticks|
  {
    if n == 0 then earlier + [Restart]
    else
      OpsOf(c, earlier, ticks, n - 1) + [Observe(ticks[n - 1].p)]
      + if Announced(c, ticks, n - 1) then [Mark] else []
  }

  lemma OneMoreProbe(ops: seq<Op>, op: Op)
    ensures ProbesOf(ops + [op]) == (if op.Observe? then ProbesOf(ops) + [op.p] else ProbesOf(ops))
  {
    assert (ops + [op])[..|ops|] == ops;
    assert ProbesOf(ops) + [] == ProbesOf(ops);
    hide MarksOf;
  }

  lemma OneMoreMark(ops: seq<Op>, op: Op)
    ensures MarksOf(ops + [op])
         == MarksOf(ops) + if op.Mark? && ProbesOf(ops) != [] then {|ProbesOf(ops)| - 1} else {}
  {
    hide ProbesOf;
    assert (ops + [op])[..|ops|] == ops;
  }

  lemma OneMoreOp(ops: seq<Op>, op: Op)
    ensures var t := ProbesOf(ops);
            && ProbesOf(ops + [op]) == (if op.Observe? then t + [op.p] else t)
            && MarksOf(ops + [op]) == MarksOf(ops) + if op.Mark? && t != [] then {|t| - 1} else {}
  {
    hide ProbesOf, MarksOf;
    OneMoreProbe(ops, op);
    OneMoreMark(ops, op);
  }

  lemma {:induction false} OpsMean(c: Setup, earlier: seq<Op>, ticks: seq<Tick>, n: nat)
    requires n <= |ticks|
    ensures ProbesOf(OpsOf(c, earlier, ticks, n)) == Trace(ProbesOf(earlier), ticks, n)
    ensures MarksOf(OpsOf(c, earlier, ticks, n)) == Marks(c, MarksOf(earlier), |ProbesOf(earlier)|, ticks, n)
  {
    hide ProbesOf, MarksOf, Announced;
    if n == 0 {
      OneMoreOp(earlier, Restart);
    } else {
      var ops, op := OpsOf(c, earlier, ticks, n - 1), Observe(ticks[n - 1].p);
      OpsMean(c, earlier, ticks, n - 1);
      OneMoreOp(ops, op);
      if Announced(c, ticks, n - 1) {
        OneMoreOp(ops + [op], Mark);
      } else {
        assert OpsOf(c, earlier, ticks, n) == ops + [op];
        var marks := Marks(c, MarksOf(earlier), |ProbesOf(earlier)|, ticks, n - 1);
        assert marks + {} == marks && MarksOf(ops) + {} == MarksOf(ops);
      }
    }
  }

  /** The statistics of a watchdog process are those of a run of operations, so everything
      proved of such runs holds of them, over any number of processes. */
  lemma ProcessIsRun(c: Setup, lim: Limits, earlier: seq<Op>, ticks: seq<Tick>, n: nat)
    requires n <= |ticks| && Begins(c, lim, ProbesOf(earlier), MarksOf(earlier), ticks)
    ensures FieldsAt(c, lim, ProbesOf(earlier), MarksOf(earlier), ticks, n)
         == Run(lim, OpsOf(c, earlier, ticks, n))
  {
    hide Expected, Run, ProbesOf, MarksOf, Announced;
    TraceOrdered(ProbesOf(earlier), ticks, n, |ticks|);
    OpsMean(c, earlier, ticks, n);
    RunMeansTrace(lim, OpsOf(c, earlier, ticks, n));
  }

  /** The setup of a process that finds these files. */
  function SetupFrom(threshold: int, grace: real, upstream: bool, saved: Option<Saved>, file: seq<Record>): Setup {
    Setup(threshold, grace, upstream, OpenFails(LoadStep(saved, file)))
  }

  /** One process: it sends exactly the notifications the history calls for, and leaves
      files that are the exact record of all probes, ready for the next process. */
  method Watch(
    threshold: int, grace: real, upstream: bool, lim: Limits, saved: Option<Saved>, file: seq<Record>,
    ticks: seq<Tick>, ghost t0: seq<Probe>, ghost m0: set<nat>)
    returns (sent: seq<Alert>, disk: Option<Saved>, newFile: seq<Record>)
    requires LoadStep(saved, file) == Expected(lim, t0, m0)
    requires Begins(SetupFrom(threshold, grace, upstream, saved, file), lim, t0, m0, ticks)
    ensures var c := SetupFrom(threshold, grace, upstream, saved, file);
            && sent == Alerts(c, ticks, |ticks|)
            && LoadStep(disk, newFile) == FieldsAt(c, lim, t0, m0, ticks, |ticks|)
  {
    hide Expected, ObserveStep, MarkStep, Announced, StateAt, FailsAt, WarnedAt, Pending, MailAlert,
         LoadStep, SaveStep, Trace, Marks, Begins, AlertedOpen, Streak, SeenUp, FieldsAt;
    ghost var c := SetupFrom(threshold, grace, upstream, saved, file);
    var stats := new Stats(lim, saved, file);
    var state: Option<bool>, fails, warned := None, 0, false;
    var upstreamState: Option<bool> := None;
    sent, disk := [], saved;
    if stats.currentOutage.Some? {
      state := Some(false);
      fails := stats.currentOutage.value.downProbes;
    }
    StartsAt(c, lim, t0, m0, ticks);
    LoadKeepsFile(saved, file);
    for n := 0 to |ticks|
      invariant fresh(stats) && stats.lim == lim
      invariant stats.View() == FieldsAt(c, lim, t0, m0, ticks, n)
      invariant LoadStep(disk, stats.outagesFile) == stats.View()
      invariant state == StateAt(c, ticks, n) && fails == FailsAt(c, ticks, n) == OpenFails(stats.View())
      invariant warned == WarnedAt(c, ticks, n)
      invariant (upstreamState == Some(false)) == (upstream && Pending(ticks, n))
      invariant sent == Alerts(c, ticks, n)
    {
      var tick := ticks[n];
      ghost var before := stats.View();
      var recovered := stats.Record(tick.p);
      FieldsNext(c, lim, t0, m0, ticks, n);
      AnnouncedIs(c, ticks, n);
      LoopAgreesWithStats(c, lim, t0, m0, ticks, n + 1);
      ObserveOutage(lim, before, tick.p);
      if tick.p.healthy {
        HealthyTick(c, ticks, n);
        if state.None? {
          sent := sent + [Online];
        } else if state == Some(false) {
          sent := sent + [Recovered];
        }
        state, fails := Some(true), 0;
      } else {
        FailedTick(c, ticks, n);
        fails := fails + 1;
        if state == Some(true) && fails >= threshold {
          stats.MarkAlerted();
          sent := sent + [Alert.Down];
          state := Some(false);
        } else if state.None? && !warned && tick.elapsed > grace {
          stats.MarkAlerted();
          sent := sent + [NeverUp];
          warned := true;
        }
      }
      assert sent == Alerts(c, ticks, n) + MailAlert(c, ticks, n);
      var written := stats.Save(tick.p.healthy);
      disk := Some(written);
      MarkKeepsHealth(ObserveStep(lim, before, tick.p));
      SavedLoads(stats.View(), tick.p.healthy);
      PendingNext(ticks, n);
      if upstream {
        if !tick.upOk && upstreamState != Some(false) && tick.p.healthy {
          sent := sent + [UpstreamDown];
          upstreamState := Some(false);
        } else if tick.upOk && upstreamState == Some(false) {
          sent := sent + [UpstreamRestored];
          upstreamState := Some(true);
        } else if tick.upOk {
          upstreamState := Some(true);
        }
      }
    }
    newFile := stats.outagesFile;
  }

  lemma StartsAt(c: Setup, lim: Limits, t0: seq<Probe>, m0: set<nat>, ticks: seq<Tick>)
    requires Begins(c, lim, t0, m0, ticks)
    ensures FieldsAt(c, lim, t0, m0, ticks, 0) == Expected(lim, t0, m0)
    ensures Expected(lim, t0, m0).currentOutage.Some? <==> c.open > 0
    ensures StateAt(c, ticks, 0) == (if c.open > 0 then Some(false) else None) && FailsAt(c, ticks, 0) == c.open
    ensures !WarnedAt(c, ticks, 0) && !Pending(ticks, 0)
  {
    hide Expected;
    OpenHasFails(lim, t0, m0);
  }

  lemma LoadKeepsFile(saved: Option<Saved>, file: seq<Record>)
    ensures LoadStep(saved, file).file == file
  {
  }

  lemma MarkKeepsHealth(f: Fields)
    ensures MarkStep(f).lastHealthy == f.lastHealthy
  {
  }

  lemma SavedLoads(f: Fields, healthy: bool)
    requires f.lastHealthy == Some(healthy)
    ensures LoadStep(Some(SaveStep(f, healthy)), f.file) == f
  {
  }
}
