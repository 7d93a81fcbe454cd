/** Every figure of the statistics written out: sums over the gaps between probes and
    counts of probes, with no running total. */
module UptimeFigures {
  import opened UptimeTrace
  import opened UptimeRefinement
  import opened UptimeProperties
  import opened UptimeOutages

  // ---- Sums over gaps -----------------------------------------------------------------------

  function Sum(xs: seq<real>): real {
    if xs == [] then 0.0 else Sum(xs[..|xs| - 1]) + xs[|xs| - 1]
  }

  /** The gap that probe `i` opens, cut off at `cap`, when `i` is chosen. */
  function GapIf(t: seq<Probe>, cap: real, chosen: set<nat>, i: nat): real
    requires i + 1 < |t|
  {
    if i !in chosen then 0.0
    else if t[i + 1].ts - t[i].ts <= cap then t[i + 1].ts - t[i].ts
    else cap
  }

  function Gaps(t: seq<Probe>, cap: real, chosen: set<nat>): seq<real> {
    if t == [] then []
    else seq(|t| - 1, i requires 0 <= i < |t| - 1 => GapIf(t, cap, chosen, i))
  }

  /** Total of the gaps opened by the chosen probes. */
  function Total(t: seq<Probe>, cap: real, chosen: set<nat>): real { Sum(Gaps(t, cap, chosen)) }

  lemma GapsPrefix(t: seq<Probe>, cap: real, chosen: set<nat>)
    requires |t| >= 2
    ensures var n := |t| - 1;
            Gaps(t, cap, chosen) == Gaps(t[..n], cap, chosen) + [GapIf(t, cap, chosen, n - 1)]
  {
  }

  lemma {:induction false} SecondsTotal(t: seq<Probe>, cap: real, span: Span, kind: Kind, chosen: set<nat>)
    requires Ordered(t) && cap > 0.0
    requires forall i :: 0 <= i < |t| - 1 ==> (i in chosen <==> InSpan(span, t[i + 1].ts) && OfKind(kind, t[i]))
    ensures Seconds(t, cap, span, kind) == Total(t, cap, chosen)
  {
    if |t| >= 2 {
      var n := |t| - 1;
      var u := t[..n];
      OrderedPrefix(t);
      forall i | 0 <= i < |u| - 1
        ensures i in chosen <==> InSpan(span, u[i + 1].ts) && OfKind(kind, u[i])
      {
        assert u[i] == t[i] && u[i + 1] == t[i + 1];
      }
      SecondsTotal(u, cap, span, kind, chosen);
      GapsPrefix(t, cap, chosen);
      var xs := Gaps(t, cap, chosen);
      assert xs[..|xs| - 1] == Gaps(u, cap, chosen);
    }
  }

  // ---- Counts -----------------------------------------------------------------------------------

  lemma {:induction false} ProbesCount(t: seq<Probe>, span: Span, healthy: bool, chosen: set<nat>)
    requires forall i: nat :: i in chosen <==> i < |t| && InSpan(span, t[i].ts) && t[i].healthy == healthy
    ensures Probes(t, span, healthy) == |chosen|
  {
    if t == [] {
      assert chosen == {};
    } else {
      var n: nat := |t| - 1;
      assert forall i :: 0 <= i < n ==> t[..n][i] == t[i];
      ProbesCount(t[..n], span, healthy, chosen - {n});
    }
  }

  /** Probe `e` was healthy and ended a failure streak. */
  predicate Ends(t: seq<Probe>, e: nat) { 0 < e < |t| && t[e].healthy && !t[e - 1].healthy }

  lemma {:induction false} RunsCount(t: seq<Probe>, chosen: set<nat>)
    requires forall e: nat :: e in chosen <==> Ends(t, e)
    ensures |ClosedRuns(t)| == |chosen|
  {
    if |t| < 2 {
      assert chosen == {};
    } else {
      var n: nat := |t| - 1;
      assert forall i :: 0 <= i < n ==> t[..n][i] == t[i];
      RunsCount(t[..n], chosen - {n});
    }
  }

  lemma {:induction false} ClosedCount(t: seq<Probe>, d: int, chosen: set<nat>)
    requires forall e: nat :: e in chosen <==> Ends(t, e) && Day(t[e].ts) == d
    ensures ClosedOn(t, ClosedRuns(t), d) == |chosen|
  {
    if t == [] {
      assert chosen == {};
    } else {
      hide ClosedRuns, ClosedOn, LongestOn;
      var n: nat := |t| - 1;
      var u := t[..n];
      assert u + [t[n]] == t;
      ClosingsOfNext(u, t[n], d);
      CutOne(t, d, chosen);
      ClosedCount(u, d, chosen - {n});
    }
  }

  lemma CutOne(t: seq<Probe>, d: int, chosen: set<nat>)
    requires t != [] && forall e: nat :: e in chosen <==> Ends(t, e) && Day(t[e].ts) == d
    ensures var n: nat := |t| - 1;
            && (forall e: nat :: e in chosen - {n} <==> Ends(t[..n], e) && Day(t[..n][e].ts) == d)
            && |chosen| == |chosen - {n}| + if Ends(t, n) && Day(t[n].ts) == d then 1 else 0
  {
    var n: nat := |t| - 1;
    forall e: nat ensures e in chosen - {n} <==> Ends(t[..n], e) && Day(t[..n][e].ts) == d {
      assert e < n ==> t[..n][e] == t[e] && (e > 0 ==> t[..n][e - 1] == t[e - 1]);
    }
  }

  /** The longest outage of a day is one of them, or 0 when there is none. */
  lemma {:induction false} LongestExact(t: seq<Probe>, runs: seq<Interval>, d: int)
    requires Inside(t, runs) && Ordered(t)
    ensures forall r :: r in runs && Day(t[r.e].ts) == d ==> Duration(t, r) <= LongestOn(t, runs, d)
    ensures LongestOn(t, runs, d) == 0.0
            || exists r :: r in runs && Day(t[r.e].ts) == d && Duration(t, r) == LongestOn(t, runs, d)
  {
    if runs != [] {
      var n := |runs| - 1;
      LongestExact(t, runs[..n], d);
      assert forall r :: r in runs <==> r in runs[..n] || r == runs[n];
    }
  }

  // ---- The figures ---------------------------------------------------------------------------------

  function HealthyOnes(t: seq<Probe>): set<nat> { set i: nat | i < |t| && t[i].healthy }

  function FailedOnes(t: seq<Probe>): set<nat> { set i: nat | i < |t| && !t[i].healthy }

  function OnDay(t: seq<Probe>, d: int): set<nat> { set i: nat | i < |t| && Day(t[i].ts) == d }

  predicate NextOn(t: seq<Probe>, i: nat, d: int) { i + 1 < |t| && Day(t[i + 1].ts) == d }

  /** The probes whose gap was closed on day `d`. */
  function ClosedBy(t: seq<Probe>, d: int): set<nat> { set i: nat | i < |t| && NextOn(t, i, d) }

  function Endings(t: seq<Probe>): set<nat> { set e: nat | e < |t| && Ends(t, e) }

  lemma AllSecondsTotal(t: seq<Probe>, cap: real)
    requires Ordered(t) && cap > 0.0
    ensures Seconds(t, cap, All, Up) == Total(t, cap, HealthyOnes(t))
    ensures Seconds(t, cap, All, Down) == Total(t, cap, FailedOnes(t))
    ensures Seconds(t, cap, All, Monitored) == Total(t, cap, HealthyOnes(t) + FailedOnes(t))
  {
    assert forall i :: 0 <= i < |t| ==> (i in HealthyOnes(t) <==> OfKind(Up, t[i]));
    assert forall i :: 0 <= i < |t| ==> (i in FailedOnes(t) <==> OfKind(Down, t[i]));
    assert forall i :: 0 <= i < |t| ==> InSpan(All, t[i].ts) && OfKind(Monitored, t[i]);
    hide InSpan, OfKind, Ordered, Seconds, Total;
    SecondsTotal(t, cap, All, Up, HealthyOnes(t));
    SecondsTotal(t, cap, All, Down, FailedOnes(t));
    SecondsTotal(t, cap, All, Monitored, HealthyOnes(t) + FailedOnes(t));
  }

  /** The lifetime counters: up seconds are the gaps after healthy probes, down seconds those
      after failed ones, each cut off at the cap; outages are the recoveries. */
  lemma LifetimeFigures(lim: Limits, ops: seq<Op>)
    requires Legal(lim, ops)
    ensures var t, lt := ProbesOf(ops), Run(lim, ops).lifetime;
            && lt.up == Total(t, lim.cap, HealthyOnes(t)) && lt.down == Total(t, lim.cap, FailedOnes(t))
            && lt.monitored == Total(t, lim.cap, HealthyOnes(t) + FailedOnes(t))
            && lt.probesOk == |HealthyOnes(t)| && lt.probesFail == |FailedOnes(t)|
            && lt.outages == |Endings(t)|
  {
    hide Run, ProbesOf, MarksOf, Seconds, Probes, ClosedRuns, AlertedOutages, Total;
    var t := ProbesOf(ops);
    RunFigures(lim, ops);
    AllSecondsTotal(t, lim.cap);
    ProbesCount(t, All, true, HealthyOnes(t));
    ProbesCount(t, All, false, FailedOnes(t));
    RunsCount(t, Endings(t));
  }

  /** The row of a day: the gaps closed on it, its probes, the recoveries on it, and the
      longest of the streaks they ended. */
  lemma RowFigures(lim: Limits, ops: seq<Op>, d: int)
    requires Legal(lim, ops) && d in Run(lim, ops).daily
    ensures var t, row := ProbesOf(ops), Run(lim, ops).daily[d];
            && row.up == Total(t, lim.cap, HealthyOnes(t) * ClosedBy(t, d))
            && row.down == Total(t, lim.cap, FailedOnes(t) * ClosedBy(t, d))
            && row.monitored == Total(t, lim.cap, ClosedBy(t, d))
            && row.ok == |HealthyOnes(t) * OnDay(t, d)| && row.fail == |FailedOnes(t) * OnDay(t, d)|
            && row.outages == |Endings(t) * OnDay(t, d)|
            && (forall r :: MaximalRun(t, r) && Day(t[r.e].ts) == d ==> t[r.e].ts - t[r.s].ts <= row.longest)
            && (row.longest == 0.0
                || exists r :: MaximalRun(t, r) && Day(t[r.e].ts) == d && t[r.e].ts - t[r.s].ts == row.longest)
  {
    hide Run, ProbesOf, KeptDays, LifetimeOf, Seconds, Probes, ClosedRuns, ClosedOn, LongestOn, Total, MaximalRun;
    var t := ProbesOf(ops);
    RunFigures(lim, ops);
    SecondsTotal(t, lim.cap, Days(d, d), Up, HealthyOnes(t) * ClosedBy(t, d));
    SecondsTotal(t, lim.cap, Days(d, d), Down, FailedOnes(t) * ClosedBy(t, d));
    SecondsTotal(t, lim.cap, Days(d, d), Monitored, ClosedBy(t, d));
    ProbesCount(t, Days(d, d), true, HealthyOnes(t) * OnDay(t, d));
    ProbesCount(t, Days(d, d), false, FailedOnes(t) * OnDay(t, d));
    ClosedCount(t, d, Endings(t) * OnDay(t, d));
    LongestOfDay(t, d);
  }

  lemma LongestOfDay(t: seq<Probe>, d: int)
    requires Ordered(t)
    ensures var longest := LongestOn(t, ClosedRuns(t), d);
            && (forall r :: MaximalRun(t, r) && Day(t[r.e].ts) == d ==> t[r.e].ts - t[r.s].ts <= longest)
            && (longest == 0.0
                || exists r :: MaximalRun(t, r) && Day(t[r.e].ts) == d && t[r.e].ts - t[r.s].ts == longest)
  {
    hide ClosedRuns, LongestOn, MaximalRun;
    var runs := ClosedRuns(t);
    LongestExact(t, runs, d);
    forall r ensures r in runs <==> MaximalRun(t, r) {
      ClosedRunsExact(t, r);
    }
  }
}
