/** The outages on file are exactly the maximal failure streaks of the trace. */
module UptimeOutages {
  import opened Common
  import opened UptimeTrace
  import opened UptimeRefinement
  import opened UptimeProperties

  /** `t[r.s..r.e)` all failed, `t[r.e]` was healthy, and the streak cannot be made longer. */
  ghost predicate MaximalRun(t: seq<Probe>, r: Interval) {
    && r.s < r.e < |t|
    && (forall i :: r.s <= i < r.e ==> !t[i].healthy)
    && t[r.e].healthy
    && (r.s == 0 || t[r.s - 1].healthy)
  }

  lemma MaximalInPrefix(t: seq<Probe>, r: Interval)
    requires t != [] && r.e < |t| - 1
    ensures MaximalRun(t, r) <==> MaximalRun(t[..|t| - 1], r)
  {
    var u := t[..|t| - 1];
    assert forall i :: 0 <= i < |u| ==> u[i] == t[i];
  }

  lemma RunStartUnique(t: seq<Probe>, k: nat, s: nat)
    requires k < |t| && s <= k && (forall i :: s <= i <= k ==> !t[i].healthy) && (s == 0 || t[s - 1].healthy)
    ensures RunStart(t, k) == s
  {
  }

  lemma {:induction false} ClosedRunsExact(t: seq<Probe>, r: Interval)
    ensures r in ClosedRuns(t) <==> MaximalRun(t, r)
  {
    if |t| >= 2 {
      var n := |t| - 1;
      var u := t[..n];
      var last := if t[n].healthy && !t[n - 1].healthy then [Interval(RunStart(u, n - 1), n)] else [];
      ClosedRunsExact(u, r);
      assert ClosedRuns(t) == ClosedRuns(u) + last;
      assert r in ClosedRuns(t) <==> r in ClosedRuns(u) || r in last;
      if r.e < n {
        MaximalInPrefix(t, r);
      } else if r.e == n {
        LastRun(t, r);
      }
    }
  }

  lemma LastRun(t: seq<Probe>, r: Interval)
    requires |t| >= 2 && r.e == |t| - 1
    ensures MaximalRun(t, r) <==>
            t[r.e].healthy && !t[r.e - 1].healthy && r == Interval(RunStart(t[..r.e], r.e - 1), r.e)
  {
    var n := r.e;
    var u := t[..n];
    assert forall i :: 0 <= i < n ==> u[i] == t[i];
    if MaximalRun(t, r) {
      RunStartUnique(u, n - 1, r.s);
    }
  }

  lemma {:induction false} RunsInOrder(t: seq<Probe>, i: nat, j: nat)
    requires i < j < |ClosedRuns(t)|
    ensures ClosedRuns(t)[i].e < ClosedRuns(t)[j].s
  {
    var n := |t| - 1;
    var u := t[..n];
    var runs := ClosedRuns(u);
    if j < |runs| {
      RunsInOrder(u, i, j);
    } else {
      assert ClosedRuns(t)[j] == Interval(RunStart(u, n - 1), n) && ClosedRuns(t)[i] == runs[i];
      assert runs[i] in runs;
      ClosedRunsExact(u, runs[i]);
      assert u[runs[i].e].healthy;
    }
  }

  function Lengths(runs: seq<Interval>): int {
    if runs == [] then 0
    else Lengths(runs[..|runs| - 1]) + (runs[|runs| - 1].e - runs[|runs| - 1].s)
  }

  function OpenLength(t: seq<Probe>): int {
    if OpenRun(t).Some? then |t| - OpenRun(t).value.s else 0
  }

  lemma {:induction false} FailuresCounted(t: seq<Probe>)
    ensures Probes(t, All, false) == Lengths(ClosedRuns(t)) + OpenLength(t)
  {
    if t != [] {
      var n := |t| - 1;
      var u, p := t[..n], t[n];
      var runs := ClosedRuns(u);
      assert u + [p] == t;
      FailuresCounted(u);
      ProbesSnoc(u, p, All, false);
      OpenRunSnoc(u, p);
      ClosedRunsSnoc(u, p);
      if p.healthy && OpenRun(u).Some? {
        var r := OpenRun(u).value;
        assert (runs + [r])[..|runs|] == runs;
      } else {
        assert ClosedRuns(t) == runs;
      }
    }
  }

  lemma {:induction false} RecordsAt(lim: Limits, t: seq<Probe>, marks: set<nat>, runs: seq<Interval>, k: nat)
    requires Inside(t, runs) && k < |runs|
    ensures Records(lim, t, marks, runs)[k] == RecordOf(lim, t, marks, runs[k])
  {
    if k < |runs| - 1 {
      RecordsAt(lim, t, marks, runs[..|runs| - 1], k);
    }
  }

  /** The errors kept are the first distinct failure details. */
  lemma {:induction false} DistinctExact(ps: seq<Probe>)
    ensures forall x :: x in Distinct(ps) <==> exists i :: 0 <= i < |ps| && ps[i].detail == x
    ensures forall i, j :: 0 <= i < j < |Distinct(ps)| ==> Distinct(ps)[i] != Distinct(ps)[j]
  {
    if ps != [] {
      var n := |ps| - 1;
      var u := ps[..n];
      var d := Distinct(u);
      DistinctExact(u);
      assert forall i :: 0 <= i < n ==> u[i] == ps[i];
      forall x ensures x in Distinct(ps) <==> exists i :: 0 <= i < |ps| && ps[i].detail == x {
        if x in d {
          var i :| 0 <= i < n && u[i].detail == x;
          assert ps[i].detail == x;
        } else if exists i :: 0 <= i < |ps| && ps[i].detail == x {
          var i :| 0 <= i < |ps| && ps[i].detail == x;
          assert i == n;
        }
        assert ps[n].detail == x ==> x in Distinct(ps);
      }
    }
  }

  // ---- What a record says -----------------------------------------------------------------

  /** `errors[k]` is the first detail not among the `k` before it. */
  ghost predicate FirstSeen(ps: seq<Probe>, errors: seq<string>, k: nat)
    requires k < |errors|
  {
    exists i :: 0 <= i < |ps| && ps[i].detail == errors[k] && forall j :: 0 <= j < i ==> ps[j].detail in errors[..k]
  }

  /** `errors` are the first `n` distinct details of the probes, in order of appearance. */
  ghost predicate FirstDistinct(ps: seq<Probe>, errors: seq<string>, n: nat) {
    && |errors| <= n
    && (forall i, j :: 0 <= i < j < |errors| ==> errors[i] != errors[j])
    && (forall k :: 0 <= k < |errors| ==> FirstSeen(ps, errors, k))
    && (|errors| < n ==> forall i :: 0 <= i < |ps| ==> ps[i].detail in errors)
  }

  /** One sample for each of the first `n` probes, with its time since the first. */
  ghost predicate FirstSamples(ps: seq<Probe>, samples: seq<Sample>, n: nat) {
    && |samples| == (if |ps| < n then |ps| else n)
    && forall k :: 0 <= k < |samples| ==>
         && samples[k].offset == ps[k].ts - ps[0].ts && samples[k].latency == ps[k].latency
         && samples[k].detail <= ps[k].detail
         && |samples[k].detail| == if |ps[k].detail| < DETAIL_WIDTH then |ps[k].detail| else DETAIL_WIDTH
  }

  /** `o` tells the failures `t[r.s..r.e)`. */
  ghost predicate Tells(lim: Limits, t: seq<Probe>, marks: set<nat>, r: Interval, o: Outage)
    requires r.s < r.e <= |t|
  {
    && o.start == t[r.s].ts && o.downProbes == r.e - r.s
    && FirstDistinct(t[r.s..r.e], o.errors, 10)
    && FirstSamples(t[r.s..r.e], o.samples, lim.maxSamples)
    && (o.alerted <==> exists m :: m in marks && r.s <= m < r.e)
  }

  /** `rec` is the record of the streak `r` and the healthy probe that ended it. */
  ghost predicate TellsRun(lim: Limits, t: seq<Probe>, marks: set<nat>, r: Interval, rec: Record)
    requires r.s < r.e < |t|
  {
    var m := rec.summary;
    && m.end == t[r.e].ts && m.duration == m.end - m.start
    && Tells(lim, t, marks, r, Outage(m.start, m.downProbes, m.errors, rec.samples, m.alerted))
  }

  lemma {:induction false} DistinctInOrder(ps: seq<Probe>)
    ensures forall k :: 0 <= k < |Distinct(ps)| ==> FirstSeen(ps, Distinct(ps), k)
  {
    if ps != [] {
      var n := |ps| - 1;
      var u, d, e := ps[..n], Distinct(ps[..n]), Distinct(ps);
      DistinctInOrder(u);
      DistinctExact(u);
      forall k | 0 <= k < |e| ensures FirstSeen(ps, e, k) {
        if k < |d| {
          assert FirstSeen(u, d, k);
          assert e[..k] == d[..k];
          var i :| 0 <= i < n && u[i].detail == d[k] && forall j :: 0 <= j < i ==> u[j].detail in d[..k];
          assert forall j :: 0 <= j < i ==> ps[j] == u[j];
          assert ps[i].detail == e[k];
        } else {
          assert e[..k] == d && e[k] == ps[n].detail;
          forall j | 0 <= j < n ensures ps[j].detail in d {
            assert u[j].detail == ps[j].detail;
          }
        }
      }
    }
  }

  lemma ErrorsExact(ps: seq<Probe>, n: nat)
    ensures FirstDistinct(ps, Take(Distinct(ps), n), n)
  {
    var d, errors := Distinct(ps), Take(Distinct(ps), n);
    DistinctExact(ps);
    DistinctInOrder(ps);
    forall k | 0 <= k < |errors| ensures FirstSeen(ps, errors, k) {
      assert FirstSeen(ps, d, k);
      assert errors[..k] == d[..k];
    }
  }

  lemma {:induction false} SamplesAt(start: real, ps: seq<Probe>, k: nat)
    ensures |SamplesOf(start, ps)| == |ps|
    ensures k < |ps| ==> SamplesOf(start, ps)[k] == SampleOf(start, ps[k])
  {
    if ps != [] {
      SamplesAt(start, ps[..|ps| - 1], k);
    }
  }

  lemma SamplesExact(ps: seq<Probe>, n: nat)
    requires ps != []
    ensures FirstSamples(ps, Take(SamplesOf(ps[0].ts, ps), n), n)
  {
    SamplesAt(ps[0].ts, ps, 0);
    forall k | 0 <= k < |ps| ensures SamplesOf(ps[0].ts, ps)[k] == SampleOf(ps[0].ts, ps[k]) {
      SamplesAt(ps[0].ts, ps, k);
    }
  }

  lemma OutageTells(lim: Limits, t: seq<Probe>, marks: set<nat>, r: Interval)
    requires r.s < r.e <= |t|
    ensures Tells(lim, t, marks, r, OutageOf(lim, t, marks, r))
  {
    hide FirstDistinct, FirstSamples, Distinct, SamplesOf, Take;
    ErrorsExact(t[r.s..r.e], 10);
    SamplesExact(t[r.s..r.e], lim.maxSamples);
    assert t[r.s..r.e][0] == t[r.s];
  }

  // ---- Promises about every run -----------------------------------------------------------

  /** Outages, for every sequence of probes, marks and restarts: an outage is open exactly
      after a failed probe, counts the trailing failures and tells them; every failed probe
      is in exactly one outage. */
  lemma OutagesAreStreaks(lim: Limits, ops: seq<Op>)
    requires Legal(lim, ops)
    ensures var t, f := ProbesOf(ops), Run(lim, ops);
            && (f.currentOutage.Some? <==> !t[|t| - 1].healthy)
            && (f.currentOutage.Some? ==>
                  var down := f.currentOutage.value.downProbes;
                  && 1 <= down <= |t|
                  && (forall i :: |t| - down <= i < |t| ==> !t[i].healthy)
                  && (down == |t| || t[|t| - down - 1].healthy)
                  && Tells(lim, t, MarksOf(ops), Interval(|t| - down, |t|), f.currentOutage.value))
            && f.lifetime.outages == |ClosedRuns(t)|
            && f.lifetime.probesFail
               == Lengths(ClosedRuns(t)) + if f.currentOutage.Some? then f.currentOutage.value.downProbes else 0
  {
    hide Run, ProbesOf, MarksOf, Records, ClosedRuns, Probes, Seconds, KeptDays, RowOf, Distinct, SamplesOf,
         AlertedOutages, LastN, Tells;
    RunMeansTrace(lim, ops);
    FailuresCounted(ProbesOf(ops));
    var t := ProbesOf(ops);
    if OpenRun(t).Some? {
      OutageTells(lim, t, MarksOf(ops), OpenRun(t).value);
    }
  }

  lemma LastOnes<T>(xs: seq<T>, n: nat)
    ensures var ys := LastN(xs, n);
            && |ys| == (if |xs| < n then |xs| else n)
            && forall i :: 0 <= i < |ys| ==> ys[i] == xs[|xs| - |ys| + i]
  {
  }

  /** The outage file, for every sequence of probes, marks and restarts: of `k` finished
      streaks it holds the last `maxOutages`, one record each, oldest first. So the outage
      just closed is always the last record, and the one remembered. */
  lemma FileKeepsLatest(lim: Limits, ops: seq<Op>)
    requires Legal(lim, ops)
    ensures var t, f := ProbesOf(ops), Run(lim, ops);
            var runs := ClosedRuns(t);
            var k, n := |runs|, |f.file|;
            && n == (if k < lim.maxOutages then k else lim.maxOutages)
            && (forall i :: 0 <= i < n ==> TellsRun(lim, t, MarksOf(ops), runs[k - n + i], f.file[i]))
            && (f.lastOutage.Some? <==> k > 0)
            && (k > 0 ==> n > 0 && f.lastOutage == Some(f.file[n - 1].summary))
  {
    hide Run, ProbesOf, MarksOf, Records, ClosedRuns, OutageOf, RowOf, KeptDays, LifetimeOf, LastN, Tells;
    var t, marks, f := ProbesOf(ops), MarksOf(ops), Run(lim, ops);
    var runs := ClosedRuns(t);
    var records := Records(lim, t, marks, runs);
    RunMeansTrace(lim, ops);
    LastOnes(records, lim.maxOutages);
    forall i | 0 <= i < |f.file| ensures TellsRun(lim, t, marks, runs[|runs| - |f.file| + i], f.file[i]) {
      var r := runs[|runs| - |f.file| + i];
      RecordsAt(lim, t, marks, runs, |runs| - |f.file| + i);
      OutageTells(lim, t, marks, r);
    }
  }

  /** Finished outages do not overlap and are filed in order of time. */
  lemma OutagesDisjoint(lim: Limits, t: seq<Probe>, marks: set<nat>, i: nat, j: nat)
    requires Ordered(t) && i < j < |ClosedRuns(t)|
    ensures var records := Records(lim, t, marks, ClosedRuns(t));
            && records[i].summary.start <= records[i].summary.end <= records[j].summary.start
            && records[i].summary.downProbes == ClosedRuns(t)[i].e - ClosedRuns(t)[i].s
  {
    hide ClosedRuns, Records, Distinct, SamplesOf;
    var runs := ClosedRuns(t);
    RunsInOrder(t, i, j);
    RecordsAt(lim, t, marks, runs, i);
    RecordsAt(lim, t, marks, runs, j);
  }
}
