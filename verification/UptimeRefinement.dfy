/** The statistics refine their meaning: after every probe, alert mark and restart the
    fields of `Stats` are exactly what the whole trace says they are. */
module UptimeRefinement {
  import opened Common
  import opened DaySets
  import opened UptimeTrace
  import opened UptimeStats

  // ---- One more probe: the figures ------------------------------------------------------

  lemma SecondsSnoc(t: seq<Probe>, p: Probe, cap: real, span: Span, kind: Kind)
    ensures Seconds(t + [p], cap, span, kind) == Seconds(t, cap, span, kind)
              + if t != [] && InSpan(span, p.ts) && OfKind(kind, t[|t| - 1]) then Credit(t[|t| - 1], p, cap) else 0.0
  {
    assert (t + [p])[..|t|] == t;
  }

  lemma ProbesSnoc(t: seq<Probe>, p: Probe, span: Span, healthy: bool)
    ensures Probes(t + [p], span, healthy) ==
            Probes(t, span, healthy) + if InSpan(span, p.ts) && p.healthy == healthy then 1 else 0
  {
    assert (t + [p])[..|t|] == t;
  }

  lemma {:induction false} RunStartStable(t: seq<Probe>, p: Probe, k: nat)
    requires k < |t| && !t[k].healthy
    ensures RunStart(t + [p], k) == RunStart(t, k)
  {
    if k > 0 && !t[k - 1].healthy {
      RunStartStable(t, p, k - 1);
    }
  }

  lemma OpenRunSnoc(t: seq<Probe>, p: Probe)
    ensures OpenRun(t + [p]) ==
            if p.healthy then None
            else Some(Interval(if OpenRun(t).Some? then OpenRun(t).value.s else |t|, |t| + 1))
  {
    if !p.healthy && OpenRun(t).Some? {
      RunStartStable(t, p, |t| - 1);
    }
  }

  lemma ClosedRunsSnoc(t: seq<Probe>, p: Probe)
    ensures ClosedRuns(t + [p]) ==
            ClosedRuns(t) + if p.healthy && OpenRun(t).Some? then [OpenRun(t).value] else []
  {
    assert (t + [p])[..|t|] == t;
  }

  lemma OutageStable(lim: Limits, t: seq<Probe>, p: Probe, marks: set<nat>, r: Interval)
    requires r.s < r.e <= |t|
    ensures OutageOf(lim, t + [p], marks, r) == OutageOf(lim, t, marks, r)
  {
    assert (t + [p])[r.s..r.e] == t[r.s..r.e];
  }

  lemma {:induction false} RecordsStable(lim: Limits, t: seq<Probe>, p: Probe, marks: set<nat>, runs: seq<Interval>)
    requires Inside(t, runs)
    ensures Records(lim, t + [p], marks, runs) == Records(lim, t, marks, runs)
  {
    if runs != [] {
      RecordsStable(lim, t, p, marks, runs[..|runs| - 1]);
      OutageStable(lim, t, p, marks, runs[|runs| - 1]);
    }
  }

  lemma {:induction false} ClosingsStable(t: seq<Probe>, p: Probe, runs: seq<Interval>, d: int)
    requires Inside(t, runs)
    ensures ClosedOn(t + [p], runs, d) == ClosedOn(t, runs, d)
    ensures LongestOn(t + [p], runs, d) == LongestOn(t, runs, d)
  {
    if runs != [] {
      ClosingsStable(t, p, runs[..|runs| - 1], d);
    }
  }

  lemma ClosingsSnoc(t: seq<Probe>, runs: seq<Interval>, r: Interval, d: int)
    requires Inside(t, runs) && r.s < r.e < |t|
    ensures Inside(t, runs + [r])
    ensures ClosedOn(t, runs + [r], d) == ClosedOn(t, runs, d) + if Day(t[r.e].ts) == d then 1 else 0
    ensures LongestOn(t, runs + [r], d) ==
            if Day(t[r.e].ts) == d && Duration(t, r) > LongestOn(t, runs, d) then Duration(t, r) else LongestOn(t, runs, d)
  {
    assert (runs + [r])[..|runs|] == runs;
  }

  lemma LastNSnoc<T>(xs: seq<T>, x: T, n: nat)
    requires n >= 1
    ensures LastN(LastN(xs, n) + [x], n) == LastN(xs + [x], n)
  {
  }

  // ---- One more failure in an outage ------------------------------------------------------

  lemma ErrorsSnoc(ps: seq<Probe>, p: Probe)
    ensures var e := Take(Distinct(ps), MAX_ERRORS);
            Take(Distinct(ps + [p]), MAX_ERRORS) ==
            if p.detail !in e && |e| < MAX_ERRORS then e + [p.detail] else e
  {
    assert (ps + [p])[..|ps|] == ps;
    var d := Distinct(ps);
    if |d| >= MAX_ERRORS {
      assert (d + [p.detail])[..MAX_ERRORS] == d[..MAX_ERRORS];
      assert |d| == MAX_ERRORS ==> d[..MAX_ERRORS] == d;
    }
  }

  lemma SamplesSnoc(start: real, ps: seq<Probe>, p: Probe, n: nat)
    ensures var x := Take(SamplesOf(start, ps), n);
            Take(SamplesOf(start, ps + [p]), n) == if |x| < n then x + [SampleOf(start, p)] else x
  {
    assert (ps + [p])[..|ps|] == ps;
    var x := SamplesOf(start, ps);
    if |x| >= n {
      assert (x + [SampleOf(start, p)])[..n] == x[..n];
      assert |x| == n ==> x[..n] == x;
    }
  }

  lemma FailureSnoc(lim: Limits, t: seq<Probe>, marks: set<nat>, s: nat, e: nat)
    requires s < e < |t| && e !in marks
    ensures OutageOf(lim, t, marks, Interval(s, e + 1)) ==
            AddFailure(lim, OutageOf(lim, t, marks, Interval(s, e)), t[e])
  {
    hide Distinct, SamplesOf, Take, SampleOf, Alerted;
    assert t[s..e + 1] == t[s..e] + [t[e]];
    ErrorsSnoc(t[s..e], t[e]);
    SamplesSnoc(t[s].ts, t[s..e], t[e], lim.maxSamples);
    UnmarkedEnd(marks, s, e);
  }

  lemma UnmarkedEnd(marks: set<nat>, s: nat, e: nat)
    requires e !in marks
    ensures Alerted(marks, Interval(s, e + 1)) <==> Alerted(marks, Interval(s, e))
  {
    assert forall i :: i in marks && s <= i < e + 1 ==> i != e;
  }

  lemma FirstFailure(lim: Limits, t: seq<Probe>, marks: set<nat>, s: nat)
    requires s < |t| && s !in marks
    ensures OutageOf(lim, t, marks, Interval(s, s + 1)) ==
            AddFailure(lim, Outage(t[s].ts, 0, [], [], false), t[s])
  {
    assert t[s..s + 1] == [t[s]];
    assert [t[s]][..0] == [];
    assert Distinct([t[s]]) == [t[s].detail] by { assert Distinct([]) == []; }
    assert SamplesOf(t[s].ts, [t[s]]) == [SampleOf(t[s].ts, t[s])] by { assert SamplesOf(t[s].ts, []) == []; }
    assert !Alerted(marks, Interval(s, s + 1));
  }

  // ---- Days ---------------------------------------------------------------------------------

  lemma DayMonotone(x: real, y: real)
    requires x <= y
    ensures Day(x) <= Day(y)
  {
    assert x / DAY <= y / DAY;
  }

  lemma {:induction false} NewestKeepsMax(days: set<int>, n: nat, m: int)
    requires n >= 1 && m in days && forall d :: d in days ==> d <= m
    ensures m in Newest(days, n)
  {
    if |days| > n {
      var o := Oldest(days);
      if o == m {
        assert forall d :: d in days ==> d == m;
        assert days == {m};
      } else {
        NewestKeepsMax(days - {o}, n, m);
      }
    }
  }

  lemma {:induction false} KeptDaysSeen(t: seq<Probe>, maxDays: nat, d: int)
    requires d in KeptDays(t, maxDays)
    ensures exists i :: 0 <= i < |t| && Day(t[i].ts) == d
  {
    var n := |t| - 1;
    if d != Day(t[n].ts) {
      KeptDaysSeen(t[..n], maxDays, d);
      var i :| 0 <= i < n && Day(t[..n][i].ts) == d;
      assert Day(t[i].ts) == d;
    }
  }

  lemma DaysUpToLast(t: seq<Probe>, i: nat)
    requires Ordered(t) && i < |t|
    ensures Day(t[i].ts) <= Day(t[|t| - 1].ts)
  {
    if i < |t| - 1 {
      DayMonotone(t[i].ts, t[|t| - 1].ts);
    }
  }

  /** The day of the last probe always has a row. */
  lemma LastDayKept(t: seq<Probe>, maxDays: nat)
    requires t != [] && Ordered(t) && maxDays >= 1
    ensures Day(t[|t| - 1].ts) in KeptDays(t, maxDays)
  {
    var n := |t| - 1;
    var kept, d := KeptDays(t[..n], maxDays), Day(t[n].ts);
    if d !in kept {
      forall e | e in kept + {d} ensures e <= d {
        if e in kept {
          KeptDaysSeen(t[..n], maxDays, e);
          var i :| 0 <= i < n && Day(t[..n][i].ts) == e;
          DaysUpToLast(t, i);
        }
      }
      NewestKeepsMax(kept + {d}, maxDays, d);
    }
  }

  /** A day without a row is new: nothing was ever credited to it. */
  lemma NewDay(t: seq<Probe>, p: Probe, maxDays: nat, i: nat)
    requires Ordered(t + [p]) && maxDays >= 1 && Day(p.ts) !in KeptDays(t, maxDays) && i < |t|
    ensures Day(t[i].ts) != Day(p.ts)
  {
    var u := t + [p];
    assert forall j :: 0 <= j < |t| ==> u[j] == t[j];
    assert Ordered(t);
    LastDayKept(t, maxDays);
    DaysUpToLast(t, i);
    DaysUpToLast(u, |t| - 1);
  }

  lemma {:induction false} NothingOnDay(t: seq<Probe>, cap: real, d: int, kind: Kind, healthy: bool)
    requires forall i :: 0 <= i < |t| ==> Day(t[i].ts) != d
    ensures Seconds(t, cap, Days(d, d), kind) == 0.0 && Probes(t, Days(d, d), healthy) == 0
  {
    if t != [] {
      var n := |t| - 1;
      assert forall i :: 0 <= i < n ==> t[..n][i] == t[i];
      NothingOnDay(t[..n], cap, d, kind, healthy);
    }
  }

  lemma {:induction false} NoClosingOnDay(t: seq<Probe>, runs: seq<Interval>, d: int)
    requires Inside(t, runs) && forall i :: 0 <= i < |t| ==> Day(t[i].ts) != d
    ensures ClosedOn(t, runs, d) == 0 && LongestOn(t, runs, d) == 0.0
  {
    if runs != [] {
      NoClosingOnDay(t, runs[..|runs| - 1], d);
    }
  }

  lemma EmptyDay(lim: Limits, t: seq<Probe>, d: int)
    requires forall i :: 0 <= i < |t| ==> Day(t[i].ts) != d
    ensures RowOf(lim, t, d) == EMPTY_ROW
  {
    NothingOnDay(t, lim.cap, d, Up, true);
    NothingOnDay(t, lim.cap, d, Down, false);
    NothingOnDay(t, lim.cap, d, Monitored, true);
    NoClosingOnDay(t, ClosedRuns(t), d);
  }

  // ---- Rows -----------------------------------------------------------------------------------

  /** The rows of the days kept after `p`, with what `t` alone credited to them. */
  ghost function Rows(lim: Limits, t: seq<Probe>, p: Probe): map<int, Row> {
    map d | d in KeptDays(t + [p], lim.maxDays) :: RowOf(lim, t, d)
  }

  ghost function Daily(lim: Limits, t: seq<Probe>): map<int, Row> {
    map d | d in KeptDays(t, lim.maxDays) :: RowOf(lim, t, d)
  }

  lemma DailyWithDay(lim: Limits, t: seq<Probe>, p: Probe)
    requires Sane(lim) && Ordered(t + [p])
    ensures WithDay(Daily(lim, t), Day(p.ts), lim.maxDays) == Rows(lim, t, p)
    ensures Day(p.ts) in Rows(lim, t, p)
  {
    hide RowOf;
    var d, u := Day(p.ts), t + [p];
    assert u[..|t|] == t;
    LastDayKept(u, lim.maxDays);
    if d !in KeptDays(t, lim.maxDays) {
      forall i | 0 <= i < |t| ensures Day(t[i].ts) != d {
        NewDay(t, p, lim.maxDays, i);
      }
      EmptyDay(lim, t, d);
      assert Daily(lim, t)[d := EMPTY_ROW].Keys == KeptDays(t, lim.maxDays) + {d};
    }
  }

  /** The row of the day of `p` once the seconds up to `p` are credited. */
  function CreditedRow(lim: Limits, t: seq<Probe>, p: Probe): Row {
    var d := Day(p.ts);
    RowOf(lim, t, d).(up := Seconds(t + [p], lim.cap, Days(d, d), Up),
                      down := Seconds(t + [p], lim.cap, Days(d, d), Down),
                      monitored := Seconds(t + [p], lim.cap, Days(d, d), Monitored))
  }

  lemma OtherRows(lim: Limits, t: seq<Probe>, p: Probe, d: int)
    requires d != Day(p.ts)
    ensures RowOf(lim, t + [p], d) == RowOf(lim, t, d)
  {
    SecondsSnoc(t, p, lim.cap, Days(d, d), Up);
    SecondsSnoc(t, p, lim.cap, Days(d, d), Down);
    SecondsSnoc(t, p, lim.cap, Days(d, d), Monitored);
    ProbesSnoc(t, p, Days(d, d), true);
    ProbesSnoc(t, p, Days(d, d), false);
    ClosingsOfNext(t, p, d);
  }

  /** Outages closed on a day, after one more probe. */
  lemma ClosingsOfNext(t: seq<Probe>, p: Probe, d: int)
    ensures var u, open := t + [p], OpenRun(t);
            var closes := p.healthy && open.Some? && d == Day(p.ts);
            && ClosedOn(u, ClosedRuns(u), d) == ClosedOn(t, ClosedRuns(t), d) + (if closes then 1 else 0)
            && LongestOn(u, ClosedRuns(u), d) ==
               if closes && p.ts - t[open.value.s].ts > LongestOn(t, ClosedRuns(t), d)
               then p.ts - t[open.value.s].ts else LongestOn(t, ClosedRuns(t), d)
  {
    var u := t + [p];
    ClosedRunsSnoc(t, p);
    ClosingsStable(t, p, ClosedRuns(t), d);
    if p.healthy && OpenRun(t).Some? {
      ClosingsSnoc(u, ClosedRuns(t), OpenRun(t).value, d);
    } else {
      assert ClosedRuns(u) == ClosedRuns(t);
    }
  }

  lemma SameRow(lim: Limits, t: seq<Probe>, p: Probe)
    ensures var d, open := Day(p.ts), OpenRun(t);
            var b := CreditedRow(lim, t, p);
            RowOf(lim, t + [p], d) ==
            if !p.healthy then b.(fail := b.fail + 1)
            else if open.None? then b.(ok := b.ok + 1)
            else
              var duration := p.ts - t[open.value.s].ts;
              b.(ok := b.ok + 1, outages := b.outages + 1,
                 longest := if duration > b.longest then duration else b.longest)
  {
    var d := Day(p.ts);
    ProbesSnoc(t, p, Days(d, d), true);
    ProbesSnoc(t, p, Days(d, d), false);
    ClosingsOfNext(t, p, d);
  }

  lemma DailyAfter(lim: Limits, t: seq<Probe>, p: Probe, b: Row)
    requires Sane(lim) && Ordered(t + [p]) && b == RowOf(lim, t + [p], Day(p.ts))
    ensures Rows(lim, t, p)[Day(p.ts) := b] == Daily(lim, t + [p])
  {
    hide RowOf;
    DailyWithDay(lim, t, p);
    forall d | d in KeptDays(t + [p], lim.maxDays) && d != Day(p.ts)
      ensures RowOf(lim, t + [p], d) == RowOf(lim, t, d)
    {
      OtherRows(lim, t, p, d);
    }
  }

  // ---- One more probe: all fields -----------------------------------------------------------------

  /** Marks belong to probes of the trace. */
  ghost predicate MarksIn(t: seq<Probe>, marks: set<nat>) { forall i :: i in marks ==> i < |t| }

  ghost predicate Next(lim: Limits, t: seq<Probe>, p: Probe) { Sane(lim) && Ordered(t + [p]) }

  lemma AllSeconds(lim: Limits, t: seq<Probe>, p: Probe)
    ensures forall span, kind ::
              Seconds(t + [p], lim.cap, span, kind) == Seconds(t, lim.cap, span, kind)
              + if t != [] && InSpan(span, p.ts) && OfKind(kind, t[|t| - 1]) then Credit(t[|t| - 1], p, lim.cap) else 0.0
  {
    forall span, kind
      ensures Seconds(t + [p], lim.cap, span, kind) == Seconds(t, lim.cap, span, kind)
              + if t != [] && InSpan(span, p.ts) && OfKind(kind, t[|t| - 1]) then Credit(t[|t| - 1], p, lim.cap) else 0.0
    {
      SecondsSnoc(t, p, lim.cap, span, kind);
    }
  }

  /** `account` adds the last gap to the lifetime and touches nothing but that and the rows. */
  lemma AccountLifetime(lim: Limits, t: seq<Probe>, marks: set<nat>, p: Probe)
    ensures var e := Expected(lim, t, marks);
            var f := SeenStep(AccountStep(lim, e, p.ts), p.ts);
            var u := t + [p];
            && f.lifetime == e.lifetime.(
                 firstSeen := Some(u[0].ts),
                 monitored := Seconds(u, lim.cap, All, Monitored),
                 up := Seconds(u, lim.cap, All, Up),
                 down := Seconds(u, lim.cap, All, Down))
            && f == e.(lifetime := f.lifetime, daily := f.daily)
  {
    hide WithDay, Seconds, Records, OutageOf, AlertedOutages, Probes, RowOf, KeptDays;
    AllSeconds(lim, t, p);
  }

  /** `account` adds it to the row of the day of the new probe. */
  lemma AccountDaily(lim: Limits, t: seq<Probe>, marks: set<nat>, p: Probe)
    requires Next(lim, t, p)
    ensures WithDay(AccountStep(lim, Expected(lim, t, marks), p.ts).daily, Day(p.ts), lim.maxDays)
         == Rows(lim, t, p)[Day(p.ts) := CreditedRow(lim, t, p)]
  {
    hide WithDay, Rows, Seconds, OutageOf, Records, LifetimeOf, KeptDays;
    var d := Day(p.ts);
    AllSeconds(lim, t, p);
    DailyWithDay(lim, t, p);
    RowsAt(lim, t, p);
    WithDayAgain(lim, Rows(lim, t, p), d, CreditedRow(lim, t, p));
    assert Expected(lim, t, marks).daily == Daily(lim, t);
    if t == [] || p.ts - t[|t| - 1].ts <= 0.0 {
      assert CreditedRow(lim, t, p) == RowOf(lim, t, d);
      assert Rows(lim, t, p)[d := RowOf(lim, t, d)] == Rows(lim, t, p);
    }
  }

  lemma RowsAt(lim: Limits, t: seq<Probe>, p: Probe)
    requires Day(p.ts) in Rows(lim, t, p)
    ensures Rows(lim, t, p)[Day(p.ts)] == RowOf(lim, t, Day(p.ts))
  {
  }

  lemma WithDayAgain(lim: Limits, rows: map<int, Row>, d: int, b: Row)
    requires d in rows
    ensures WithDay(rows, d, lim.maxDays) == rows
    ensures SetRow(rows, d, b) == rows[d := b] && WithDay(rows[d := b], d, lim.maxDays) == rows[d := b]
    ensures RowAt(rows[d := b], d) == b
  {
  }

  lemma AlertedSame(marks: set<nat>, n: nat, r: Interval)
    requires forall i :: i in marks ==> i < n
    requires r.e == n
    ensures Alerted(marks, Interval(r.s, n + 1)) == Alerted(marks, r)
  {
  }

  lemma FailedDaily(lim: Limits, f: Fields, p: Probe, rows: map<int, Row>, b: Row)
    requires Day(p.ts) in rows && WithDay(f.daily, Day(p.ts), lim.maxDays) == rows[Day(p.ts) := b]
    ensures FailedStep(lim, f, p).daily == rows[Day(p.ts) := b.(fail := b.fail + 1)]
  {
    hide AddFailure;
  }

  lemma HealthyDaily(lim: Limits, f: Fields, ts: real, rows: map<int, Row>, b: Row)
    requires Day(ts) in rows && WithDay(f.daily, Day(ts), lim.maxDays) == rows[Day(ts) := b]
    ensures var d := Day(ts);
            var b1 := b.(ok := b.ok + 1);
            HealthyStep(lim, f, ts).daily ==
            if f.currentOutage.None? then rows[d := b1]
            else
              var duration := ts - f.currentOutage.value.start;
              rows[d := b1.(outages := b1.outages + 1, longest := if duration > b1.longest then duration else b1.longest)]
  {
    var d, b1 := Day(ts), b.(ok := b.ok + 1);
    WithDayAgain(lim, rows, d, b1);
    assert rows[d := b][d := b1] == rows[d := b1];
  }

  /** The rows after one more probe. */
  lemma DailyRefines(lim: Limits, t: seq<Probe>, marks: set<nat>, p: Probe)
    requires Next(lim, t, p)
    ensures ObserveStep(lim, Expected(lim, t, marks), p).daily == Daily(lim, t + [p])
  {
    hide WithDay, AccountStep, HealthyStep, FailedStep, CreditedRow, RowOf;
    var e, b := Expected(lim, t, marks), CreditedRow(lim, t, p);
    var f := SeenStep(AccountStep(lim, e, p.ts), p.ts);
    AccountDaily(lim, t, marks, p);
    AccountLifetime(lim, t, marks, p);
    DailyWithDay(lim, t, p);
    SameRow(lim, t, p);
    if p.healthy {
      HealthyDaily(lim, f, p.ts, Rows(lim, t, p), b);
    } else {
      FailedDaily(lim, f, p, Rows(lim, t, p), b);
    }
    DailyAfter(lim, t, p, RowOf(lim, t + [p], Day(p.ts)));
  }

  lemma AlertedOutagesSnoc(t: seq<Probe>, marks: set<nat>, p: Probe)
    requires MarksIn(t, marks)
    ensures AlertedOutages(t + [p], marks) == AlertedOutages(t, marks)
  {
    hide Alerted;
    var runs := ClosedRuns(t);
    OpenRunSnoc(t, p);
    ClosedRunsSnoc(t, p);
    if OpenRun(t).Some? {
      var r := OpenRun(t).value;
      AlertedSame(marks, |t|, r);
      assert (runs + [r])[..|runs|] == runs;
      assert !p.healthy ==> ClosedRuns(t + [p]) == runs;
    } else {
      assert ClosedRuns(t + [p]) == runs;
      NoMark(marks, Interval(|t|, |t| + 1));
    }
  }

  lemma NoMark(marks: set<nat>, r: Interval)
    requires forall i :: i in marks ==> i < r.s
    ensures !Alerted(marks, r)
  {
  }

  /** The lifetime counters after one more probe. */
  lemma LifetimeRefines(lim: Limits, t: seq<Probe>, marks: set<nat>, p: Probe)
    requires Next(lim, t, p) && MarksIn(t, marks)
    ensures ObserveStep(lim, Expected(lim, t, marks), p).lifetime == LifetimeOf(lim, t + [p], marks)
  {
    hide WithDay, AccountStep, Seconds, OutageOf, Records, Rows, CreditedRow, Daily, AddFailure, LastN, AlertedOutages;
    AccountLifetime(lim, t, marks, p);
    ProbesSnoc(t, p, All, true);
    ProbesSnoc(t, p, All, false);
    ClosedRunsSnoc(t, p);
    AlertedOutagesSnoc(t, marks, p);
  }

  /** The open outage after one more probe. */
  lemma OpenRefines(lim: Limits, t: seq<Probe>, marks: set<nat>, p: Probe)
    requires Next(lim, t, p) && MarksIn(t, marks)
    ensures ObserveStep(lim, Expected(lim, t, marks), p).currentOutage == Expected(lim, t + [p], marks).currentOutage
  {
    hide WithDay, AccountStep, OutageOf, Records, AddFailure, LastN, LifetimeOf, SetRow, KeptDays, RunStart, ClosedRuns;
    var u := t + [p];
    AccountKeepsOutage(lim, Expected(lim, t, marks), p.ts);
    OpenRunSnoc(t, p);
    if OpenRun(t).Some? {
      var r := OpenRun(t).value;
      OutageStable(lim, t, p, marks, r);
      if !p.healthy {
        FailureSnoc(lim, u, marks, r.s, r.e);
      }
    } else if !p.healthy {
      FirstFailure(lim, u, marks, |t|);
    }
  }

  /** The finished outages after one more probe. */
  lemma ClosedRefines(lim: Limits, t: seq<Probe>, marks: set<nat>, p: Probe)
    requires Next(lim, t, p)
    ensures var f, e := ObserveStep(lim, Expected(lim, t, marks), p), Expected(lim, t + [p], marks);
            f.lastOutage == e.lastOutage && f.file == e.file
  {
    hide WithDay, AccountStep, Seconds, OutageOf, Rows, CreditedRow, Daily, AddFailure, LastN, LifetimeOf, SetRow;
    var u := t + [p];
    AccountLifetime(lim, t, marks, p);
    ClosedRunsSnoc(t, p);
    RecordsStable(lim, t, p, marks, ClosedRuns(t));
    if p.healthy && OpenRun(t).Some? {
      var r := OpenRun(t).value;
      OutageStable(lim, t, p, marks, r);
      LastNSnoc(Records(lim, t, marks, ClosedRuns(t)), RecordOf(lim, u, marks, r), lim.maxOutages);
    } else {
      assert ClosedRuns(u) == ClosedRuns(t);
    }
  }

  /** One probe takes the meaning of the trace to the meaning of the longer trace. */
  lemma ObserveRefines(lim: Limits, t: seq<Probe>, marks: set<nat>, p: Probe)
    requires Next(lim, t, p) && MarksIn(t, marks)
    ensures ObserveStep(lim, Expected(lim, t, marks), p) == Expected(lim, t + [p], marks)
  {
    hide WithDay, AccountStep, HealthyStep, FailedStep, Records, RowOf, KeptDays, LifetimeOf, ClosedRuns, OpenRun;
    DailyRefines(lim, t, marks, p);
    LifetimeRefines(lim, t, marks, p);
    OpenRefines(lim, t, marks, p);
    ClosedRefines(lim, t, marks, p);
  }

  // ---- Alert marks ---------------------------------------------------------------------------

  /** A mark on the last probe does not reach a finished outage. */
  lemma {:induction false} MarkPastRuns(lim: Limits, t: seq<Probe>, marks: set<nat>, n: nat, runs: seq<Interval>)
    requires Inside(t, runs) && |t| == n + 1
    ensures Records(lim, t, marks + {n}, runs) == Records(lim, t, marks, runs)
    ensures AlertedRuns(marks + {n}, runs) == AlertedRuns(marks, runs)
  {
    if runs != [] {
      var r := runs[|runs| - 1];
      MarkPastRuns(lim, t, marks, n, runs[..|runs| - 1]);
      assert Alerted(marks + {n}, r) <==> Alerted(marks, r);
    }
  }

  lemma MarkRefines(lim: Limits, t: seq<Probe>, marks: set<nat>)
    requires t != []
    ensures MarkStep(Expected(lim, t, marks)) == Expected(lim, t, marks + {|t| - 1})
  {
    hide Records, RowOf, KeptDays, LastN, Distinct, SamplesOf;
    var n: nat := |t| - 1;
    MarkPastRuns(lim, t, marks, n, ClosedRuns(t));
    if OpenRun(t).Some? {
      var r := OpenRun(t).value;
      assert n in marks + {n} && r.s <= n < r.e;
      assert Alerted(marks + {n}, r);
    }
  }

  // ---- Every run, with restarts -----------------------------------------------------------------

  datatype Op = Observe(p: Probe) | Mark | Restart

  function ProbesOf(ops: seq<Op>): seq<Probe> {
    if ops == [] then []
    else
      var n := |ops| - 1;
      ProbesOf(ops[..n]) + if ops[n].Observe? then [ops[n].p] else []
  }

  function MarksOf(ops: seq<Op>): set<nat> {
    if ops == [] then {}
    else
      var n := |ops| - 1;
      var t := ProbesOf(ops[..n]);
      MarksOf(ops[..n]) + if ops[n].Mark? && t != [] then {|t| - 1} else {}
  }

  /** The process ends after a completed save, and a new one loads its files. */
  function RestartStep(f: Fields): Fields {
    LoadStep(if f.lastHealthy.None? then None else Some(SaveStep(f, f.lastHealthy.value)), f.file)
  }

  ghost function Run(lim: Limits, ops: seq<Op>): Fields {
    if ops == [] then Fresh()
    else
      var f := Run(lim, ops[..|ops| - 1]);
      match ops[|ops| - 1]
      case Observe(p) => ObserveStep(lim, f, p)
      case Mark => MarkStep(f)
      case Restart => RestartStep(f)
  }

  lemma FreshIsExpected(lim: Limits)
    ensures Expected(lim, [], {}) == Fresh()
  {
  }

  /** For every sequence of probes, marks and restarts, the fields mean the trace. */
  lemma {:induction false} RunMeansTrace(lim: Limits, ops: seq<Op>)
    requires Sane(lim) && Ordered(ProbesOf(ops))
    ensures MarksIn(ProbesOf(ops), MarksOf(ops))
    ensures Run(lim, ops) == Expected(lim, ProbesOf(ops), MarksOf(ops))
  {
    hide Expected, ObserveStep, MarkStep, RestartStep, Fresh;
    if ops == [] {
      FreshIsExpected(lim);
    } else {
      var n := |ops| - 1;
      var t, marks := ProbesOf(ops[..n]), MarksOf(ops[..n]);
      assert Ordered(t) by {
        assert forall i :: 0 <= i < |t| ==> ProbesOf(ops)[i] == t[i];
      }
      RunMeansTrace(lim, ops[..n]);
      assert marks + {} == marks && t + [] == t;
      match ops[n]
      case Observe(p) => ObserveRefines(lim, t, marks, p);
      case Mark =>
        if t == [] {
          MarkNothing(lim, marks);
        } else {
          MarkRefines(lim, t, marks);
        }
      case Restart =>
        RestartKeeps(lim, t, marks);
    }
  }

  lemma MarkNothing(lim: Limits, marks: set<nat>)
    ensures MarkStep(Expected(lim, [], marks)) == Expected(lim, [], marks)
  {
  }

  lemma RestartKeeps(lim: Limits, t: seq<Probe>, marks: set<nat>)
    requires MarksIn(t, marks)
    ensures RestartStep(Expected(lim, t, marks)) == Expected(lim, t, marks)
  {
    hide RowOf, OutageOf, Records;
    if t == [] {
      assert marks == {};
      FreshIsExpected(lim);
    }
  }

  function WithoutRestarts(ops: seq<Op>): seq<Op> {
    if ops == [] then []
    else
      var n := |ops| - 1;
      WithoutRestarts(ops[..n]) + if ops[n].Restart? then [] else [ops[n]]
  }

  lemma {:induction false} RestartsInvisible(ops: seq<Op>)
    ensures ProbesOf(WithoutRestarts(ops)) == ProbesOf(ops)
    ensures MarksOf(WithoutRestarts(ops)) == MarksOf(ops)
  {
    if ops != [] {
      var n := |ops| - 1;
      var w := WithoutRestarts(ops[..n]);
      RestartsInvisible(ops[..n]);
      if ops[n].Restart? {
        assert WithoutRestarts(ops) == w;
        assert ProbesOf(ops[..n]) + [] == ProbesOf(ops[..n]);
      } else {
        assert (w + [ops[n]])[..|w|] == w;
      }
    }
  }

  /** Restarts leave no trace: the statistics equal those of the unbroken run. */
  lemma RestartTransparent(lim: Limits, ops: seq<Op>)
    requires Sane(lim) && Ordered(ProbesOf(ops))
    ensures Run(lim, ops) == Run(lim, WithoutRestarts(ops))
  {
    RestartsInvisible(ops);
    RunMeansTrace(lim, ops);
    RunMeansTrace(lim, WithoutRestarts(ops));
  }
}
