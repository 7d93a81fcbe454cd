/** What the statistics promise, for every sequence of probes, alert marks and restarts. */
module UptimeProperties {
  import opened Common
  import opened DaySets
  import opened UptimeTrace
  import opened UptimeStats
  import opened UptimeRefinement

  // ---- Seconds ---------------------------------------------------------------------------

  lemma {:induction false} UpAndDown(t: seq<Probe>, cap: real, span: Span)
    ensures Seconds(t, cap, span, Up) + Seconds(t, cap, span, Down) == Seconds(t, cap, span, Monitored)
  {
    if |t| >= 2 {
      UpAndDown(t[..|t| - 1], cap, span);
    }
  }

  lemma OrderedPrefix(t: seq<Probe>)
    requires t != [] && Ordered(t)
    ensures Ordered(t[..|t| - 1])
  {
  }

  /** Every gap is credited in full. */
  ghost predicate NoLongGap(t: seq<Probe>, cap: real) {
    forall i :: 0 < i < |t| ==> t[i].ts - t[i - 1].ts <= cap
  }

  lemma NoLongGapPrefix(t: seq<Probe>, cap: real)
    requires |t| >= 2
    ensures NoLongGap(t, cap) <==> NoLongGap(t[..|t| - 1], cap) && t[|t| - 1].ts - t[|t| - 2].ts <= cap
  {
    var n := |t| - 1;
    var u := t[..n];
    if NoLongGap(u, cap) && t[n].ts - t[n - 1].ts <= cap {
      forall i | 0 < i < |t| ensures t[i].ts - t[i - 1].ts <= cap {
        if i < n {
          assert u[i].ts - u[i - 1].ts <= cap;
        }
      }
    }
    if NoLongGap(t, cap) {
      forall i | 0 < i < n ensures u[i].ts - u[i - 1].ts <= cap {
        assert t[i].ts - t[i - 1].ts <= cap;
      }
    }
  }

  /** Monitored time never exceeds the time between the first and the last probe, and
      equals it exactly when no gap was capped. */
  lemma {:induction false} MonitoredWithinTrace(t: seq<Probe>, cap: real)
    requires t != [] && Ordered(t) && cap > 0.0
    ensures Seconds(t, cap, All, Monitored) <= t[|t| - 1].ts - t[0].ts
    ensures Seconds(t, cap, All, Monitored) == t[|t| - 1].ts - t[0].ts <==> NoLongGap(t, cap)
  {
    hide NoLongGap;
    var n := |t| - 1;
    if n > 0 {
      OrderedPrefix(t);
      MonitoredWithinTrace(t[..n], cap);
      NoLongGapPrefix(t, cap);
    } else {
      NoGapAtAll(t, cap);
    }
  }

  lemma NoGapAtAll(t: seq<Probe>, cap: real)
    requires |t| == 1
    ensures NoLongGap(t, cap)
  {
  }

  lemma DayBounds(ts: real)
    ensures Day(ts) as real * DAY <= ts < (Day(ts) + 1) as real * DAY
  {
  }

  /** Credits of one day, seen from the end of the trace. */
  lemma {:induction false} DayCredits(t: seq<Probe>, cap: real, d: int)
    requires t != [] && Ordered(t) && cap > 0.0
    ensures var last := t[|t| - 1].ts;
            var s := Seconds(t, cap, Days(d, d), Monitored);
            && (Day(last) < d ==> s == 0.0)
            && (Day(last) == d ==> s <= cap + (last - d as real * DAY))
            && s < cap + DAY
  {
    var n := |t| - 1;
    DayBounds(t[n].ts);
    if n > 0 {
      OrderedPrefix(t);
      DayCredits(t[..n], cap, d);
      DayBounds(t[n - 1].ts);
      DayMonotone(t[n - 1].ts, t[n].ts);
    }
  }

  // ---- Days -----------------------------------------------------------------------------------

  ghost predicate Seen(t: seq<Probe>, d: int) { exists i :: 0 <= i < |t| && Day(t[i].ts) == d }

  lemma SeenStep(t: seq<Probe>, d: int)
    requires t != []
    ensures Seen(t, d) <==> Seen(t[..|t| - 1], d) || d == Day(t[|t| - 1].ts)
  {
    var n := |t| - 1;
    if Seen(t, d) {
      var i :| 0 <= i < |t| && Day(t[i].ts) == d;
      assert i < n ==> t[..n][i] == t[i];
    }
    if Seen(t[..n], d) {
      var i :| 0 <= i < n && Day(t[..n][i].ts) == d;
      assert t[i] == t[..n][i];
    }
    assert Day(t[n].ts) == d ==> Seen(t, d);
  }

  /** The last probe starts a new day and prunes. */
  lemma PrunedNow(kept: set<int>, last: int, maxDays: nat, d: int, k: int)
    requires last !in kept && maxDays >= 1 && forall e :: e in kept ==> e < last
    requires d in kept && d !in Newest(kept + {last}, maxDays)
    ensures |Newest(kept + {last}, maxDays)| == maxDays
    ensures k in Newest(kept + {last}, maxDays) ==> d < k
  {
    NewestIsUpper(kept + {last}, maxDays);
  }

  /** Days dropped earlier stay older than the rows, however many are added. */
  lemma PrunedBefore(kept: set<int>, last: int, maxDays: nat, k: int)
    requires last !in kept && |kept| == maxDays
    ensures |Newest(kept + {last}, maxDays)| == maxDays
    ensures k in Newest(kept + {last}, maxDays) ==> k in kept || k == last
  {
    NewestIsUpper(kept + {last}, maxDays);
    assert |kept + {last}| == maxDays + 1;
  }

  lemma NewDayIsNewest(t: seq<Probe>, maxDays: nat, e: int)
    requires t != [] && Ordered(t) && Day(t[|t| - 1].ts) !in KeptDays(t[..|t| - 1], maxDays)
    ensures e in KeptDays(t[..|t| - 1], maxDays) ==> e < Day(t[|t| - 1].ts)
    ensures Seen(t, e) ==> e <= Day(t[|t| - 1].ts)
  {
    var n := |t| - 1;
    if e in KeptDays(t[..n], maxDays) {
      KeptDaysSeen(t[..n], maxDays, e);
      var i :| 0 <= i < n && Day(t[..n][i].ts) == e;
      DaysUpToLast(t, i);
    }
    if Seen(t, e) {
      var i :| 0 <= i < |t| && Day(t[i].ts) == e;
      DaysUpToLast(t, i);
    }
  }

  /** A seen day without a row is older than every row, and the rows are then full. */
  lemma {:induction false} PrunedIsOlder(t: seq<Probe>, maxDays: nat, d: int, k: int)
    requires Ordered(t) && maxDays >= 1 && Seen(t, d) && d !in KeptDays(t, maxDays)
    ensures |KeptDays(t, maxDays)| == maxDays
    ensures k in KeptDays(t, maxDays) ==> d < k
  {
    assert t != [];
    hide Seen, Newest;
    var n := |t| - 1;
    var prefix := t[..n];
    var kept, last := KeptDays(prefix, maxDays), Day(t[n].ts);
    OrderedPrefix(t);
    SeenStep(t, d);
    LastDayKept(t, maxDays);
    if last in kept {
      PrunedIsOlder(prefix, maxDays, d, k);
    } else {
      assert forall e :: e in kept ==> e < last by {
        forall e | e in kept ensures e < last { NewDayIsNewest(t, maxDays, e); }
      }
      if d in kept {
        PrunedNow(kept, last, maxDays, d, k);
      } else {
        PrunedIsOlder(prefix, maxDays, d, k);
        PrunedBefore(kept, last, maxDays, k);
        NewDayIsNewest(t, maxDays, d);
      }
    }
  }

  lemma {:induction false} RowsBounded(t: seq<Probe>, maxDays: nat)
    ensures |KeptDays(t, maxDays)| <= maxDays
  {
    if t != [] {
      RowsBounded(t[..|t| - 1], maxDays);
    }
  }

  /** Pigeonhole: the last `maxDays` calendar days are never pruned. */
  lemma RecentDaysKept(t: seq<Probe>, maxDays: nat, today: int, d: int)
    requires t != [] && Ordered(t) && maxDays >= 1 && Seen(t, d)
    requires Day(t[|t| - 1].ts) <= today && today - maxDays < d
    ensures d in KeptDays(t, maxDays)
  {
    var kept := KeptDays(t, maxDays);
    if d !in kept {
      forall k | k in kept ensures d + 1 <= k <= today {
        PrunedIsOlder(t, maxDays, d, k);
        KeptDaysSeen(t, maxDays, k);
        var i :| 0 <= i < |t| && Day(t[i].ts) == k;
        DaysUpToLast(t, i);
      }
      var j :| 0 <= j < |t| && Day(t[j].ts) == d;
      DaysUpToLast(t, j);
      DaysInWindow(kept, d + 1, today);
      PrunedIsOlder(t, maxDays, d, d);
    }
  }

  // ---- Windows ----------------------------------------------------------------------------------

  lemma {:induction false} SplitSpan(t: seq<Probe>, cap: real, lo: int, mid: int, hi: int, kind: Kind)
    requires lo <= mid <= hi + 1
    ensures Seconds(t, cap, Days(lo, hi), kind) ==
            Seconds(t, cap, Days(lo, mid - 1), kind) + Seconds(t, cap, Days(mid, hi), kind)
  {
    if |t| >= 2 {
      SplitSpan(t[..|t| - 1], cap, lo, mid, hi, kind);
    }
  }

  lemma {:induction false} EmptySpan(t: seq<Probe>, cap: real, lo: int, kind: Kind)
    ensures Seconds(t, cap, Days(lo, lo - 1), kind) == 0.0
  {
    if |t| >= 2 {
      EmptySpan(t[..|t| - 1], cap, lo, kind);
    }
  }

  lemma {:induction false} SecondsNonNegative(t: seq<Probe>, cap: real, span: Span, kind: Kind)
    requires cap > 0.0
    ensures 0.0 <= Seconds(t, cap, span, kind)
  {
    if |t| >= 2 {
      SecondsNonNegative(t[..|t| - 1], cap, span, kind);
    }
  }

  lemma {:induction false} SpanWithinAll(t: seq<Probe>, cap: real, span: Span, kind: Kind)
    requires cap > 0.0
    ensures Seconds(t, cap, span, kind) <= Seconds(t, cap, All, kind)
  {
    if |t| >= 2 {
      SpanWithinAll(t[..|t| - 1], cap, span, kind);
    }
  }

  lemma {:induction false} AllInSpan(t: seq<Probe>, cap: real, lo: int, hi: int, kind: Kind)
    requires forall i :: 0 <= i < |t| ==> lo <= Day(t[i].ts) <= hi
    ensures Seconds(t, cap, Days(lo, hi), kind) == Seconds(t, cap, All, kind)
  {
    if |t| >= 2 {
      var n := |t| - 1;
      assert forall i :: 0 <= i < n ==> t[..n][i] == t[i];
      AllInSpan(t[..n], cap, lo, hi, kind);
    }
  }

  lemma RowSeconds(lim: Limits, t: seq<Probe>, d: int, kind: Kind)
    requires Seen(t, d) ==> d in KeptDays(t, lim.maxDays)
    ensures SecondsIn(RowAt(Daily(lim, t), d), kind) == Seconds(t, lim.cap, Days(d, d), kind)
  {
    hide KeptDays, Seconds;
    if d !in KeptDays(t, lim.maxDays) {
      assert forall i :: 0 <= i < |t| ==> Day(t[i].ts) != d;
      NothingOnDay(t, lim.cap, d, kind, true);
    }
  }

  /** While every seen day of a window has its row, the rows add up to the credits. */
  lemma {:induction false} WindowExact(lim: Limits, t: seq<Probe>, today: int, days: nat, kind: Kind)
    requires forall d :: today - days < d <= today && Seen(t, d) ==> d in KeptDays(t, lim.maxDays)
    ensures WindowSum(Daily(lim, t), today, days, kind) == Seconds(t, lim.cap, Days(today - days + 1, today), kind)
  {
    hide Daily, Seconds, KeptDays, RowAt, Seen;
    if days == 0 {
      EmptySpan(t, lim.cap, today + 1, kind);
    } else {
      var d := today - days + 1;
      WindowExact(lim, t, today, days - 1, kind);
      RowSeconds(lim, t, d, kind);
      SplitSpan(t, lim.cap, d, d + 1, today, kind);
    }
  }

  // ---- Promises about every run -------------------------------------------------------------------

  ghost predicate Legal(lim: Limits, ops: seq<Op>) {
    Sane(lim) && Ordered(ProbesOf(ops)) && ProbesOf(ops) != []
  }

  lemma RunFigures(lim: Limits, ops: seq<Op>)
    requires Legal(lim, ops)
    ensures Run(lim, ops).daily == Daily(lim, ProbesOf(ops))
    ensures Run(lim, ops).lifetime == LifetimeOf(lim, ProbesOf(ops), MarksOf(ops))
  {
    hide Run, ProbesOf, MarksOf, RowOf, LifetimeOf, KeptDays, Records, OutageOf;
    RunMeansTrace(lim, ops);
  }

  /** Pruning never spoils a report: for any window of at most `maxDays` days the rows add
      up to everything ever credited to those days. */
  lemma ReportExact(lim: Limits, ops: seq<Op>, today: int, days: nat, kind: Kind)
    requires Legal(lim, ops) && days <= lim.maxDays
    requires Day(ProbesOf(ops)[|ProbesOf(ops)| - 1].ts) <= today
    ensures WindowSum(Run(lim, ops).daily, today, days, kind)
         == Seconds(ProbesOf(ops), lim.cap, Days(today - days + 1, today), kind)
    ensures |Run(lim, ops).daily| <= lim.maxDays
  {
    hide Run, ProbesOf, Seconds, WindowSum, KeptDays, RowOf, LifetimeOf;
    var t := ProbesOf(ops);
    RunFigures(lim, ops);
    forall d | today - days < d <= today && Seen(t, d) ensures d in KeptDays(t, lim.maxDays) {
      RecentDaysKept(t, lim.maxDays, today, d);
    }
    WindowExact(lim, t, today, days, kind);
    RowsBounded(t, lim.maxDays);
    assert Daily(lim, t).Keys == KeptDays(t, lim.maxDays);
    assert |Daily(lim, t)| == |Daily(lim, t).Keys|;
  }

  /** A row holds what was credited to its day; a pruned day reports nothing. */
  lemma RowWithin(lim: Limits, t: seq<Probe>, d: int, kind: Kind)
    requires Sane(lim)
    ensures 0.0 <= SecondsIn(RowAt(Daily(lim, t), d), kind) <= Seconds(t, lim.cap, Days(d, d), kind)
  {
    hide KeptDays, Seconds;
    SecondsNonNegative(t, lim.cap, Days(d, d), kind);
  }

  /** The rows of a window, however long, report no more than was credited to its days, and
      a longer window reports no less. */
  lemma {:induction false} WindowWithin(lim: Limits, t: seq<Probe>, today: int, a: nat, b: nat, kind: Kind)
    requires Sane(lim) && a <= b
    ensures WindowSum(Daily(lim, t), today, a, kind) <= WindowSum(Daily(lim, t), today, b, kind)
    ensures WindowSum(Daily(lim, t), today, b, kind) <= Seconds(t, lim.cap, Days(today - b + 1, today), kind)
  {
    hide Daily, Seconds, KeptDays, RowAt;
    if b == 0 {
      EmptySpan(t, lim.cap, today + 1, kind);
    } else {
      var d := today - b + 1;
      WindowWithin(lim, t, today, if a < b then a else a - 1, b - 1, kind);
      RowWithin(lim, t, d, kind);
      SplitSpan(t, lim.cap, d, d + 1, today, kind);
    }
  }

  /** Longer windows report no less, and none more than the lifetime, however many days are
      kept and whatever day is asked for. */
  lemma WindowsNested(lim: Limits, ops: seq<Op>, today: int, a: nat, b: nat)
    requires Legal(lim, ops) && a <= b
    ensures var f := Run(lim, ops);
            && WindowSum(f.daily, today, a, Up) <= WindowSum(f.daily, today, b, Up) <= f.lifetime.up
            && WindowSum(f.daily, today, a, Down) <= WindowSum(f.daily, today, b, Down) <= f.lifetime.down
  {
    hide Seconds, WindowSum, Run, ProbesOf, Probes, ClosedRuns, AlertedOutages;
    var t := ProbesOf(ops);
    RunFigures(lim, ops);
    forall kind
      ensures WindowSum(Run(lim, ops).daily, today, a, kind) <= WindowSum(Run(lim, ops).daily, today, b, kind)
      ensures WindowSum(Run(lim, ops).daily, today, b, kind) <= Seconds(t, lim.cap, All, kind)
    {
      WindowWithin(lim, t, today, a, b, kind);
      SpanWithinAll(t, lim.cap, Days(today - b + 1, today), kind);
    }
  }

  /** From the oldest row on, every seen day has its row. */
  lemma KeptFromOldest(t: seq<Probe>, maxDays: nat, today: int) returns (oldest: int)
    requires t != [] && Ordered(t) && maxDays >= 1 && today == Day(t[|t| - 1].ts)
    ensures |KeptDays(t, maxDays)| > 0 && oldest == Oldest(KeptDays(t, maxDays))
    ensures Day(t[0].ts) <= oldest <= today
    ensures forall d :: oldest <= d && Seen(t, d) ==> d in KeptDays(t, maxDays)
  {
    var kept := KeptDays(t, maxDays);
    LastDayKept(t, maxDays);
    oldest := Oldest(kept);
    KeptDaysSeen(t, maxDays, oldest);
    var i :| 0 <= i < |t| && Day(t[i].ts) == oldest;
    DayMonotone(t[0].ts, t[i].ts);
    forall d | oldest <= d && Seen(t, d) ensures d in kept {
      if d !in kept {
        PrunedIsOlder(t, maxDays, d, oldest);
      }
    }
  }

  /** Lifetime totals are the retained rows plus what was credited to the pruned days. */
  lemma RetainedPlusPruned(lim: Limits, ops: seq<Op>, today: int, kind: Kind)
    requires Legal(lim, ops) && today == Day(ProbesOf(ops)[|ProbesOf(ops)| - 1].ts)
    ensures var t := ProbesOf(ops);
            var daily := Run(lim, ops).daily;
            && |daily.Keys| > 0 && Oldest(daily.Keys) <= today
            && Seconds(t, lim.cap, All, kind)
               == WindowSum(daily, today, today - Oldest(daily.Keys) + 1, kind)
                  + Seconds(t, lim.cap, Days(Day(t[0].ts), Oldest(daily.Keys) - 1), kind)
  {
    hide Seconds, WindowSum, KeptDays, RowOf, Run, ProbesOf, LifetimeOf;
    var t := ProbesOf(ops);
    RunFigures(lim, ops);
    assert Daily(lim, t).Keys == KeptDays(t, lim.maxDays);
    var oldest := KeptFromOldest(t, lim.maxDays, today);
    WindowExact(lim, t, today, today - oldest + 1, kind);
    forall j | 0 <= j < |t| ensures Day(t[0].ts) <= Day(t[j].ts) <= today {
      DayMonotone(t[0].ts, t[j].ts);
      DaysUpToLast(t, j);
    }
    AllInSpan(t, lim.cap, Day(t[0].ts), today, kind);
    SplitSpan(t, lim.cap, Day(t[0].ts), oldest, today, kind);
  }

  /** Lifetime counters: the capped sums, split by health, within the time observed. */
  lemma LifetimeExact(lim: Limits, ops: seq<Op>)
    requires Legal(lim, ops)
    ensures var t := ProbesOf(ops);
            var lt := Run(lim, ops).lifetime;
            && lt.up == Seconds(t, lim.cap, All, Up) && lt.down == Seconds(t, lim.cap, All, Down)
            && lt.up + lt.down == lt.monitored <= t[|t| - 1].ts - t[0].ts
            && (lt.monitored == t[|t| - 1].ts - t[0].ts <==> NoLongGap(t, lim.cap))
            && lt.firstSeen == Some(t[0].ts)
  {
    hide Seconds, Run, ProbesOf, MarksOf, Probes, ClosedRuns, AlertedOutages, NoLongGap;
    RunFigures(lim, ops);
    UpAndDown(ProbesOf(ops), lim.cap, All);
    MonitoredWithinTrace(ProbesOf(ops), lim.cap);
  }

  /** With the cap the watchdog takes from its probe interval, all time is monitored as
      long as no two probes are more than two intervals apart; a longer gap that also
      exceeds two minutes loses some. */
  lemma SteadyProbesMonitored(lim: Limits, ops: seq<Op>, interval: nat)
    requires Legal(lim, ops) && lim.cap == AttributeCap(interval)
    ensures var t := ProbesOf(ops);
            var whole := Run(lim, ops).lifetime.monitored == t[|t| - 1].ts - t[0].ts;
            && ((forall i :: 0 < i < |t| ==> t[i].ts - t[i - 1].ts <= (2 * interval) as real) ==> whole)
            && ((exists i :: 0 < i < |t| && t[i].ts - t[i - 1].ts > (2 * interval) as real
                             && t[i].ts - t[i - 1].ts > 120.0) ==> !whole)
  {
    hide Run, ProbesOf;
    LifetimeExact(lim, ops);
  }

  /** No row exceeds a day by a whole capped gap, although a gap over midnight is credited
      wholly to the later day. */
  lemma RowBounded(lim: Limits, ops: seq<Op>, d: int)
    requires Legal(lim, ops) && d in Run(lim, ops).daily
    ensures var row := Run(lim, ops).daily[d];
            row.up + row.down == row.monitored < DAY + lim.cap
  {
    hide Seconds, Run, ProbesOf, KeptDays, LifetimeOf;
    RunFigures(lim, ops);
    var t := ProbesOf(ops);
    UpAndDown(t, lim.cap, Days(d, d));
    DayCredits(t, lim.cap, d);
  }
}
