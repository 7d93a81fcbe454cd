/** What the watchdog's statistics mean: every figure as a function of the whole
    sequence of probe results (watchdog/watchdog.py). Rounding for display is left out. */
module UptimeTrace {
  import opened Common
  import opened DaySets

  const DAY := 86400.0
  const MAX_ERRORS := 10
  const DETAIL_WIDTH := 80

  datatype Probe = Probe(ts: real, healthy: bool, detail: string, latency: real)

  datatype Limits = Limits(cap: real, maxDays: nat, maxOutages: nat, maxSamples: nat)

  predicate Sane(lim: Limits) { lim.cap > 0.0 && lim.maxDays >= 1 && lim.maxOutages >= 1 }

  /** The calendar day (UTC) of a time stamp. */
  function Day(ts: real): int { (ts / DAY).Floor }

  ghost predicate Ordered(t: seq<Probe>) { forall i, j :: 0 <= i < j < |t| ==> t[i].ts <= t[j].ts }

  // ---- Seconds ---------------------------------------------------------------------

  /** The part of the time between two probes that is credited at all. */
  function Credit(p: Probe, q: Probe, cap: real): real {
    var gap := q.ts - p.ts;
    if gap <= 0.0 then 0.0 else if gap < cap then gap else cap
  }

  datatype Span = All | Days(lo: int, hi: int)
  datatype Kind = Up | Down | Monitored

  predicate InSpan(span: Span, ts: real) { span.All? || span.lo <= Day(ts) <= span.hi }

  /** A gap counts as up or down by the probe that opened it. */
  predicate OfKind(kind: Kind, opener: Probe) {
    match kind
    case Up => opener.healthy
    case Down => !opener.healthy
    case Monitored => true
  }

  /** Seconds credited to the days of `span`: each gap belongs to the day of the probe
      that closed it. */
  function Seconds(t: seq<Probe>, cap: real, span: Span, kind: Kind): real {
    if |t| < 2 then 0.0
    else
      var n := |t| - 1;
      Seconds(t[..n], cap, span, kind)
      + if InSpan(span, t[n].ts) && OfKind(kind, t[n - 1]) then Credit(t[n - 1], t[n], cap) else 0.0
  }

  function Probes(t: seq<Probe>, span: Span, healthy: bool): nat {
    if t == [] then 0
    else
      var n := |t| - 1;
      Probes(t[..n], span, healthy) + if InSpan(span, t[n].ts) && t[n].healthy == healthy then 1 else 0
  }

  // ---- Outages -----------------------------------------------------------------------

  datatype Interval = Interval(s: nat, e: nat)

  /** First probe of the failure streak that `t[k]` belongs to. */
  function RunStart(t: seq<Probe>, k: nat): (s: nat)
    requires k < |t| && !t[k].healthy
    ensures s <= k
    ensures forall i :: s <= i <= k ==> !t[i].healthy
    ensures s == 0 || t[s - 1].healthy
  {
    if k == 0 || t[k - 1].healthy then k else RunStart(t, k - 1)
  }

  /** Streaks `t[s..e)` ended by a healthy probe at `e`, oldest first. */
  function ClosedRuns(t: seq<Probe>): (runs: seq<Interval>)
    ensures forall i :: 0 <= i < |runs| ==> runs[i].s < runs[i].e < |t|
  {
    if |t| < 2 then []
    else
      var n := |t| - 1;
      ClosedRuns(t[..n]) +
      if t[n].healthy && !t[n - 1].healthy then [Interval(RunStart(t[..n], n - 1), n)] else []
  }

  datatype Sample = Sample(offset: real, latency: real, detail: string)

  datatype Outage = Outage(start: real, downProbes: nat, errors: seq<string>, samples: seq<Sample>, alerted: bool)

  datatype Summary = Summary(start: real, end: real, duration: real, downProbes: nat, alerted: bool, errors: seq<string>)

  datatype Record = Record(summary: Summary, samples: seq<Sample>)

  function Take<T>(xs: seq<T>, n: nat): seq<T> { if |xs| <= n then xs else xs[..n] }

  function LastN<T>(xs: seq<T>, n: nat): seq<T> { if |xs| <= n then xs else xs[|xs| - n..] }

  /** Distinct failure details, in order of first appearance. */
  function Distinct(ps: seq<Probe>): seq<string> {
    if ps == [] then []
    else
      var n := |ps| - 1;
      var d := Distinct(ps[..n]);
      if ps[n].detail in d then d else d + [ps[n].detail]
  }

  function SampleOf(start: real, p: Probe): Sample {
    Sample(p.ts - start, p.latency, Take(p.detail, DETAIL_WIDTH))
  }

  function SamplesOf(start: real, ps: seq<Probe>): seq<Sample> {
    if ps == [] then [] else SamplesOf(start, ps[..|ps| - 1]) + [SampleOf(start, ps[|ps| - 1])]
  }

  /** Some alert was marked during the streak. `marks` holds the probes after which
      `mark_alerted` was called. */
  predicate Alerted(marks: set<nat>, r: Interval) { exists i :: i in marks && r.s <= i < r.e }

  function OutageOf(lim: Limits, t: seq<Probe>, marks: set<nat>, r: Interval): Outage
    requires r.s < r.e <= |t|
  {
    var ps := t[r.s..r.e];
    Outage(t[r.s].ts, r.e - r.s, Take(Distinct(ps), MAX_ERRORS),
           Take(SamplesOf(t[r.s].ts, ps), lim.maxSamples), Alerted(marks, r))
  }

  function RecordFrom(o: Outage, end: real): Record {
    Record(Summary(o.start, end, end - o.start, o.downProbes, o.alerted, o.errors), o.samples)
  }

  function RecordOf(lim: Limits, t: seq<Probe>, marks: set<nat>, r: Interval): Record
    requires r.s < r.e < |t|
  {
    RecordFrom(OutageOf(lim, t, marks, r), t[r.e].ts)
  }

  ghost predicate Inside(t: seq<Probe>, runs: seq<Interval>) {
    forall i :: 0 <= i < |runs| ==> runs[i].s < runs[i].e < |t|
  }

  function Records(lim: Limits, t: seq<Probe>, marks: set<nat>, runs: seq<Interval>): (rs: seq<Record>)
    requires Inside(t, runs)
    ensures |rs| == |runs|
  {
    if runs == [] then []
    else Records(lim, t, marks, runs[..|runs| - 1]) + [RecordOf(lim, t, marks, runs[|runs| - 1])]
  }

  function AlertedRuns(marks: set<nat>, runs: seq<Interval>): nat {
    if runs == [] then 0
    else AlertedRuns(marks, runs[..|runs| - 1]) + if Alerted(marks, runs[|runs| - 1]) then 1 else 0
  }

  /** Outages closed on day `d`, and the longest of them. */
  function ClosedOn(t: seq<Probe>, runs: seq<Interval>, d: int): nat
    requires Inside(t, runs)
  {
    if runs == [] then 0
    else
      ClosedOn(t, runs[..|runs| - 1], d) + if Day(t[runs[|runs| - 1].e].ts) == d then 1 else 0
  }

  function Duration(t: seq<Probe>, r: Interval): real
    requires r.s < r.e < |t|
  {
    t[r.e].ts - t[r.s].ts
  }

  function LongestOn(t: seq<Probe>, runs: seq<Interval>, d: int): real
    requires Inside(t, runs)
  {
    if runs == [] then 0.0
    else
      var rest := LongestOn(t, runs[..|runs| - 1], d);
      var r := runs[|runs| - 1];
      if Day(t[r.e].ts) == d && Duration(t, r) > rest then Duration(t, r) else rest
  }

  /** The streak still running at the end of the trace. */
  function OpenRun(t: seq<Probe>): (r: Option<Interval>)
    ensures r.Some? ==> r.value.s < r.value.e == |t|
  {
    if t == [] || t[|t| - 1].healthy then None else Some(Interval(RunStart(t, |t| - 1), |t|))
  }

  // ---- Days kept ---------------------------------------------------------------------

  /** The days that have a row after pruning at every new day. */
  ghost function KeptDays(t: seq<Probe>, maxDays: nat): set<int> {
    if t == [] then {}
    else
      var kept := KeptDays(t[..|t| - 1], maxDays);
      var d := Day(t[|t| - 1].ts);
      if d in kept then kept else Newest(kept + {d}, maxDays)
  }

  // ---- Everything together --------------------------------------------------------------

  datatype Lifetime = Lifetime(firstSeen: Option<real>, monitored: real, up: real, down: real,
                               probesOk: nat, probesFail: nat, outages: nat, alertedOutages: nat)

  datatype Row = Row(up: real, down: real, monitored: real, ok: nat, fail: nat, outages: nat, longest: real)

  /** The fields of `Stats`, with the outage file. */
  datatype Fields = Fields(
    lifetime: Lifetime, daily: map<int, Row>, lastProbeAt: Option<real>, lastHealthy: Option<bool>,
    currentOutage: Option<Outage>, lastOutage: Option<Summary>, file: seq<Record>)

  function RowOf(lim: Limits, t: seq<Probe>, d: int): Row {
    Row(Seconds(t, lim.cap, Days(d, d), Up), Seconds(t, lim.cap, Days(d, d), Down),
        Seconds(t, lim.cap, Days(d, d), Monitored),
        Probes(t, Days(d, d), true), Probes(t, Days(d, d), false),
        ClosedOn(t, ClosedRuns(t), d), LongestOn(t, ClosedRuns(t), d))
  }

  /** Outages, finished or open, in which an alert was marked. */
  function AlertedOutages(t: seq<Probe>, marks: set<nat>): nat {
    var open := OpenRun(t);
    AlertedRuns(marks, ClosedRuns(t)) + if open.Some? && Alerted(marks, open.value) then 1 else 0
  }

  function LifetimeOf(lim: Limits, t: seq<Probe>, marks: set<nat>): Lifetime {
    Lifetime(if t == [] then None else Some(t[0].ts),
             Seconds(t, lim.cap, All, Monitored), Seconds(t, lim.cap, All, Up), Seconds(t, lim.cap, All, Down),
             Probes(t, All, true), Probes(t, All, false), |ClosedRuns(t)|,
             AlertedOutages(t, marks))
  }

  function LastSummary(records: seq<Record>): Option<Summary> {
    if records == [] then None else Some(records[|records| - 1].summary)
  }

  /** What the statistics have to be after the probes `t` and the alert marks `marks`. */
  ghost function Expected(lim: Limits, t: seq<Probe>, marks: set<nat>): Fields {
    var records := Records(lim, t, marks, ClosedRuns(t));
    var open := OpenRun(t);
    Fields(
      LifetimeOf(lim, t, marks),
      map d | d in KeptDays(t, lim.maxDays) :: RowOf(lim, t, d),
      if t == [] then None else Some(t[|t| - 1].ts),
      if t == [] then None else Some(t[|t| - 1].healthy),
      if open.Some? then Some(OutageOf(lim, t, marks, open.value)) else None,
      LastSummary(records),
      LastN(records, lim.maxOutages))
  }
}
