/** The class `Stats` of watchdog/watchdog.py: one step function per method, and the
    class whose methods update its fields exactly so. */
module UptimeStats {
  import opened Common
  import opened DaySets
  import opened UptimeTrace

  const EMPTY_ROW := Row(0.0, 0.0, 0.0, 0, 0, 0, 0.0)

  /** Cap on the time attributed to a single probe: max(2 * INTERVAL, 120). */
  function AttributeCap(interval: nat): (cap: real)
    ensures cap >= 120.0 && cap >= (2 * interval) as real
  {
    if 2 * interval > 120 then (2 * interval) as real else 120.0
  }

  function Fresh(): Fields {
    Fields(Lifetime(None, 0.0, 0.0, 0.0, 0, 0, 0, 0), map[], None, None, None, None, [])
  }

  // ---- Steps ------------------------------------------------------------------------

  /** `_day`: the row of day `d` exists; a new row prunes the oldest ones beyond the limit. */
  ghost function WithDay(daily: map<int, Row>, d: int, maxDays: nat): map<int, Row> {
    if d in daily then daily
    else
      var more := daily[d := EMPTY_ROW];
      map k | k in Newest(more.Keys, maxDays) :: more[k]
  }

  function SetRow(daily: map<int, Row>, d: int, row: Row): map<int, Row> {
    if d in daily then daily[d := row] else daily
  }

  function RowAt(daily: map<int, Row>, d: int): Row { if d in daily then daily[d] else EMPTY_ROW }

  /** `account`: credit the interval that just ended to the state during it. */
  ghost function AccountStep(lim: Limits, f: Fields, ts: real): Fields {
    if f.lastProbeAt.None? || ts - f.lastProbeAt.value <= 0.0 then f
    else
      var gap := ts - f.lastProbeAt.value;
      var g := if gap < lim.cap then gap else lim.cap;
      var daily := WithDay(f.daily, Day(ts), lim.maxDays);
      var b := RowAt(daily, Day(ts));
      if f.lastHealthy == Some(true) then
        f.(lifetime := f.lifetime.(monitored := f.lifetime.monitored + g, up := f.lifetime.up + g),
           daily := SetRow(daily, Day(ts), b.(monitored := b.monitored + g, up := b.up + g)))
      else
        f.(lifetime := f.lifetime.(monitored := f.lifetime.monitored + g, down := f.lifetime.down + g),
           daily := SetRow(daily, Day(ts), b.(monitored := b.monitored + g, down := b.down + g)))
  }

  /** `_close_outage` for the outage `oc`. */
  ghost function CloseStep(lim: Limits, f: Fields, oc: Outage, ts: real): Fields {
    var record := RecordFrom(oc, ts);
    var daily := WithDay(f.daily, Day(ts), lim.maxDays);
    var b := RowAt(daily, Day(ts));
    var duration := ts - oc.start;
    f.(file := LastN(f.file + [record], lim.maxOutages),
       lifetime := f.lifetime.(outages := f.lifetime.outages + 1),
       daily := SetRow(daily, Day(ts), b.(outages := b.outages + 1,
                                          longest := if duration > b.longest then duration else b.longest)),
       lastOutage := Some(record.summary),
       currentOutage := None)
  }

  /** One more failed probe in the open outage. */
  function AddFailure(lim: Limits, oc: Outage, p: Probe): Outage {
    Outage(oc.start, oc.downProbes + 1,
           if p.detail !in oc.errors && |oc.errors| < MAX_ERRORS then oc.errors + [p.detail] else oc.errors,
           if |oc.samples| < lim.maxSamples then oc.samples + [SampleOf(oc.start, p)] else oc.samples,
           oc.alerted)
  }

  lemma AccountKeepsOutage(lim: Limits, f: Fields, ts: real)
    ensures AccountStep(lim, f, ts).currentOutage == f.currentOutage
  {
  }

  ghost function HealthyStep(lim: Limits, f: Fields, ts: real): Fields {
    var daily := WithDay(f.daily, Day(ts), lim.maxDays);
    var b := RowAt(daily, Day(ts));
    var g := f.(lifetime := f.lifetime.(probesOk := f.lifetime.probesOk + 1),
                daily := SetRow(daily, Day(ts), b.(ok := b.ok + 1)));
    if g.currentOutage.Some? then CloseStep(lim, g, g.currentOutage.value, ts) else g
  }

  ghost function FailedStep(lim: Limits, f: Fields, p: Probe): Fields {
    var daily := WithDay(f.daily, Day(p.ts), lim.maxDays);
    var b := RowAt(daily, Day(p.ts));
    var oc := if f.currentOutage.Some? then f.currentOutage.value else Outage(p.ts, 0, [], [], false);
    f.(lifetime := f.lifetime.(probesFail := f.lifetime.probesFail + 1),
       daily := SetRow(daily, Day(p.ts), b.(fail := b.fail + 1)),
       currentOutage := Some(AddFailure(lim, oc, p)))
  }

  function SeenStep(f: Fields, ts: real): Fields {
    f.(lifetime := f.lifetime.(firstSeen := if f.lifetime.firstSeen.None? then Some(ts) else f.lifetime.firstSeen))
  }

  /** `record`: fold one probe result into the statistics. */
  ghost function ObserveStep(lim: Limits, f: Fields, p: Probe): Fields {
    var f1 := SeenStep(AccountStep(lim, f, p.ts), p.ts);
    var f2 := if p.healthy then HealthyStep(lim, f1, p.ts) else FailedStep(lim, f1, p);
    f2.(lastProbeAt := Some(p.ts), lastHealthy := Some(p.healthy))
  }

  /** `mark_alerted` */
  function MarkStep(f: Fields): Fields {
    if f.currentOutage.Some? && !f.currentOutage.value.alerted then
      f.(currentOutage := Some(f.currentOutage.value.(alerted := true)),
         lifetime := f.lifetime.(alertedOutages := f.lifetime.alertedOutages + 1))
    else f
  }

  /** The two JSON files `save` writes. */
  datatype Saved = Saved(lifetime: Lifetime, lastProbeAt: Option<real>, healthy: Option<bool>,
                         currentOutage: Option<Outage>, lastOutage: Option<Summary>, daily: map<int, Row>)

  /** `save`; the health comes from the caller, not from the fields. */
  function SaveStep(f: Fields, healthy: bool): Saved {
    Saved(f.lifetime, f.lastProbeAt, Some(healthy), f.currentOutage, f.lastOutage, f.daily)
  }

  /** A new process: `_load`, or fresh statistics without files; the outage file is untouched. */
  function LoadStep(saved: Option<Saved>, file: seq<Record>): Fields {
    match saved
    case None => Fresh().(file := file)
    case Some(s) =>
      Fields(s.lifetime, s.daily, s.lastProbeAt, s.healthy, s.currentOutage, s.lastOutage, file)
  }

  function SecondsIn(row: Row, kind: Kind): real {
    match kind
    case Up => row.up
    case Down => row.down
    case Monitored => row.monitored
  }

  /** The rows of the `days` days up to `today`, added up; a day without a row adds nothing. */
  function WindowSum(daily: map<int, Row>, today: int, days: nat, kind: Kind): real {
    if days == 0 then 0.0
    else WindowSum(daily, today, days - 1, kind) + SecondsIn(RowAt(daily, today - (days - 1)), kind)
  }

  /** Delete the oldest days beyond the limit. */
  method Prune(rows: map<int, Row>, maxDays: nat) returns (r: map<int, Row>)
    ensures r == map k | k in Newest(rows.Keys, maxDays) :: rows[k]
  {
    r := rows;
    while |r.Keys| > maxDays
      invariant r.Keys <= rows.Keys && forall d :: d in r ==> r[d] == rows[d]
      invariant Newest(r.Keys, maxDays) == Newest(rows.Keys, maxDays)
      decreases |r.Keys|
    {
      OldestExists(r.Keys);
      var oldest :| oldest in r.Keys && forall d :: d in r.Keys ==> oldest <= d;
      assert Oldest(r.Keys) == oldest;
      assert (r - {oldest}).Keys == r.Keys - {oldest};
      r := r - {oldest};
    }
    assert Newest(r.Keys, maxDays) == r.Keys;
    ghost var kept := map k | k in Newest(rows.Keys, maxDays) :: rows[k];
    assert r.Keys == kept.Keys;
    forall k | k in r ensures r[k] == kept[k] {
      assert r[k] == rows[k];
    }
  }

  // ---- The class ------------------------------------------------------------------------

  class Stats {
    const lim: Limits

    var lifetime: Lifetime
    var daily: map<int, Row>
    var lastProbeAt: Option<real>
    var lastHealthy: Option<bool>
    var currentOutage: Option<Outage>
    var lastOutage: Option<Summary>
    var outagesFile: seq<Record>

    function View(): Fields
      reads this
    {
      Fields(lifetime, daily, lastProbeAt, lastHealthy, currentOutage, lastOutage, outagesFile)
    }

    constructor (lim: Limits, saved: Option<Saved>, file: seq<Record>)
      ensures this.lim == lim && View() == LoadStep(saved, file)
    {
      this.lim := lim;
      var f := LoadStep(saved, file);
      lifetime, daily, lastProbeAt, lastHealthy := f.lifetime, f.daily, f.lastProbeAt, f.lastHealthy;
      currentOutage, lastOutage, outagesFile := f.currentOutage, f.lastOutage, f.file;
    }

    method DayRow(ts: real) returns (b: Row)
      modifies `daily
      ensures daily == WithDay(old(daily), Day(ts), lim.maxDays)
      ensures b == RowAt(daily, Day(ts))
    {
      var k := Day(ts);
      if k !in daily {
        daily := Prune(daily[k := EMPTY_ROW], lim.maxDays);
      }
      b := RowAt(daily, k);
    }

    method Account(ts: real)
      modifies `lifetime, `daily
      ensures View() == AccountStep(lim, old(View()), ts)
    {
      if lastProbeAt.None? {
        return;
      }
      var gap := ts - lastProbeAt.value;
      if gap <= 0.0 {
        return;
      }
      if gap > lim.cap {
        gap := lim.cap;
      }
      var b := DayRow(ts);
      lifetime := lifetime.(monitored := lifetime.monitored + gap);
      b := b.(monitored := b.monitored + gap);
      if lastHealthy == Some(true) {
        lifetime := lifetime.(up := lifetime.up + gap);
        b := b.(up := b.up + gap);
      } else {
        lifetime := lifetime.(down := lifetime.down + gap);
        b := b.(down := b.down + gap);
      }
      daily := SetRow(daily, Day(ts), b);
    }

    method AppendOutage(record: Record)
      modifies `outagesFile
      ensures outagesFile == LastN(old(outagesFile) + [record], lim.maxOutages)
    {
      outagesFile := outagesFile + [record];
      if |outagesFile| > lim.maxOutages {
        outagesFile := outagesFile[|outagesFile| - lim.maxOutages..];
      }
    }

    method CloseOutage(ts: real)
      requires currentOutage.Some?
      modifies `outagesFile, `lifetime, `daily, `lastOutage, `currentOutage
      ensures View() == CloseStep(lim, old(View()), old(currentOutage.value), ts)
    {
      var oc := currentOutage.value;
      var duration := ts - oc.start;
      var record := RecordFrom(oc, ts);
      AppendOutage(record);
      lifetime := lifetime.(outages := lifetime.outages + 1);
      var b := DayRow(ts);
      b := b.(outages := b.outages + 1);
      if duration > b.longest {
        b := b.(longest := duration);
      }
      daily := SetRow(daily, Day(ts), b);
      lastOutage := Some(record.summary);
      currentOutage := None;
    }

    method Record(p: Probe) returns (recovered: bool)
      modifies this
      ensures View() == ObserveStep(lim, old(View()), p)
      ensures recovered <==> p.healthy && old(currentOutage).Some?
    {
      hide AccountStep, HealthyStep, FailedStep;
      Account(p.ts);
      if lifetime.firstSeen.None? {
        lifetime := lifetime.(firstSeen := Some(p.ts));
      }
      AccountKeepsOutage(lim, old(View()), p.ts);
      if p.healthy {
        recovered := RecordHealthy(p.ts);
      } else {
        RecordFailed(p);
        recovered := false;
      }
      lastProbeAt := Some(p.ts);
      lastHealthy := Some(p.healthy);
    }

    /** The healthy branch of `record`. */
    method RecordHealthy(ts: real) returns (recovered: bool)
      modifies this
      ensures View() == HealthyStep(lim, old(View()), ts)
      ensures recovered <==> old(currentOutage).Some?
    {
      hide CloseStep, WithDay;
      var b := DayRow(ts);
      lifetime := lifetime.(probesOk := lifetime.probesOk + 1);
      daily := SetRow(daily, Day(ts), b.(ok := b.ok + 1));
      recovered := currentOutage.Some?;
      if recovered {
        CloseOutage(ts);
      }
    }

    /** The failing branch of `record`. */
    method RecordFailed(p: Probe)
      modifies this
      ensures View() == FailedStep(lim, old(View()), p)
    {
      hide WithDay, AddFailure;
      var b := DayRow(p.ts);
      lifetime := lifetime.(probesFail := lifetime.probesFail + 1);
      daily := SetRow(daily, Day(p.ts), b.(fail := b.fail + 1));
      if currentOutage.None? {
        currentOutage := Some(Outage(p.ts, 0, [], [], false));
      }
      currentOutage := Some(AddFailure(lim, currentOutage.value, p));
    }

    method MarkAlerted()
      modifies `currentOutage, `lifetime
      ensures View() == MarkStep(old(View()))
    {
      if currentOutage.Some? && !currentOutage.value.alerted {
        currentOutage := Some(currentOutage.value.(alerted := true));
        lifetime := lifetime.(alertedOutages := lifetime.alertedOutages + 1);
      }
    }

    /** `_window`: up and down seconds of the last `days` days. */
    method Window(days: nat, today: int) returns (up: real, down: real)
      ensures up == WindowSum(daily, today, days, Up) && down == WindowSum(daily, today, days, Down)
    {
      up, down := 0.0, 0.0;
      for i := 0 to days
        invariant up == WindowSum(daily, today, i, Up) && down == WindowSum(daily, today, i, Down)
      {
        if today - i in daily {
          up := up + daily[today - i].up;
          down := down + daily[today - i].down;
        }
      }
    }

    method Save(healthy: bool) returns (saved: Saved)
      ensures saved == SaveStep(View(), healthy)
    {
      saved := Saved(lifetime, lastProbeAt, Some(healthy), currentOutage, lastOutage, daily);
    }
  }
}
