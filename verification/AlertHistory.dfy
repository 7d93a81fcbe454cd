/** When the watchdog notifies, told from the history of its probes alone
    (watchdog/watchdog.py, `main`). One process is a sequence of ticks. */
module AlertHistory {
  import opened Common
  import UptimeTrace

  /** One turn of the loop: the mail probe, the time since the process started, and the
      probe of the university path. */
  datatype Tick = Tick(p: UptimeTrace.Probe, elapsed: real, upOk: bool)

  /** `open` is the number of failed probes of the outage the process resumes; 0 for none. */
  datatype Setup = Setup(threshold: int, grace: real, upstream: bool, open: nat)

  datatype Alert = Online | Recovered | Down | NeverUp | UpstreamDown | UpstreamRestored

  function Threshold(c: Setup): nat { if c.threshold < 1 then 1 else c.threshold }

  // ---- What each alert means ---------------------------------------------------------------

  ghost predicate SeenUp(t: seq<Tick>, n: nat)
    requires n <= |t|
  {
    exists i :: 0 <= i < n && t[i].p.healthy
  }

  /** Failed probes at the end of the first `n` ticks. */
  function Streak(t: seq<Tick>, n: nat): (s: nat)
    requires n <= |t|
    ensures s <= n && (forall i :: n - s <= i < n ==> !t[i].p.healthy)
    ensures s == n || t[n - s - 1].p.healthy
  {
    if n == 0 || t[n - 1].p.healthy then 0 else Streak(t, n - 1) + 1
  }

  /** The streak after a healthy tick of this process has just reached the threshold. */
  ghost predicate DownAt(c: Setup, t: seq<Tick>, k: nat)
    requires k < |t|
  {
    !t[k].p.healthy && Streak(t, k + 1) == Threshold(c) && SeenUp(t, k)
  }

  /** The streak that ends here reached the threshold, or was the outage resumed. */
  ghost predicate RecoveredAt(c: Setup, t: seq<Tick>, k: nat)
    requires k < |t|
  {
    t[k].p.healthy && if SeenUp(t, k) then Streak(t, k) >= Threshold(c) else c.open > 0
  }

  ghost predicate OnlineAt(c: Setup, t: seq<Tick>, k: nat)
    requires k < |t|
  {
    t[k].p.healthy && !SeenUp(t, k) && c.open == 0
  }

  /** The first tick beyond the grace period, with nothing healthy so far. */
  ghost predicate NeverUpAt(c: Setup, t: seq<Tick>, k: nat)
    requires k < |t|
  {
    && c.open == 0 && !SeenUp(t, k + 1)
    && t[k].elapsed > c.grace && forall i :: 0 <= i < k ==> t[i].elapsed <= c.grace
  }

  ghost function MailAlert(c: Setup, t: seq<Tick>, k: nat): seq<Alert>
    requires k < |t|
  {
    if DownAt(c, t, k) then [Down]
    else if RecoveredAt(c, t, k) then [Recovered]
    else if OnlineAt(c, t, k) then [Online]
    else if NeverUpAt(c, t, k) then [NeverUp]
    else []
  }

  /** The university path failed on a healthy tick and has not been seen up since. */
  ghost predicate Pending(t: seq<Tick>, n: nat)
    requires n <= |t|
  {
    exists i :: 0 <= i < n && t[i].p.healthy && forall j :: i <= j < n ==> !t[j].upOk
  }

  ghost function UpstreamAlert(c: Setup, t: seq<Tick>, k: nat): seq<Alert>
    requires k < |t|
  {
    if c.upstream && !t[k].upOk && t[k].p.healthy && !Pending(t, k) then [UpstreamDown]
    else if c.upstream && t[k].upOk && Pending(t, k) then [UpstreamRestored]
    else []
  }

  ghost function MailAlerts(c: Setup, t: seq<Tick>, n: nat): seq<Alert>
    requires n <= |t|
  {
    if n == 0 then [] else MailAlerts(c, t, n - 1) + MailAlert(c, t, n - 1)
  }

  ghost function UpstreamAlerts(c: Setup, t: seq<Tick>, n: nat): seq<Alert>
    requires n <= |t|
  {
    if n == 0 then [] else UpstreamAlerts(c, t, n - 1) + UpstreamAlert(c, t, n - 1)
  }

  /** Everything the process has sent after `n` ticks, in order. */
  ghost function Alerts(c: Setup, t: seq<Tick>, n: nat): seq<Alert>
    requires n <= |t|
  {
    if n == 0 then [] else Alerts(c, t, n - 1) + MailAlert(c, t, n - 1) + UpstreamAlert(c, t, n - 1)
  }

  // ---- What the loop's variables mean -------------------------------------------------------

  ghost function StateAt(c: Setup, t: seq<Tick>, n: nat): Option<bool>
    requires n <= |t|
  {
    if SeenUp(t, n) then Some(Streak(t, n) < Threshold(c))
    else if c.open > 0 then Some(false)
    else None
  }

  ghost function FailsAt(c: Setup, t: seq<Tick>, n: nat): nat
    requires n <= |t|
  {
    Streak(t, n) + if SeenUp(t, n) then 0 else c.open
  }

  ghost predicate WarnedAt(c: Setup, t: seq<Tick>, n: nat)
    requires n <= |t|
  {
    c.open == 0 && exists i :: 0 <= i < n && !SeenUp(t, i + 1) && t[i].elapsed > c.grace
  }

  lemma SeenUpNext(t: seq<Tick>, n: nat)
    requires n < |t|
    ensures SeenUp(t, n + 1) <==> SeenUp(t, n) || t[n].p.healthy
    ensures !SeenUp(t, n) ==> Streak(t, n) == n
  {
  }

  lemma PendingNext(t: seq<Tick>, n: nat)
    requires n < |t|
    ensures Pending(t, n + 1) <==> !t[n].upOk && (t[n].p.healthy || Pending(t, n))
  {
    if Pending(t, n) && !t[n].upOk {
      var i :| 0 <= i < n && t[i].p.healthy && forall j :: i <= j < n ==> !t[j].upOk;
      assert forall j :: i <= j < n + 1 ==> !t[j].upOk;
    }
    if t[n].p.healthy && !t[n].upOk {
      assert forall j :: n <= j < n + 1 ==> !t[j].upOk;
    }
    if Pending(t, n + 1) {
      var i :| 0 <= i < n + 1 && t[i].p.healthy && forall j :: i <= j < n + 1 ==> !t[j].upOk;
      assert !t[n].upOk;
      if i < n {
        assert forall j :: i <= j < n ==> !t[j].upOk;
      }
    }
  }

  lemma WarnedNext(c: Setup, t: seq<Tick>, n: nat)
    requires n < |t|
    ensures NeverUpAt(c, t, n) <==>
            c.open == 0 && !SeenUp(t, n + 1) && t[n].elapsed > c.grace && !WarnedAt(c, t, n)
    ensures WarnedAt(c, t, n + 1) <==> WarnedAt(c, t, n) || NeverUpAt(c, t, n)
  {
    SeenUpNext(t, n);
    if !SeenUp(t, n) {
      assert forall i :: 0 <= i < n && t[i].elapsed > c.grace ==> !SeenUp(t, i + 1);
    }
    if WarnedAt(c, t, n) {
      var i :| 0 <= i < n && !SeenUp(t, i + 1) && t[i].elapsed > c.grace;
      assert WarnedAt(c, t, n + 1);
    }
    if NeverUpAt(c, t, n) {
      assert WarnedAt(c, t, n + 1);
    }
  }

  /** What one tick changes; the loop body does exactly this. */
  lemma HealthyTick(c: Setup, t: seq<Tick>, n: nat)
    requires n < |t| && t[n].p.healthy
    ensures StateAt(c, t, n + 1) == Some(true) && FailsAt(c, t, n + 1) == 0
    ensures WarnedAt(c, t, n + 1) == WarnedAt(c, t, n)
    ensures MailAlert(c, t, n) == match StateAt(c, t, n)
              case None => [Online]
              case Some(up) => if up then [] else [Recovered]
  {
    SeenUpNext(t, n);
    WarnedNext(c, t, n);
  }

  lemma FailedTick(c: Setup, t: seq<Tick>, n: nat)
    requires n < |t| && !t[n].p.healthy
    ensures FailsAt(c, t, n + 1) == FailsAt(c, t, n) + 1
    ensures
      var down := StateAt(c, t, n) == Some(true) && FailsAt(c, t, n + 1) >= c.threshold;
      var never := StateAt(c, t, n).None? && !WarnedAt(c, t, n) && t[n].elapsed > c.grace;
      && MailAlert(c, t, n) == (if down then [Down] else if never then [NeverUp] else [])
      && StateAt(c, t, n + 1) == (if down then Some(false) else StateAt(c, t, n))
      && WarnedAt(c, t, n + 1) == (WarnedAt(c, t, n) || never)
  {
    SeenUpNext(t, n);
    WarnedNext(c, t, n);
  }

  // ---- Protocol ---------------------------------------------------------------------------------

  predicate Alternates(ws: seq<Alert>, a: Alert, b: Alert) {
    forall i :: 0 <= i < |ws| ==> ws[i] == if i % 2 == 0 then a else b
  }

  /** A prefix of `[NeverUp] Online (Down Recovered)*`, or of `Recovered (Down Recovered)*`
      for a process that resumes an outage. */
  predicate MailShape(resumed: bool, ws: seq<Alert>) {
    if resumed then Alternates(ws, Recovered, Down)
    else
      var rest := if ws != [] && ws[0] == NeverUp then ws[1..] else ws;
      rest == [] || (rest[0] == Online && Alternates(rest[1..], Down, Recovered))
  }

  /** The shape, with what the last alert says about the loop's state. */
  ghost predicate InProtocol(c: Setup, t: seq<Tick>, n: nat, ws: seq<Alert>)
    requires n <= |t|
  {
    && MailShape(c.open > 0, ws)
    && match StateAt(c, t, n)
       case None => ws == if WarnedAt(c, t, n) then [NeverUp] else []
       case Some(true) => ws != [] && (ws[|ws| - 1] == Online || ws[|ws| - 1] == Recovered)
       case Some(false) => if c.open > 0 && ws == [] then true else ws != [] && ws[|ws| - 1] == Down
  }

  lemma AlternatesLast(ws: seq<Alert>, a: Alert, b: Alert)
    requires Alternates(ws, a, b) && ws != []
    ensures ws[|ws| - 1] == a || ws[|ws| - 1] == b
  {
  }

  lemma AlternatesGrows(ws: seq<Alert>, x: Alert, a: Alert, b: Alert)
    requires Alternates(ws, a, b) && a != b
    requires x == if ws != [] && ws[|ws| - 1] == a then b else a
    ensures Alternates(ws + [x], a, b)
  {
  }

  lemma ShapeGrows(resumed: bool, ws: seq<Alert>, a: Alert)
    requires MailShape(resumed, ws)
    requires
      if ws == [] then a == (if resumed then Recovered else Online) || (!resumed && a == NeverUp)
      else if ws == [NeverUp] then a == Online
      else if ws[|ws| - 1] == Down then a == Recovered
      else ws[|ws| - 1] in {Online, Recovered} && a == Down
    ensures MailShape(resumed, ws + [a])
  {
    hide Alternates;
    var us := ws + [a];
    if resumed {
      if ws != [] {
        AlternatesLast(ws, Recovered, Down);
      }
      AlternatesGrows(ws, a, Recovered, Down);
    } else if ws != [] {
      var rest := if ws[0] == NeverUp then ws[1..] else ws;
      assert us[0] == ws[0] && us[1..] == ws[1..] + [a];
      if rest != [] {
        if |rest| > 1 {
          AlternatesLast(rest[1..], Down, Recovered);
        }
        AlternatesGrows(rest[1..], a, Down, Recovered);
        assert (rest + [a])[1..] == rest[1..] + [a];
      } else {
        assert ws == [NeverUp] && us[1..] == [a] && us[1..][1..] == [];
        AlternatesEmpty(Down, Recovered);
      }
    } else {
      assert us[1..] == [];
      AlternatesEmpty(Down, Recovered);
    }
  }

  lemma AlternatesEmpty(a: Alert, b: Alert)
    ensures Alternates([], a, b)
  {
  }

  lemma ProtocolStep(c: Setup, t: seq<Tick>, n: nat, ws: seq<Alert>)
    requires n < |t| && InProtocol(c, t, n, ws)
    ensures InProtocol(c, t, n + 1, ws + MailAlert(c, t, n))
  {
    hide StateAt, WarnedAt, MailAlert, FailsAt, MailShape;
    if t[n].p.healthy {
      HealthyTick(c, t, n);
    } else {
      FailedTick(c, t, n);
    }
    var due := MailAlert(c, t, n);
    if due == [] {
      assert ws + due == ws;
    } else {
      NotResumed(c, t, n);
      ShapeGrows(c.open > 0, ws, due[0]);
    }
  }

  lemma NotResumed(c: Setup, t: seq<Tick>, n: nat)
    requires n <= |t|
    ensures StateAt(c, t, n).None? ==> c.open == 0
    ensures c.open > 0 ==> !WarnedAt(c, t, n)
  {
  }

  /** Main-path notifications of a process always follow the protocol. */
  lemma {:induction false} MailProtocol(c: Setup, t: seq<Tick>, n: nat)
    requires n <= |t|
    ensures MailShape(c.open > 0, MailAlerts(c, t, n))
    ensures InProtocol(c, t, n, MailAlerts(c, t, n))
  {
    if n > 0 {
      MailProtocol(c, t, n - 1);
      ProtocolStep(c, t, n - 1, MailAlerts(c, t, n - 1));
    }
  }

  lemma UpstreamTurn(ws: seq<Alert>, a: Alert)
    requires Alternates(ws, UpstreamDown, UpstreamRestored)
    requires a == if |ws| % 2 == 0 then UpstreamDown else UpstreamRestored
    ensures Alternates(ws + [a], UpstreamDown, UpstreamRestored)
  {
  }

  /** Upstream notifications strictly alternate, beginning with "down". */
  lemma {:induction false} UpstreamProtocol(c: Setup, t: seq<Tick>, n: nat)
    requires n <= |t|
    ensures Alternates(UpstreamAlerts(c, t, n), UpstreamDown, UpstreamRestored)
    ensures (c.upstream && Pending(t, n)) <==> |UpstreamAlerts(c, t, n)| % 2 == 1
  {
    if n > 0 {
      hide Pending, Alternates;
      var ws, due := UpstreamAlerts(c, t, n - 1), UpstreamAlert(c, t, n - 1);
      UpstreamProtocol(c, t, n - 1);
      PendingNext(t, n - 1);
      if due == [] {
        assert ws + due == ws;
      } else {
        UpstreamTurn(ws, due[0]);
      }
    }
  }

  predicate OnMainPath(a: Alert) { a in {Online, Recovered, Down, NeverUp} }

  function Only(ws: seq<Alert>, mail: bool): seq<Alert> {
    if ws == [] then []
    else
      var n := |ws| - 1;
      Only(ws[..n], mail) + if OnMainPath(ws[n]) == mail then [ws[n]] else []
  }

  lemma {:induction false} OnlyJoins(ws: seq<Alert>, vs: seq<Alert>, mail: bool)
    ensures Only(ws + vs, mail) == Only(ws, mail) + Only(vs, mail)
  {
    if vs == [] {
      assert ws + vs == ws;
    } else {
      var n := |vs| - 1;
      OnlyJoins(ws, vs[..n], mail);
      assert (ws + vs)[..|ws| + n] == ws + vs[..n];
    }
  }

  lemma OnlyShort(ws: seq<Alert>, mail: bool)
    requires |ws| <= 1
    ensures Only(ws, mail) == if ws != [] && OnMainPath(ws[0]) != mail then [] else ws
  {
    if ws != [] {
      assert Only(ws[..0], mail) == [];
    }
  }

  lemma AlertPaths(c: Setup, t: seq<Tick>, k: nat)
    requires k < |t|
    ensures Only(MailAlert(c, t, k), true) == MailAlert(c, t, k) && Only(MailAlert(c, t, k), false) == []
    ensures Only(UpstreamAlert(c, t, k), true) == [] && Only(UpstreamAlert(c, t, k), false) == UpstreamAlert(c, t, k)
  {
    hide DownAt, RecoveredAt, OnlineAt, NeverUpAt, Pending, Only;
    OnlyShort(MailAlert(c, t, k), true);
    OnlyShort(MailAlert(c, t, k), false);
    OnlyShort(UpstreamAlert(c, t, k), true);
    OnlyShort(UpstreamAlert(c, t, k), false);
  }

  lemma {:induction false} AlertsSplit(c: Setup, t: seq<Tick>, n: nat)
    requires n <= |t|
    ensures Only(Alerts(c, t, n), true) == MailAlerts(c, t, n)
    ensures Only(Alerts(c, t, n), false) == UpstreamAlerts(c, t, n)
  {
    hide MailAlert, UpstreamAlert;
    if n > 0 {
      hide Only;
      var ws, m, u := Alerts(c, t, n - 1), MailAlert(c, t, n - 1), UpstreamAlert(c, t, n - 1);
      AlertsSplit(c, t, n - 1);
      AlertPaths(c, t, n - 1);
      OnlyJoins(ws, m, true);
      OnlyJoins(ws, m, false);
      OnlyJoins(ws + m, u, true);
      OnlyJoins(ws + m, u, false);
      assert MailAlerts(c, t, n - 1) + m + [] == MailAlerts(c, t, n);
      assert UpstreamAlerts(c, t, n - 1) + [] + u == UpstreamAlerts(c, t, n);
    }
  }

  /** Everything a process sends: on the main path and on the university path. */
  lemma AlertProtocol(c: Setup, t: seq<Tick>)
    ensures var sent := Alerts(c, t, |t|);
            && MailShape(c.open > 0, Only(sent, true))
            && Alternates(Only(sent, false), UpstreamDown, UpstreamRestored)
  {
    AlertsSplit(c, t, |t|);
    MailProtocol(c, t, |t|);
    UpstreamProtocol(c, t, |t|);
  }

  // ---- Which outages are announced -------------------------------------------------------------

  /** Ticks `s..e` are a whole failure streak of the process: still running when it ends
      with the last tick, otherwise ended by the healthy tick `e`. */
  ghost predicate FailureStreak(t: seq<Tick>, s: nat, e: nat) {
    && s < e <= |t| && (e == |t| || t[e].p.healthy) && (s == 0 || t[s - 1].p.healthy)
    && forall i :: s <= i < e ==> !t[i].p.healthy
  }

  ghost predicate DownSent(c: Setup, t: seq<Tick>, s: nat, e: nat)
    requires e <= |t|
  {
    exists k :: s <= k < e && MailAlert(c, t, k) == [Down]
  }

  lemma {:induction false} StreakWithin(t: seq<Tick>, s: nat, k: nat)
    requires s <= k <= |t| && (s == 0 || t[s - 1].p.healthy) && forall i :: s <= i < k ==> !t[i].p.healthy
    ensures Streak(t, k) == k - s
  {
    if k > s {
      StreakWithin(t, s, k - 1);
    }
  }

  lemma AlertsInStreak(c: Setup, t: seq<Tick>, s: nat, e: nat, k: nat)
    requires FailureStreak(t, s, e) && s <= k < e
    ensures s > 0 ==> MailAlert(c, t, k) == if k == s + Threshold(c) - 1 then [Down] else []
    ensures s == 0 && c.open > 0 ==> MailAlert(c, t, k) == []
    ensures s == 0 && c.open == 0 ==> MailAlert(c, t, k) == if NeverUpAt(c, t, k) then [NeverUp] else []
  {
    StreakWithin(t, s, k + 1);
    assert s > 0 ==> t[s - 1].p.healthy && SeenUp(t, k);
  }

  lemma AlertAfterStreak(c: Setup, t: seq<Tick>, s: nat, e: nat)
    requires FailureStreak(t, s, e) && e < |t|
    ensures MailAlert(c, t, e) == if s == 0 then (if c.open > 0 then [Recovered] else [Online])
                                  else if e - s >= Threshold(c) then [Recovered] else []
  {
    StreakWithin(t, s, e);
    assert s > 0 ==> t[s - 1].p.healthy && SeenUp(t, e);
  }

  /** Which outages are announced, for every failure streak, ended or not. One that follows a
      healthy tick of the same process is announced iff it comes to as many failures as the
      threshold says, at the probe that completes them and only there, and its end iff it was
      announced. One from the start of the process is announced, unless the process resumed
      it, at the first tick beyond the grace period; its end is "recovered" if resumed and
      "online" if not. */
  lemma OutageAnnounced(c: Setup, t: seq<Tick>, s: nat, e: nat)
    requires FailureStreak(t, s, e)
    ensures var n := if c.threshold < 1 then 1 else c.threshold;
            && (DownSent(c, t, s, e) <==> s > 0 && e - s >= n)
            && (s > 0 ==> forall k :: s <= k < e ==> MailAlert(c, t, k) == if k == s + n - 1 then [Down] else [])
            && (s == 0 ==> forall k :: 0 <= k < e ==>
                  MailAlert(c, t, k) == if c.open == 0 && t[k].elapsed > c.grace && (forall i :: 0 <= i < k ==> t[i].elapsed <= c.grace)
                                           then [NeverUp] else [])
    ensures e < |t| ==>
              MailAlert(c, t, e) == if s == 0 then (if c.open > 0 then [Recovered] else [Online])
                                    else if DownSent(c, t, s, e) then [Recovered] else []
  {
    hide MailAlert;
    forall k | s <= k < e
      ensures s > 0 ==> MailAlert(c, t, k) == if k == s + Threshold(c) - 1 then [Down] else []
      ensures s == 0 ==> MailAlert(c, t, k) == if c.open == 0 && NeverUpAt(c, t, k) then [NeverUp] else []
    {
      AlertsInStreak(c, t, s, e, k);
      assert !SeenUp(t, k + 1) || s > 0;
    }
    if s > 0 && e - s >= Threshold(c) {
      var k := s + Threshold(c) - 1;
      assert MailAlert(c, t, k) == [Down];
    }
    if e < |t| {
      AlertAfterStreak(c, t, s, e);
    }
  }

  /** A healthy tick that ends no failure streak is silent, but for the first one. */
  lemma HealthyTickSilent(c: Setup, t: seq<Tick>, k: nat)
    requires k < |t| && t[k].p.healthy && (k == 0 || t[k - 1].p.healthy)
    ensures MailAlert(c, t, k) == if k > 0 then [] else if c.open > 0 then [Recovered] else [Online]
  {
    assert k > 0 ==> SeenUp(t, k);
  }

  /** The university path is down in ticks `s..e` and in none next to them. */
  ghost predicate PathDown(t: seq<Tick>, s: nat, e: nat) {
    && s < e <= |t| && (forall i :: s <= i < e ==> !t[i].upOk)
    && (s == 0 || t[s - 1].upOk) && (e == |t| || t[e].upOk)
  }

  lemma PendingWithin(t: seq<Tick>, s: nat, k: nat)
    requires s <= k <= |t| && (s == 0 || t[s - 1].upOk) && forall i :: s <= i < k ==> !t[i].upOk
    ensures Pending(t, k) <==> exists i :: s <= i < k && t[i].p.healthy
  {
    if Pending(t, k) {
      var i :| 0 <= i < k && t[i].p.healthy && forall j :: i <= j < k ==> !t[j].upOk;
      assert s == 0 || t[s - 1].upOk;
    }
  }

  /** Which failures of the university path are announced, for every stretch of them: at the
      first tick of it at which the mail path is healthy, and only there; its end iff the
      stretch was announced. */
  lemma PathAnnounced(c: Setup, t: seq<Tick>, s: nat, e: nat)
    requires PathDown(t, s, e)
    ensures forall k :: s <= k < e ==>
              UpstreamAlert(c, t, k) == if c.upstream && t[k].p.healthy && (forall i :: s <= i < k ==> !t[i].p.healthy)
                                        then [UpstreamDown] else []
    ensures e < |t| ==>
              UpstreamAlert(c, t, e) == if c.upstream && exists i :: s <= i < e && t[i].p.healthy
                                        then [UpstreamRestored] else []
  {
    hide Pending;
    forall k | s <= k <= e
      ensures Pending(t, k) <==> exists i :: s <= i < k && t[i].p.healthy
    {
      PendingWithin(t, s, k);
    }
  }

  /** Nothing is said of a path that is up and was up before. */
  lemma PathUpSilent(c: Setup, t: seq<Tick>, k: nat)
    requires k < |t| && t[k].upOk && (k == 0 || t[k - 1].upOk)
    ensures UpstreamAlert(c, t, k) == []
  {
  }
}
