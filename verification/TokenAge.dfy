/** How old a session token can get under the refresh schedule (vpn/entrypoint.sh). */
module TokenAge {
  import opened VpnSupervisor
  import opened RefreshSchedule

  /** The timer is set by the schedule and rings on time. From the age check to the timer, and
      from its flag to its signal, at most `lag` seconds pass. */
  ghost predicate Punctual(times: seq<Minute>, lag: nat, s: State, a: Action) {
    match a
    case Tick(d) =>
      && (s.pc.Raise? || s.pc.Arm? ==> s.now + d <= s.checkedAt + lag)
      && (s.timer.Armed? ==> s.now + d <= s.timer.at)
      && (s.timer.Touched? ==> s.now + d <= s.timer.at + lag)
    case ArmTimer(refreshIn) => IsNext(times, s.now, s.now + refreshIn)
    case _ => true
  }

  /** The token is to be discarded: its timer has rung. */
  predicate Doomed(s: State) { s.timer.Touched? || s.timer.Fired? || (s.pc.Decide? && s.flag) }

  /** While there is a token, scheduled times come only while a tunnel is up with its timer,
      and the timer rings before it is killed. */
  ghost predicate Covered(times: seq<Minute>, s: State, a: Action) {
    match a
    case Tick(d) => s.cookie == "" || Doomed(s) || s.timer.Armed? || NoneIn(times, s.now, s.now + d + 1)
    case Reap => s.timer.Armed? ==> s.now < s.timer.at
    case _ => true
  }

  /** No listed time strictly between the two. */
  ghost predicate NoneIn(times: seq<Minute>, lo: int, hi: int) { forall x :: lo < x < hi ==> !Scheduled(times, x) }

  ghost predicate PunctualRun(cfg: Config, times: seq<Minute>, lag: nat, covered: bool, start: int, acts: seq<Action>) {
    acts == [] ||
    var before, a := acts[..|acts| - 1], acts[|acts| - 1];
    && PunctualRun(cfg, times, lag, covered, start, before)
    && Exec(cfg, start, before).At? && Enabled(Exec(cfg, start, before).s, a)
    && Punctual(times, lag, Exec(cfg, start, before).s, a)
    && (covered ==> Covered(times, Exec(cfg, start, before).s, a))
  }

  // ---- The bound ---------------------------------------------------------------------------

  /** The greatest age, and one second, that passes the check. */
  function Fresh(cfg: Config): int { if cfg.maxAge > 1 then cfg.maxAge else 1 }

  /** Bounds on the token's age until the session is ended; `gap` is in minutes. */
  ghost predicate AgeInv(cfg: Config, lag: nat, gap: int, s: State) {
    && (s.pc.Raise? || s.pc.Arm? ==> s.now <= s.checkedAt + lag && s.checkedAt - s.minted < Fresh(cfg))
    && (s.timer.Armed? || s.timer.Touched? ==>
          s.checkedAt - s.minted < Fresh(cfg) && s.timer.at <= s.checkedAt + lag + 60 * gap)
    && (s.timer.Armed? ==> s.now <= s.timer.at)
    && (s.timer.Touched? ==> s.now <= s.timer.at + lag)
    && (s.pc.Wait? ==> !s.timer.Off?)
    && (s.tunnelUp ==> s.pc.Arm? || s.pc.Wait?)
    && (!s.timer.Off? ==> s.pc.Wait?)
    && gap > 0
  }

  lemma AgeStep(cfg: Config, times: seq<Minute>, lag: nat, gap: int, s: State, a: Action)
    requires AgeInv(cfg, lag, gap, s) && Enabled(s, a) && Punctual(times, lag, s, a)
    requires times != [] && IsMaxGap(Sort(times), gap)
    ensures AgeInv(cfg, lag, gap, Step(cfg, s, a))
  {
    if a.ArmTimer? {
      MaxGapIsWorstWait(times, gap);
      assert IsNext(times, s.now, s.now + a.refreshIn);
    }
    hide IsNext, IsMaxGap, EndRun;
  }

  lemma GapPositive(times: seq<Minute>, gap: int)
    requires times != [] && IsMaxGap(Sort(times), gap)
    ensures gap > 0
  {
    var s := Sort(times);
    SortSorted(times);
    GapsFillTheDay(s);
    if gap <= 0 {
      GapSumSmall(s, |s|, gap);
    }
  }

  lemma {:induction false} GapSumSmall(s: seq<Minute>, n: int, gap: int)
    requires 0 <= n <= |s| && gap <= 0 && forall i :: 0 <= i < |s| ==> Gap(s, i) <= gap
    ensures GapSum(s, n) <= 0
  {
    if n > 0 {
      GapSumSmall(s, n - 1, gap);
    }
  }

  lemma {:induction false} AgeRun(cfg: Config, times: seq<Minute>, lag: nat, covered: bool, gap: int, start: int,
                                  acts: seq<Action>)
    requires PunctualRun(cfg, times, lag, covered, start, acts) && times != [] && IsMaxGap(Sort(times), gap)
    ensures Exec(cfg, start, acts).At? && AgeInv(cfg, lag, gap, Exec(cfg, start, acts).s)
  {
    GapPositive(times, gap);
    if acts != [] {
      hide AgeInv, Punctual, Covered;
      var before, a := acts[..|acts| - 1], acts[|acts| - 1];
      AgeRun(cfg, times, lag, covered, gap, start, before);
      AgeStep(cfg, times, lag, gap, Exec(cfg, start, before).s, a);
    } else {
      AgeAtStart(cfg, lag, gap, start);
    }
  }

  lemma AgeAtStart(cfg: Config, lag: nat, gap: int, start: int)
    requires gap > 0
    ensures AgeInv(cfg, lag, gap, Init(start))
  {
  }

  /** A tunnel is refreshed within the largest gap of the schedule, so while one is up and
      has not been told to end, its token is younger than the age limit plus that gap, apart
      from the time commands take. */
  lemma TokenAgeBound(cfg: Config, times: seq<Minute>, lag: nat, gap: int, start: int, acts: seq<Action>)
    requires PunctualRun(cfg, times, lag, false, start, acts) && times != [] && IsMaxGap(Sort(times), gap)
    ensures Exec(cfg, start, acts).At?
    ensures var s := Exec(cfg, start, acts).s;
            && (s.timer.Armed? ==> s.now <= s.timer.at <= s.checkedAt + lag + 60 * gap)
            && (s.tunnelUp && !s.timer.Fired? ==>
                  s.now - s.minted < Fresh(cfg) + 60 * gap + if s.timer.Touched? then 2 * lag else lag)
  {
    AgeRun(cfg, times, lag, false, gap, start, acts);
  }

  // ---- With a tunnel up at every scheduled time -----------------------------------------------

  /** No scheduled time has passed since the token was minted, except the one that is just
      ringing. */
  ghost predicate YoungInv(times: seq<Minute>, s: State) {
    && (s.timer.Touched? || s.timer.Fired? ==> s.flag)
    && (s.cookie != "" && (s.timer.Armed? || s.timer.Touched?) ==> NoneIn(times, s.minted, s.timer.at))
    && (s.cookie != "" && s.timer.Off? && !Doomed(s) && s.pc != Halted ==> NoneIn(times, s.minted, s.now + 1))
  }

  lemma YoungStep(cfg: Config, times: seq<Minute>, lag: nat, gap: int, s: State, a: Action)
    requires YoungInv(times, s) && AgeInv(cfg, lag, gap, s)
    requires Enabled(s, a) && Punctual(times, lag, s, a) && Covered(times, s, a)
    ensures YoungInv(times, Step(cfg, s, a))
  {
    hide EndRun, Scheduled, Fresh;
  }

  lemma {:induction false} YoungRun(cfg: Config, times: seq<Minute>, lag: nat, gap: int, start: int, acts: seq<Action>)
    requires PunctualRun(cfg, times, lag, true, start, acts) && times != [] && IsMaxGap(Sort(times), gap)
    ensures Exec(cfg, start, acts).At? && YoungInv(times, Exec(cfg, start, acts).s)
  {
    if acts != [] {
      hide AgeInv, YoungInv, Punctual, Covered;
      var before, a := acts[..|acts| - 1], acts[|acts| - 1];
      AgeRun(cfg, times, lag, true, gap, start, before);
      YoungRun(cfg, times, lag, gap, start, before);
      YoungStep(cfg, times, lag, gap, Exec(cfg, start, before).s, a);
    }
  }

  /** With a tunnel up at each scheduled time since its login, the token never outlives the
      gap: the first of these times ends it. */
  lemma TokenWithinGap(cfg: Config, times: seq<Minute>, lag: nat, gap: int, start: int, acts: seq<Action>)
    requires PunctualRun(cfg, times, lag, true, start, acts) && times != [] && IsMaxGap(Sort(times), gap)
    ensures Exec(cfg, start, acts).At?
    ensures var s := Exec(cfg, start, acts).s;
            s.tunnelUp && !s.timer.Fired? ==> s.now - s.minted <= 60 * gap + if s.timer.Touched? then lag else 0
  {
    AgeRun(cfg, times, lag, true, gap, start, acts);
    YoungRun(cfg, times, lag, gap, start, acts);
    EveryRun(cfg, start, acts);
    var s := Exec(cfg, start, acts).s;
    SortSorted(times);
    var q := TimeWithinGap(Sort(times), gap, s.minted);
    SameSchedule(times, q);
  }

  // ---- Otherwise the bound is reached -----------------------------------------------------------

  lemma Later(times: seq<Minute>, now: int, next: int, days: int)
    requires IsNext(times, now, next)
    ensures IsNext(times, now + DAY * days, next + DAY * days)
  {
    forall x ensures Scheduled(times, x + DAY * days) <==> Scheduled(times, x) {
      SameTimeOfDay(x, days);
    }
    forall y | now + DAY * days < y < next + DAY * days ensures !Scheduled(times, y) {
      assert !Scheduled(times, y - DAY * days);
      assert y == y - DAY * days + DAY * days;
    }
  }

  lemma SameTimeOfDay(x: int, days: int)
    ensures (x + DAY * days) % DAY == x % DAY
  {
  }

  /** Every instant has a next listed time. */
  lemma NextExists(times: seq<Minute>, now: int, gap: int) returns (next: int)
    requires times != [] && IsMaxGap(Sort(times), gap)
    ensures IsNext(times, now, next)
  {
    SortSorted(times);
    var q := TimeWithinGap(Sort(times), gap, now);
    SameSchedule(times, q);
    next := now + 1;
    while !Scheduled(times, next)
      invariant now < next <= q && forall x :: now < x < next ==> !Scheduled(times, x)
      decreases q - next
    {
      next := next + 1;
    }
  }

  lemma SortedNext(times: seq<Minute>, now: int, next: int)
    requires IsNext(Sort(times), now, next)
    ensures IsNext(times, now, next)
  {
    hide Sort, Scheduled;
    forall x ensures Scheduled(times, x) <==> Scheduled(Sort(times), x) {
      SameSchedule(times, x);
    }
  }

  /** The start of the largest gap, on a late enough day. */
  lemma GapStart(times: seq<Minute>, gap: int, days: int) returns (t: int)
    requires times != [] && IsMaxGap(Sort(times), gap)
    ensures DAY * days <= t && IsNext(times, t, t + 60 * gap)
  {
    hide Sort, Gap, IsNext;
    var s := Sort(times);
    SortSorted(times);
    GapPositive(times, gap);
    var i :| 0 <= i < |s| && gap == Gap(s, i);
    WaitAtGapStart(s, i);
    var x := RefreshSchedule.At(s[i]);
    SortedNext(times, x, x + 60 * gap);
    Later(times, x, x + 60 * gap, days);
    t := x + DAY * days;
  }

  lemma Go(cfg: Config, times: seq<Minute>, start: int, acts: seq<Action>, a: Action) returns (more: seq<Action>)
    requires PunctualRun(cfg, times, 0, false, start, acts) && Exec(cfg, start, acts).At?
    requires Enabled(Exec(cfg, start, acts).s, a) && Punctual(times, 0, Exec(cfg, start, acts).s, a)
    ensures more == acts + [a] && PunctualRun(cfg, times, 0, false, start, more)
    ensures Exec(cfg, start, more) == Outcome.At(Step(cfg, Exec(cfg, start, acts).s, a))
  {
    more := acts + [a];
    assert more[..|acts|] == acts;
  }

  /** When scheduled times may fall between two tunnels, the bound is sharp: the first tunnel
      dies at once and the second is raised, with a token one second below the limit, just as
      the largest gap begins. */
  lemma AgeReached(cfg: Config, times: seq<Minute>, gap: int) returns (start: int, acts: seq<Action>)
    requires cfg.maxAge > SHORT_RUN && times != [] && IsMaxGap(Sort(times), gap)
    ensures PunctualRun(cfg, times, 0, false, start, acts) && Exec(cfg, start, acts).At?
    ensures var s := Exec(cfg, start, acts).s;
            s.tunnelUp && s.timer.Armed? && s.now - s.minted == cfg.maxAge - 1 + 60 * gap
  {
    var t := GapStart(times, gap, cfg.maxAge + 1);
    start := t - (cfg.maxAge - 1);
    assert start >= MIN_MINT_SPACING;
    var next := NextExists(times, start, gap);
    acts := FirstTunnel(cfg, times, start, next);
    GapPositive(times, gap);
    acts := SecondTunnel(cfg, times, start, acts, cfg.maxAge - 1, 60 * gap);
  }

  lemma FirstLogin(cfg: Config, times: seq<Minute>, start: int) returns (acts: seq<Action>)
    requires start >= MIN_MINT_SPACING
    ensures PunctualRun(cfg, times, 0, false, start, acts) && Exec(cfg, start, acts).At?
    ensures var s := Exec(cfg, start, acts).s;
            s.now == start == s.minted && s.cookie != "" && s.pc == Raise && s.shortExits == 0
  {
    acts := [];
    assert PunctualRun(cfg, times, 0, false, start, acts) && Exec(cfg, start, acts) == Outcome.At(Init(start));
    hide PunctualRun, Exec, AfterTunnel, IsNext;
    acts := Go(cfg, times, start, acts, CheckToken);
    acts := Go(cfg, times, start, acts, StartLogin);
    acts := Go(cfg, times, start, acts, FinishLogin(Answer("c", "f", "h")));
  }

  lemma RaisedTunnel(cfg: Config, times: seq<Minute>, start: int, next: int) returns (acts: seq<Action>)
    requires start >= MIN_MINT_SPACING && IsNext(times, start, next)
    ensures PunctualRun(cfg, times, 0, false, start, acts) && Exec(cfg, start, acts).At?
    ensures var s := Exec(cfg, start, acts).s;
            && s.now == start == s.minted == s.connStart && s.cookie != "" && s.pc == Wait && s.tunnelUp
            && !s.flag && s.shortExits == 0
  {
    assert next > start;
    hide PunctualRun, Exec, AfterTunnel, AfterLogin, IsNext, NoneIn, Scheduled, Covered;
    acts := FirstLogin(cfg, times, start);
    acts := Go(cfg, times, start, acts, RaiseTunnel);
    acts := Go(cfg, times, start, acts, ArmTimer(next - start));
  }

  lemma DeadTunnel(cfg: Config, times: seq<Minute>, start: int, next: int) returns (acts: seq<Action>)
    requires start >= MIN_MINT_SPACING && IsNext(times, start, next)
    ensures PunctualRun(cfg, times, 0, false, start, acts) && Exec(cfg, start, acts).At?
    ensures var s := Exec(cfg, start, acts).s;
            && s.now == start == s.minted == s.connStart && s.cookie != "" && s.pc == Decide && s.timer.Off?
            && !s.flag && !s.rejectedInLog && s.shortExits == 0
  {
    hide PunctualRun, Exec, AfterTunnel, AfterLogin, IsNext, NoneIn, Scheduled, Covered;
    acts := RaisedTunnel(cfg, times, start, next);
    acts := Go(cfg, times, start, acts, TunnelExit(false));
    acts := Go(cfg, times, start, acts, Reap);
  }

  lemma FirstTunnel(cfg: Config, times: seq<Minute>, start: int, next: int) returns (acts: seq<Action>)
    requires start >= MIN_MINT_SPACING && IsNext(times, start, next)
    ensures PunctualRun(cfg, times, 0, false, start, acts) && Exec(cfg, start, acts).At?
    ensures var s := Exec(cfg, start, acts).s;
            s.now == start == s.minted && s.cookie != "" && s.pc == Sleep(start + 5) && s.timer.Off?
  {
    hide PunctualRun, Exec, EndRun, AfterLogin, IsNext;
    acts := DeadTunnel(cfg, times, start, next);
    acts := Go(cfg, times, start, acts, ComeBack);
  }

  lemma SecondTunnel(cfg: Config, times: seq<Minute>, start: int, acts0: seq<Action>, age: int, wait: int)
    returns (acts: seq<Action>)
    requires PunctualRun(cfg, times, 0, false, start, acts0) && Exec(cfg, start, acts0).At?
    requires var s := Exec(cfg, start, acts0).s;
             s.now == start == s.minted && s.cookie != "" && s.pc == Sleep(start + 5) && s.timer.Off?
    requires 5 <= age < cfg.maxAge && wait >= 0 && IsNext(times, start + age, start + age + wait)
    ensures PunctualRun(cfg, times, 0, false, start, acts) && Exec(cfg, start, acts).At?
    ensures var s := Exec(cfg, start, acts).s; s.tunnelUp && s.timer.Armed? && s.now - s.minted == age + wait
  {
    hide PunctualRun, Exec, EndRun, IsNext;
    acts := Go(cfg, times, start, acts0, Tick(age));
    acts := Go(cfg, times, start, acts, Wake);
    acts := Go(cfg, times, start, acts, CheckToken);
    acts := Go(cfg, times, start, acts, RaiseTunnel);
    acts := Go(cfg, times, start, acts, ArmTimer(wait));
    acts := Go(cfg, times, start, acts, Tick(wait));
  }
}
