/** The shell program of vpn/entrypoint.sh: its functions and its endless loop, on its
    globals and its flag file, with everything outside the program as an input. */
module VpnShell {
  import opened Common
  import opened VpnSupervisor
  import RefreshSchedule

  /** What can happen while a tunnel is raised or waited for. */
  datatype Happening =
    | Goes(d: nat)            // time goes by
    | TimerRings              // the timer's sleep is over: it touches the flag file
    | TimerKills              // ... and sends SIGTERM
    | TunnelDies(rejected: bool)

  /** What the world does in one turn of the loop: how much time commands and sleeps take
      beyond what was asked, what a login prints, and what happens before the timer is set
      and while it runs. */
  datatype Turn = Turn(delay: nat, late: nat, loginTime: nat, answer: Login,
                       arming: seq<Happening>, happenings: seq<Happening>, pauseLate: nat)

  // ---- What a turn amounts to -----------------------------------------------------------------

  /** All three values of a token. */
  predicate Complete(answer: Login) {
    answer.Answer? && answer.cookie != "" && answer.fp != "" && answer.host != ""
  }

  /** The time that goes by. */
  function Elapsed(hs: seq<Happening>): nat {
    if hs == [] then 0
    else Elapsed(hs[..|hs| - 1]) + if hs[|hs| - 1].Goes? then hs[|hs| - 1].d else 0
  }

  ghost predicate Dies(hs: seq<Happening>) { exists k :: 0 <= k < |hs| && hs[k].TunnelDies? }

  /** The tunnel dies of a rejected token. */
  ghost predicate Refuses(hs: seq<Happening>) {
    exists k :: 0 <= k < |hs| && hs[k] == TunnelDies(true) && !Dies(hs[..k])
  }

  /** The timer rings, `wait` seconds or more after it was set. */
  ghost predicate Rings(hs: seq<Happening>, wait: int) {
    exists k :: 0 <= k < |hs| && hs[k] == TimerRings && Elapsed(hs[..k]) >= wait
  }

  lemma DiesNext(hs: seq<Happening>, n: nat)
    requires n < |hs|
    ensures Dies(hs[..n + 1]) <==> Dies(hs[..n]) || hs[n].TunnelDies?
  {
    var t, u := hs[..n + 1], hs[..n];
    assert t[n] == hs[n] && forall k :: 0 <= k < n ==> t[k] == u[k];
    if Dies(u) {
      var k :| 0 <= k < |u| && u[k].TunnelDies?;
      assert t[k].TunnelDies?;
    }
  }

  lemma RefusesNext(hs: seq<Happening>, n: nat)
    requires n < |hs|
    ensures Refuses(hs[..n + 1]) <==> if Dies(hs[..n]) then Refuses(hs[..n]) else hs[n] == TunnelDies(true)
  {
    var t, u := hs[..n + 1], hs[..n];
    assert t[n] == hs[n] && t[..n] == u && forall k :: 0 <= k < n ==> t[k] == u[k] && t[..k] == u[..k];
    if Refuses(u) {
      var k :| 0 <= k < |u| && u[k] == TunnelDies(true) && !Dies(u[..k]);
      assert t[k] == TunnelDies(true) && !Dies(t[..k]);
    }
    if Refuses(t) {
      var k :| 0 <= k < |t| && t[k] == TunnelDies(true) && !Dies(t[..k]);
      if k < n {
        assert u[k].TunnelDies?;
      }
    }
  }

  lemma RingsNext(hs: seq<Happening>, n: nat, wait: int)
    requires n < |hs|
    ensures Rings(hs[..n + 1], wait) <==> Rings(hs[..n], wait) || (hs[n] == TimerRings && Elapsed(hs[..n]) >= wait)
    ensures Elapsed(hs[..n + 1]) == Elapsed(hs[..n]) + if hs[n].Goes? then hs[n].d else 0
  {
    hide Elapsed;
    var t, u := hs[..n + 1], hs[..n];
    assert t[n] == hs[n] && t[..n] == u && forall k :: 0 <= k < n ==> t[k] == u[k] && t[..k] == u[..k];
    if Rings(u, wait) {
      var k :| 0 <= k < |u| && u[k] == TimerRings && Elapsed(u[..k]) >= wait;
      assert t[k] == TimerRings;
    }
    if hs[n] == TimerRings && Elapsed(u) >= wait {
      assert t[n] == TimerRings;
    }
    ElapsedNext(t);
  }

  lemma ElapsedNext(hs: seq<Happening>)
    requires hs != []
    ensures Elapsed(hs) == Elapsed(hs[..|hs| - 1]) + if hs[|hs| - 1].Goes? then hs[|hs| - 1].d else 0
  {
  }

  /** The token need not be renewed. */
  predicate Fit(cfg: Config, s: State, at: int) { s.cookie != "" && at - s.minted < cfg.maxAge }

  /** When the login of a turn starts: not before the one-time code has rolled over. */
  function LoginStart(s: State, at: int, late: nat): int {
    if at < s.lastMint + MIN_MINT_SPACING then s.lastMint + MIN_MINT_SPACING + late else at
  }

  predicate SameToken(s: State, t: State) {
    t.cookie == s.cookie && t.fp == s.fp && t.host == s.host && t.minted == s.minted && t.login == s.login
  }

  /** Step 1 of a turn: nothing when the token is fit, otherwise a login, which leaves its
      complete answer, or no token, or, when it failed, the old one. */
  ghost predicate TokenEnsured(cfg: Config, s: State, turn: Turn, t: State) {
    var at := s.now + turn.delay;
    && t.runs == s.runs && t.shortExits == s.shortExits
    && if Fit(cfg, s, at) then
         t.now == at && t.logins == s.logins && t.lastMint == s.lastMint && SameToken(s, t)
       else LoginMade(s, at, turn.late, turn.loginTime, turn.answer, t)
  }

  ghost predicate LoginMade(s: State, at: int, late: nat, loginTime: nat, answer: Login, t: State) {
    && t.lastMint == LoginStart(s, at, late) && t.now == t.lastMint + loginTime
    && t.logins == s.logins + [Mint(t.lastMint, |s.runs|)]
    && match answer
       case Refused => SameToken(s, t)
       case Answer(cookie, fp, host) =>
         if Complete(answer) then
           t.cookie == cookie && t.fp == fp && t.host == host && t.minted == t.now && t.login == |t.logins|
         else t.cookie == ""
  }

  /** Starting the login, its time, and what is taken over. */
  lemma MadeSo(c: State, u: State, v: State, late: nat, loginTime: nat, answer: Login, ok: bool, t: State)
    requires u == c.(pc := LoggingIn, now := u.now, lastMint := u.now, logins := c.logins + [Mint(u.now, |c.runs|)])
    requires u.now == LoginStart(c, c.now, late) && v == u.(now := u.now + loginTime)
    requires ok <==> Complete(answer)
    requires TakenOver(v, answer, t)
    ensures LoginMade(c, c.now, late, loginTime, answer, t)
  {
  }

  /** What the end of `mint_token` leaves. */
  ghost predicate TakenOver(s: State, answer: Login, t: State) {
    && t.now == s.now && t.lastMint == s.lastMint && t.shortExits == s.shortExits && t.timer == s.timer
    && t.logins == s.logins && t.runs == s.runs
    && match answer
       case Refused => SameToken(s, t)
       case Answer(cookie, fp, host) =>
         if cookie != "" && fp != "" && host != "" then
           t.cookie == cookie && t.fp == fp && t.host == host && t.minted == s.now && t.login == |s.logins|
         else t.cookie == ""
  }

  /** The refresh timer is set at `at` for `wait` seconds. */
  ghost predicate TimerWait(times: seq<RefreshSchedule.Minute>, fixedRefresh: Option<nat>, at: int, wait: nat) {
    match fixedRefresh
    case Some(r) => wait == r
    case None => if times == [] then wait == 82800 else RefreshSchedule.IsNext(times, at, at + wait)
  }

  /** Step 2: a tunnel start with the token at hand. */
  ghost predicate Raised(s: State, t: State) {
    var n := |s.runs|;
    && |t.runs| == n + 1 && t.runs[..n] == s.runs
    && t == s.(pc := Arm, flag := false, tunnelUp := true, rejectedInLog := false, connStart := s.now, runs := t.runs)
    && t.runs[n].at == s.now && t.runs[n].token == Token(s.cookie, s.fp, s.host)
    && t.runs[n].login == s.login && t.runs[n].minted == s.minted && t.runs[n].ending == Open
  }

  /** Steps 2 to 4, from a token at hand: the tunnel presents it, time goes by as the
      happenings say, and the loop goes on when the tunnel has died. */
  ghost predicate TunnelHeld(s: State, turn: Turn, wait: nat, over: bool, t: State) {
    var n := |s.runs|;
    && (over <==> Dies(turn.arming) || Dies(turn.happenings))
    && t.now == s.now + Elapsed(turn.arming) + Elapsed(turn.happenings) && t.connStart == s.now
    && t.flag == Rings(turn.happenings, wait)
    && t.rejectedInLog == (if Dies(turn.arming) then Refuses(turn.arming) else Refuses(turn.happenings))
    && t.logins == s.logins && t.lastMint == s.lastMint && t.shortExits == s.shortExits && SameToken(s, t)
    && |t.runs| == n + 1 && t.runs[..n] == s.runs
    && t.runs[n].at == s.now && t.runs[n].token == Token(s.cookie, s.fp, s.host)
    && t.runs[n].login == s.login && t.runs[n].minted == s.minted && t.runs[n].ending == Open
  }

  /** Step 5 and the pause. The token goes after a planned refresh, a rejection, or the third
      immediate exit in a row. */
  ghost predicate CameBackFrom(cfg: Config, s: State, pause: nat, t: State) {
    var n := |s.runs| - 1;
    var brief := !s.flag && !s.rejectedInLog && s.now - s.connStart < 5;
    && pause == (if s.flag then 1 else if s.rejectedInLog then 2 else if brief then 5 else cfg.settle)
    && t.cookie == (if s.flag || s.rejectedInLog || (brief && s.shortExits >= 2) then "" else s.cookie)
    && t.shortExits == (if brief && s.shortExits < 2 then s.shortExits + 1 else 0)
    && t.fp == s.fp && t.host == s.host && t.minted == s.minted && t.login == s.login
    && t.logins == s.logins && t.lastMint == s.lastMint && n >= 0 && |t.runs| == n + 1 && t.runs[..n] == s.runs[..n]
    && t.runs[n] == s.runs[n].(ending := if s.flag then Planned else if s.rejectedInLog then Rejected
                                         else if brief then Immediate else Dropped)
  }

  /** A whole turn of the loop from `s` to `t`, by way of the states `m`, with a token or
      not, and `w`, when the tunnel has been held. */
  ghost predicate TurnDone(sh: Settings, s: State, turn: Turn, m: State, w: State, wait: nat, t: State) {
    && s.pc == Check && TokenEnsured(sh.cfg, s, turn, m)
    && if !Fit(sh.cfg, s, s.now + turn.delay) && !Complete(turn.answer) then
         t.pc == Check && t.now == m.now + sh.cfg.mintBackoff + turn.pauseLate && SameProgram(m, t)
       else
         && TimerWait(sh.times, sh.fixedRefresh, m.now + Elapsed(turn.arming), wait)
         && TunnelHeld(m, turn, wait, t.pc == Check, w)
         && if t.pc == Check then
              exists pause :: CameBackFrom(sh.cfg, w, pause, t) && t.now == w.now + pause + turn.pauseLate
            else t == w && t.pc == Wait
  }

  /** Nothing but the clock and the place in the program differs. */
  predicate SameProgram(s: State, t: State) { t == s.(now := t.now, pc := t.pc) }

  datatype Settings = Settings(cfg: Config, times: seq<RefreshSchedule.Minute>, fixedRefresh: Option<nat>)

  /** What a turn goes through. */
  datatype Passing = Passing(m: State, w: State, wait: nat)

  /** The first turns of a list, one after the other. */
  ghost predicate Played(sh: Settings, s: State, turns: seq<Turn>, views: seq<State>, steps: seq<Passing>) {
    && |views| == |steps| + 1 && |steps| <= |turns| && views[0] == s
    && forall i :: 0 <= i < |steps| ==>
         TurnDone(sh, views[i], turns[i], steps[i].m, steps[i].w, steps[i].wait, views[i + 1])
  }

  lemma PlayedOn(sh: Settings, s: State, turns: seq<Turn>, views: seq<State>, steps: seq<Passing>, p: Passing, t: State)
    requires Played(sh, s, turns, views, steps) && |steps| < |turns|
    requires TurnDone(sh, views[|steps|], turns[|steps|], p.m, p.w, p.wait, t)
    ensures Played(sh, s, turns, views + [t], steps + [p])
  {
    hide TurnDone;
  }

  lemma HeldHasRun(s: State, turn: Turn, wait: nat, over: bool, t: State)
    requires TunnelHeld(s, turn, wait, over, t)
    ensures t.runs != []
  {
  }

  /** The pause changes nothing else. */
  lemma CameBackAlso(cfg: Config, s: State, pause: nat, t: State, u: State)
    requires CameBackFrom(cfg, s, pause, t) && SameProgram(t, u)
    ensures CameBackFrom(cfg, s, pause, u)
  {
  }

  // ---- The world --------------------------------------------------------------------------------

  /** One happening, where it can happen. */
  ghost predicate OneHappened(b: Box, h: Happening, c: Box) {
    match h
    case Goes(d) => c == b.(now := b.now + d)
    case TimerRings =>
      c == if b.timer.Armed? && b.now >= b.timer.at then b.(flag := true, timer := Touched(b.timer.at)) else b
    case TimerKills =>
      c == b.(timer := c.timer, loggedOut := c.loggedOut) && (c.timer == b.timer || (b.timer.Touched? && c.timer.Fired?))
    case TunnelDies(rejected) => c == if b.tunnelUp then b.(tunnelUp := false, rejectedInLog := rejected) else b
  }

  /** What some happenings amount to, from `b` to `c`. */
  ghost predicate Happened(b: Box, hs: seq<Happening>, c: Box) {
    && c.now == b.now + Elapsed(hs) && (c.timer.Armed? ==> c.timer == b.timer)
    && (c.tunnelUp <==> b.tunnelUp && !Dies(hs))
    && c.rejectedInLog == (if b.tunnelUp && Dies(hs) then Refuses(hs) else b.rejectedInLog)
    && (c.flag <==> b.flag || (b.timer.Armed? && Rings(hs, b.timer.at - b.now)))
    && (b.timer.Armed? && !c.timer.Armed? ==> c.flag)
    && (b.timer.Off? ==> c.timer.Off?)
  }

  /** Raising, and then what happens before and after the timer is set. */
  lemma HeldSo(s: State, u: State, turn: Turn, wait: nat, b: Box, c: Box, d: Box, t: State)
    requires Raised(s, u) && b.now == s.now && b.tunnelUp && !b.flag && !b.rejectedInLog && b.timer.Off?
    requires Happened(b, turn.arming, c) && Happened(c.(timer := Armed(c.now + wait)), turn.happenings, d)
    requires t == u.(now := d.now, pc := if d.tunnelUp then Wait else Decide, flag := d.flag, tunnelUp := d.tunnelUp,
                     timer := t.timer, rejectedInLog := d.rejectedInLog, loggedOut := d.loggedOut)
    ensures TunnelHeld(s, turn, wait, !d.tunnelUp, t)
    ensures c.now == s.now + Elapsed(turn.arming) && c.timer.Off?
    ensures d.timer.Armed? ==> d.timer.at == c.now + wait
  {
    RefusalKills(turn.happenings);
    hide Dies, Refuses, Rings, Elapsed;
  }

  lemma RefusalKills(hs: seq<Happening>)
    ensures Refuses(hs) ==> Dies(hs)
  {
  }

  lemma NothingHappens(hs: seq<Happening>, wait: int)
    ensures Elapsed(hs[..0]) == 0 && !Dies(hs[..0]) && !Refuses(hs[..0]) && !Rings(hs[..0], wait)
  {
  }

  lemma HappenedNext(b: Box, hs: seq<Happening>, i: nat, c: Box, d: Box)
    requires i < |hs| && Happened(b, hs[..i], c) && OneHappened(c, hs[i], d)
    requires b.timer.Armed? || b.timer.Off?
    ensures Happened(b, hs[..i + 1], d)
  {
    DiesNext(hs, i);
    RefusesNext(hs, i);
    RingsNext(hs, i, if b.timer.Armed? then b.timer.at - b.now else 0);
    hide Dies, Refuses, Rings, Elapsed;
  }

  // ---- The program --------------------------------------------------------------------------

  /** Outside the program: the clock, the flag file, the tunnel with its log, the timer, and
      the sessions the gateway has ended. */
  datatype Box = Box(now: int, flag: bool, tunnelUp: bool, rejectedInLog: bool, timer: Timer, loggedOut: set<string>)

  /** What has happened so far. */
  datatype Past = Past(issued: set<Issue>, login: nat, checkedAt: int, logins: seq<Mint>, runs: seq<Run>)

  class Shell {
    const cfg: Config
    const times: seq<RefreshSchedule.Minute>   // VPN_REFRESH_TIMES
    const fixedRefresh: Option<nat>            // VPN_REFRESH_SECONDS

    var vpnCookie: string
    var vpnFp: string
    var vpnHost: string
    var tokenMinted: int
    var lastMint: int
    var shortExits: nat
    var connStart: int

    var box: Box
    ghost var past: Past

    /** The machine's state when the program is at `pc`. */
    ghost function View(pc: Pc): State
      reads this
    {
      State(box.now, pc, vpnCookie, vpnFp, vpnHost, tokenMinted, lastMint, shortExits, connStart, box.flag,
            box.timer, box.tunnelUp, box.rejectedInLog, box.loggedOut,
            past.issued, past.login, past.checkedAt, past.logins, past.runs)
    }

    constructor (cfg: Config, times: seq<RefreshSchedule.Minute>, fixedRefresh: Option<nat>, now: int)
      ensures this.cfg == cfg && this.times == times && this.fixedRefresh == fixedRefresh && box.now == now
      ensures View(Check) == Init(now)
    {
      this.cfg, this.times, this.fixedRefresh := cfg, times, fixedRefresh;
      vpnCookie, vpnFp, vpnHost, tokenMinted, lastMint, shortExits, connStart := "", "", "", 0, 0, 0, 0;
      box := Box(now, false, false, false, Off, {});
      past := Past({}, 0, 0, [], []);
    }

    /** `mint_token`: wait until the one-time code has rolled over, log in, and take over a
        complete answer or nothing. */
    method MintToken(late: nat, loginTime: nat, answer: Login) returns (ok: bool, ghost acts: seq<Action>)
      modifies this
      ensures Plays(cfg, old(View(MintWait(lastMint + MIN_MINT_SPACING))), acts,
                    View(if ok then Raise else Sleep(box.now + cfg.mintBackoff)))
      ensures ok <==> Complete(answer)
      ensures LoginMade(old(View(Check)), old(box.now), late, loginTime, answer, View(Check))
      ensures past.runs == old(past.runs) && shortExits == old(shortExits) && box.timer == old(box.timer)
    {
      hide Plays, Step, LoginMade, Complete;
      ghost var s := View(MintWait(lastMint + MIN_MINT_SPACING));
      ghost var c := View(Check);
      acts := StartsLogin(late);
      ghost var u := View(LoggingIn);
      acts := Play(cfg, s, acts, u, Tick(loginTime));
      PassTime(loginTime);
      ghost var v := View(LoggingIn);
      acts := Play(cfg, s, acts, v, FinishLogin(answer));
      ok := TakeOver(answer);
      MadeSo(c, u, v, late, loginTime, answer, ok, View(Check));
    }

    /** The wait of `mint_token`, up to the login command. */
    method StartsLogin(late: nat) returns (ghost acts: seq<Action>)
      modifies this
      ensures Plays(cfg, old(View(MintWait(lastMint + MIN_MINT_SPACING))), acts, View(LoggingIn))
      ensures lastMint == LoginStart(old(View(Check)), old(box.now), late)
      ensures View(LoggingIn) == old(View(LoggingIn)).(now := lastMint, lastMint := lastMint,
                                                       logins := old(past.logins) + [Mint(lastMint, |past.runs|)])
    {
      hide Plays, AfterLogin, AfterTunnel;
      ghost var s := View(MintWait(lastMint + MIN_MINT_SPACING));
      PlayNothing(cfg, s);
      var waitS := lastMint + MIN_MINT_SPACING - box.now;
      var slept := if waitS > 0 then waitS + late else 0;
      acts := Play(cfg, s, [], s, Tick(slept));
      acts := Play(cfg, s, acts, Step(cfg, s, Tick(slept)), StartLogin);
      box, lastMint := box.(now := box.now + slept), box.now + slept;
      past := past.(logins := past.logins + [Mint(box.now, |past.runs|)]);
    }

    /** The login command runs. */
    method PassTime(d: nat)
      modifies `box
      ensures View(LoggingIn) == Step(cfg, old(View(LoggingIn)), Tick(d)) && box == old(box).(now := old(box.now) + d)
    {
      box := box.(now := box.now + d);
    }

    /** The rest of `mint_token`, after the login command. */
    method TakeOver(answer: Login) returns (ok: bool)
      modifies this
      ensures View(if ok then Raise else Sleep(box.now + cfg.mintBackoff))
           == Step(cfg, old(View(LoggingIn)), FinishLogin(answer))
      ensures ok <==> Complete(answer)
      ensures TakenOver(old(View(LoggingIn)), answer, View(Check))
    {
      if answer.Refused? {
        return false;
      }
      vpnCookie, vpnFp, vpnHost := answer.cookie, answer.fp, answer.host;
      if vpnCookie == "" || vpnFp == "" || vpnHost == "" {
        vpnCookie := "";
        return false;
      }
      tokenMinted := box.now;
      box := box.(loggedOut := box.loggedOut - {vpnCookie});   // the gateway has just opened it
      past := past.(issued := past.issued + {Issue(box.now, |past.logins|, Token(vpnCookie, vpnFp, vpnHost))},
                    login := |past.logins|, checkedAt := box.now);
      return true;
    }

    /** The wait of the refresh timer. */
    method RefreshIn() returns (r: nat)
      ensures TimerWait(times, fixedRefresh, box.now, r)
    {
      if fixedRefresh.Some? {
        return fixedRefresh.value;
      }
      var wait := RefreshSchedule.SecondsUntilNextRefresh(times, box.now);
      return wait;
    }

    /** Step 3: set the refresh timer, as the schedule says now. */
    method SetTimer() returns (wait: nat)
      modifies `box
      ensures View(Wait) == Step(cfg, old(View(Arm)), ArmTimer(wait))
      ensures box == old(box).(timer := Armed(box.now + wait))
      ensures TimerWait(times, fixedRefresh, box.now, wait)
    {
      wait := RefreshIn();
      box := box.(timer := Armed(box.now + wait));
    }

    /** Step 2: raise the tunnel from the token. */
    method RunTunnel()
      modifies this
      ensures View(Arm) == Step(cfg, old(View(Raise)), RaiseTunnel)
      ensures Raised(old(View(Raise)), View(Arm))
      ensures box == old(box).(flag := false, tunnelUp := true, rejectedInLog := false)
    {
      connStart := box.now;
      box := box.(flag := false, tunnelUp := true, rejectedInLog := false);
      past := past.(runs := past.runs + [Run(box.now, Token(vpnCookie, vpnFp, vpnHost), past.login, tokenMinted,
                                             past.checkedAt, vpnCookie in box.loggedOut, Open)]);
    }

    /** Steps 2 to 4: raise the tunnel, start the timer and wait; `over` when the tunnel has
        gone and the timer is killed. */
    method HoldTunnel(turn: Turn) returns (over: bool, ghost acts: seq<Action>, wait: nat)
      requires box.timer.Off?
      modifies this
      ensures over ==> box.timer.Off?
      ensures Plays(cfg, old(View(Raise)), acts, View(if over then Decide else Wait))
      ensures ArmTimer(wait) in acts
      ensures TimerWait(times, fixedRefresh, old(box.now) + Elapsed(turn.arming), wait)
      ensures TunnelHeld(old(View(Raise)), turn, wait, over, View(if over then Decide else Wait))
      ensures box.timer.Armed? ==> !over && box.timer.at == old(box.now) + Elapsed(turn.arming) + wait
    {
      hide Plays, Step, TimerWait, TunnelHeld, Raised, Happened, Dies, Elapsed;
      ghost var s := View(Raise);
      PlayNothing(cfg, s);
      acts := Play(cfg, s, [], s, RaiseTunnel);
      RunTunnel();
      ghost var u, b := View(Arm), box;
      acts := Happen(s, acts, Arm, turn.arming);
      ghost var v, c := View(Arm), box;
      wait := SetTimer();
      acts := Play(cfg, s, acts, v, ArmTimer(wait));
      assert acts[|acts| - 1] == ArmTimer(wait);
      acts := Happen(s, acts, Wait, turn.happenings);
      ghost var d := box;
      over := !box.tunnelUp;
      if over {
        acts := Play(cfg, s, acts, View(Wait), Reap);
        KillTimer();
      }
      HeldSo(s, u, turn, wait, b, c, d, View(if over then Decide else Wait));
    }

    /** The tunnel has gone. */
    method KillTimer()
      requires !box.tunnelUp
      modifies `box
      ensures View(Decide) == Step(cfg, old(View(Wait)), Reap) && box == old(box).(timer := Off)
    {
      box := box.(timer := Off);
    }

    /** What happens while the program stands at `pc`. */
    method Happen(ghost s: State, ghost acts: seq<Action>, ghost pc: Pc, hs: seq<Happening>)
      returns (ghost more: seq<Action>)
      requires Plays(cfg, s, acts, View(pc)) && pc != Halted
      requires box.timer.Armed? || box.timer.Off?
      modifies `box
      ensures Plays(cfg, s, more, View(pc)) && acts <= more
      ensures Happened(old(box), hs, box)
    {
      hide Plays, Dies, Refuses, Rings, Elapsed;
      more := acts;
      ghost var b := box;
      NothingHappens(hs, if b.timer.Armed? then b.timer.at - b.now else 0);
      for i := 0 to |hs|
        invariant Plays(cfg, s, more, View(pc)) && acts <= more
        invariant Happened(b, hs[..i], box)
      {
        ghost var c := box;
        more := HappenOne(s, more, pc, hs[i]);
        HappenedNext(b, hs, i, c, box);
      }
      assert hs[..|hs|] == hs;
    }

    /** One thing that happens, if it can happen now. */
    method HappenOne(ghost s: State, ghost acts: seq<Action>, ghost pc: Pc, h: Happening) returns (ghost more: seq<Action>)
      requires Plays(cfg, s, acts, View(pc)) && pc != Halted
      modifies `box
      ensures Plays(cfg, s, more, View(pc)) && acts <= more
      ensures OneHappened(old(box), h, box)
    {
      hide Plays;
      more := acts;
      ghost var v := View(pc);
      match h
      case Goes(d) =>
        more := Play(cfg, s, acts, v, Tick(d));
        box := box.(now := box.now + d);
      case TimerRings =>
        if box.timer.Armed? && box.now >= box.timer.at {
          more := Play(cfg, s, acts, v, TimerTouch);
          box := box.(flag := true, timer := Touched(box.timer.at));
        }
      case TimerKills =>
        if box.timer.Touched? {
          more := Play(cfg, s, acts, v, TimerTerm);
          // A live openconnect logs its session out.
          box := box.(timer := Fired, loggedOut := if box.tunnelUp then box.loggedOut + {vpnCookie} else box.loggedOut);
        }
      case TunnelDies(rejected) =>
        if box.tunnelUp {
          more := Play(cfg, s, acts, v, TunnelExit(rejected));
          box := box.(tunnelUp := false, rejectedInLog := rejected);
        }
    }

    /** Step 5: decide how to come back; `pause` is the sleep that follows. */
    method ComeBack() returns (pause: nat)
      requires past.runs != []
      modifies this
      ensures View(Sleep(box.now + pause)) == Step(cfg, old(View(Decide)), VpnSupervisor.ComeBack)
      ensures CameBackFrom(cfg, old(View(Decide)), pause, View(Sleep(box.now + pause))) && box == old(box)
    {
      var held := box.now - connStart;
      ghost var ending;
      if box.flag {
        ending := Planned;
        vpnCookie := "";
        shortExits := 0;
        pause := 1;
      } else if box.rejectedInLog {
        ending := Rejected;
        vpnCookie := "";
        shortExits := 0;
        pause := 2;
      } else if held < SHORT_RUN {
        ending := Immediate;
        shortExits := shortExits + 1;
        if shortExits >= MAX_SHORT_EXITS {
          vpnCookie := "";
          shortExits := 0;
        }
        pause := 5;
      } else {
        ending := Dropped;
        shortExits := 0;
        pause := cfg.settle;
      }
      past := past.(runs := EndRun(past.runs, ending));
    }

    method SleepOver(pause: nat, late: nat) returns (ghost acts: seq<Action>)
      modifies `box
      ensures Plays(cfg, old(View(Sleep(box.now + pause))), acts, View(Check))
      ensures box == old(box).(now := old(box.now) + pause + late)
    {
      hide Plays, AfterLogin, AfterTunnel;
      ghost var s := View(Sleep(box.now + pause));
      PlayNothing(cfg, s);
      acts := Play(cfg, s, [], s, Tick(pause + late));
      acts := Play(cfg, s, acts, Step(cfg, s, Tick(pause + late)), Wake);
      box := box.(now := box.now + pause + late);
    }

    /** Step 1: log in when there is no token fresh enough; `ready` when there is one now. */
    method EnsureToken(turn: Turn) returns (ready: bool, ghost acts: seq<Action>)
      modifies this
      ensures Plays(cfg, old(View(Check)), acts, View(if ready then Raise else Sleep(box.now + cfg.mintBackoff)))
      ensures box.timer == old(box.timer)
      ensures ready <==> Fit(cfg, old(View(Check)), old(box.now) + turn.delay) || Complete(turn.answer)
      ensures TokenEnsured(cfg, old(View(Check)), turn, View(if ready then Raise else Sleep(box.now + cfg.mintBackoff)))
    {
      hide Plays, AfterLogin, AfterTunnel;
      ghost var s := View(Check);
      PlayNothing(cfg, s);
      acts := Play(cfg, s, [], s, Tick(turn.delay));
      box := box.(now := box.now + turn.delay);
      acts := Play(cfg, s, acts, View(Check), CheckToken);
      if vpnCookie == "" || box.now - tokenMinted >= cfg.maxAge {
        ghost var w := View(MintWait(lastMint + MIN_MINT_SPACING));
        ghost var more;
        ready, more := MintToken(turn.late, turn.loginTime, turn.answer);
        PlayOn(cfg, s, acts, w, more, View(if ready then Raise else Sleep(box.now + cfg.mintBackoff)));
        acts := acts + more;
      } else {
        past := past.(checkedAt := box.now);
        ready := true;
      }
    }

    /** One turn of the loop; `over` when it came back to the loop head. */
    method OneTurn(turn: Turn) returns (over: bool, ghost acts: seq<Action>, ghost m: State, ghost w: State, wait: nat)
      requires box.timer.Off?
      modifies this
      ensures over ==> box.timer.Off?
      ensures Plays(cfg, old(View(Check)), acts, View(if over then Check else Wait))
      ensures TurnDone(Given(), old(View(Check)), turn, m, w, wait, View(if over then Check else Wait))
    {
      hide Plays, TokenEnsured, TunnelHeld, CameBackFrom, Fit, Complete, TimerWait, AfterTunnel;
      ghost var s := View(Check);
      var ready;
      ghost var more;
      ready, acts := EnsureToken(turn);
      m := View(if ready then Raise else Sleep(box.now + cfg.mintBackoff));
      w, wait := m, 0;
      if !ready {
        more := SleepOver(cfg.mintBackoff, turn.pauseLate);
        PlayOn(cfg, s, acts, m, more, View(Check));
        return true, acts + more, m, w, wait;
      }
      over, more, wait := HoldTunnel(turn);
      w := View(if over then Decide else Wait);
      PlayOn(cfg, s, acts, m, more, w);
      acts := acts + more;
      if over {
        acts := Play(cfg, s, acts, w, VpnSupervisor.ComeBack);
        HeldHasRun(m, turn, wait, over, w);
        var pause := ComeBack();
        ghost var v := View(Sleep(box.now + pause));
        more := SleepOver(pause, turn.pauseLate);
        PlayOn(cfg, s, acts, v, more, View(Check));
        acts := acts + more;
        CameBackAlso(cfg, w, pause, v, View(Check));
      }
    }

    /** What the program is run with. */
    function Given(): Settings { Settings(cfg, times, fixedRefresh) }

    /** The program: its endless loop, for as many turns as the world gives it. Every turn of
        the list is played, until one leaves the tunnel up. Whatever the world does, what
        happens is a run of the state machine. */
    method Supervise(turns: seq<Turn>)
      returns (ghost acts: seq<Action>, ghost pc: Pc, ghost views: seq<State>, ghost steps: seq<Passing>)
      requires View(Check) == Init(box.now)
      modifies this
      ensures Exec(cfg, old(box.now), acts) == At(View(pc))
      ensures Promised(past.logins, past.runs)
      ensures Played(Given(), Init(old(box.now)), turns, views, steps) && views[|steps|] == View(pc)
      ensures |steps| <= |turns| && (|steps| < |turns| ==> pc == Wait)
    {
      hide Plays, TurnDone;
      ghost var start := box.now;
      ghost var s := Init(start);
      acts, pc := [], Check;
      views, steps := [s], [];
      PlayNothing(cfg, s);
      var i, over := 0, true;
      while i < |turns| && over
        invariant i <= |turns| && Plays(cfg, s, acts, View(pc)) && pc == (if over then Check else Wait)
        invariant over ==> box.timer.Off?
        invariant |steps| == i && Played(Given(), s, turns, views, steps) && views[i] == View(pc)
        decreases |turns| - i
      {
        ghost var v, more, m, w := View(Check), [], s, s;
        var wait;
        over, more, m, w, wait := OneTurn(turns[i]);
        pc := if over then Check else Wait;
        PlayOn(cfg, s, acts, v, more, View(pc));
        acts := acts + more;
        PlayedOn(Given(), s, turns, views, steps, Passing(m, w, wait), View(pc));
        views, steps := views + [View(pc)], steps + [Passing(m, w, wait)];
        i := i + 1;
      }
      Promises(cfg, start, acts, View(pc));
    }
  }

  /** Login starts a one-time-code window apart, tunnel starts spread over time, no token
      presented after its logout, none a fourth time after three immediate exits. */
  ghost predicate Promised(logins: seq<Mint>, runs: seq<Run>) {
    && (forall i, j :: 0 <= i < j < |logins| ==> logins[j].at - logins[i].at >= MIN_MINT_SPACING)
    && (forall k :: 0 <= k < |runs| ==> logins != [] && 2 * (runs[k].at - logins[0].at) >= 9 * k)
    && (forall k :: 0 <= k < |runs| ==> !runs[k].wasLoggedOut)
    && NoFourthStart(runs)
  }

  lemma Promises(cfg: Config, start: int, acts: seq<Action>, s: State)
    requires Plays(cfg, Init(start), acts, s)
    ensures Exec(cfg, start, acts) == At(s) && Promised(s.logins, s.runs)
  {
    LoginsSpaced(cfg, start, acts);
    NoHotLoop(cfg, start, acts);
    LiveTokensOnly(cfg, start, acts);
    ThreeExitsEndToken(cfg, start, acts);
  }
}
