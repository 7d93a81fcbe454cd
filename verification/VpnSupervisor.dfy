/** The supervisor loop of vpn/entrypoint.sh, its refresh timer and the gateway, as
    steps of one state machine. Time is the whole-second clock of `date +%s`; the
    shell sleeps whole seconds, so a sleep of `d` moves that clock by at least `d`. */
module VpnSupervisor {

  const MIN_MINT_SPACING := 32
  const SHORT_RUN := 5
  const MAX_SHORT_EXITS := 3
  /** Width of a one-time-code step (section 4.2 of RFC 6238). */
  const CODE_STEP := 30

  datatype Config = Config(maxAge: int, mintBackoff: nat, settle: nat)

  /** What a login prints: nothing usable, or the three values of a session token. */
  datatype Login = Refused | Answer(cookie: string, fp: string, host: string)

  datatype Token = Token(cookie: string, fp: string, host: string)

  /** A complete answer: when it came, and to which login (counted from 1). */
  datatype Issue = Issue(at: int, login: nat, token: Token)

  datatype Pc =
    | Check               // loop head
    | MintWait(until: int)
    | LoggingIn
    | Raise               // a token is at hand
    | Arm                 // tunnel started, timer not yet
    | Wait                // blocked on the tunnel
    | Decide              // tunnel gone, timer killed
    | Sleep(until: int)
    | Halted

  datatype Timer = Off | Armed(at: int) | Touched(at: int) | Fired
  datatype Ending = Open | Planned | Rejected | Immediate | Dropped

  /** History: a login start, with the tunnel starts made before it. */
  datatype Mint = Mint(at: int, runsBefore: nat)
  /** History: a tunnel start, the token it presented, when that was minted and last
      checked, and how the run ended. */
  datatype Run = Run(at: int, token: Token, login: nat, minted: int, checkedAt: int,
                     wasLoggedOut: bool, ending: Ending)

  datatype State = State(
    now: int, pc: Pc,
    cookie: string, fp: string, host: string,   // VPN_COOKIE, VPN_FP, VPN_HOST
    minted: int, lastMint: int, shortExits: nat, // TOKEN_MINTED, LAST_MINT, short_exits
    connStart: int, flag: bool, timer: Timer,
    tunnelUp: bool, rejectedInLog: bool,
    loggedOut: set<string>,                      // gateway side
    issued: set<Issue>,                          // complete answers so far
    login: nat, checkedAt: int,                  // login that issued the cookie; time it was last found fit
    logins: seq<Mint>, runs: seq<Run>)

  datatype Action =
    | Tick(d: nat)
    | CheckToken
    | StartLogin
    | FinishLogin(answer: Login)
    | RaiseTunnel
    | ArmTimer(refreshIn: nat)
    | TimerTouch
    | TimerTerm
    | TunnelExit(rejected: bool)
    | Reap
    | ComeBack
    | Wake
    | Shutdown

  function Init(now: int): State {
    State(now, Check, "", "", "", 0, 0, 0, 0, false, Off, false, false, {}, {}, 0, 0, [], [])
  }

  predicate Enabled(s: State, a: Action) {
    s.pc != Halted &&
    match a
    case Tick(_) => true
    case CheckToken => s.pc == Check
    case StartLogin => s.pc.MintWait? && s.now >= s.pc.until
    case FinishLogin(_) => s.pc == LoggingIn
    case RaiseTunnel => s.pc == Raise
    case ArmTimer(_) => s.pc == Arm
    case TimerTouch => s.timer.Armed? && s.now >= s.timer.at
    case TimerTerm => s.timer.Touched?
    case TunnelExit(_) => s.tunnelUp
    case Reap => s.pc == Wait && !s.tunnelUp
    case ComeBack => s.pc == Decide
    case Wake => s.pc.Sleep? && s.now >= s.pc.until
    case Shutdown => true
  }

  /** mint_token after the login command returned. A session the gateway hands out is live. */
  function AfterLogin(cfg: Config, s: State, r: Login): State {
    match r
    case Refused => s.(pc := Sleep(s.now + cfg.mintBackoff))
    case Answer(cookie, fp, host) =>
      if cookie == "" || fp == "" || host == "" then
        s.(cookie := "", fp := fp, host := host, pc := Sleep(s.now + cfg.mintBackoff))
      else
        s.(cookie := cookie, fp := fp, host := host, minted := s.now, pc := Raise,
           issued := s.issued + {Issue(s.now, |s.logins|, Token(cookie, fp, host))},
           loggedOut := s.loggedOut - {cookie}, login := |s.logins|, checkedAt := s.now)
  }

  function EndRun(runs: seq<Run>, e: Ending): seq<Run> {
    if runs == [] then [] else runs[|runs| - 1 := runs[|runs| - 1].(ending := e)]
  }

  /** How the loop comes back after the tunnel is gone. */
  function AfterTunnel(cfg: Config, s: State): State {
    if s.flag then
      s.(cookie := "", shortExits := 0, pc := Sleep(s.now + 1), runs := EndRun(s.runs, Planned))
    else if s.rejectedInLog then
      s.(cookie := "", shortExits := 0, pc := Sleep(s.now + 2), runs := EndRun(s.runs, Rejected))
    else if s.now - s.connStart < SHORT_RUN then
      var t := s.(pc := Sleep(s.now + 5), runs := EndRun(s.runs, Immediate));
      if s.shortExits + 1 >= MAX_SHORT_EXITS then t.(cookie := "", shortExits := 0)
      else t.(shortExits := s.shortExits + 1)
    else
      s.(shortExits := 0, pc := Sleep(s.now + cfg.settle), runs := EndRun(s.runs, Dropped))
  }

  function Step(cfg: Config, s: State, a: Action): State
    requires Enabled(s, a)
  {
    match a
    case Tick(d) => s.(now := s.now + d)
    case CheckToken =>
      if s.cookie == "" || s.now - s.minted >= cfg.maxAge then
        s.(pc := MintWait(s.lastMint + MIN_MINT_SPACING))
      else s.(pc := Raise, checkedAt := s.now)
    case StartLogin =>
      s.(lastMint := s.now, pc := LoggingIn, logins := s.logins + [Mint(s.now, |s.runs|)])
    case FinishLogin(r) => AfterLogin(cfg, s, r)
    case RaiseTunnel =>
      s.(flag := false, connStart := s.now, tunnelUp := true, rejectedInLog := false, pc := Arm,
         runs := s.runs + [Run(s.now, Token(s.cookie, s.fp, s.host), s.login, s.minted, s.checkedAt,
                               s.cookie in s.loggedOut, Open)])
    case ArmTimer(refreshIn) => s.(timer := Armed(s.now + refreshIn), pc := Wait)
    case TimerTouch => s.(flag := true, timer := Touched(s.timer.at))
    case TimerTerm =>
      s.(timer := Fired, loggedOut := if s.tunnelUp then s.loggedOut + {s.cookie} else s.loggedOut)
    case TunnelExit(rejected) => s.(tunnelUp := false, rejectedInLog := rejected)
    case Reap => s.(timer := Off, pc := Decide)
    case ComeBack => AfterTunnel(cfg, s)
    case Wake => s.(pc := Check)
    case Shutdown =>
      s.(pc := Halted, timer := Off, tunnelUp := false,
         loggedOut := if s.tunnelUp then s.loggedOut + {s.cookie} else s.loggedOut)
  }

  datatype Outcome = Stuck | At(s: State)

  /** The state after a run from `s`: any interleaving of the loop, the timer, the tunnel
      and time. */
  function ExecFrom(cfg: Config, s: State, acts: seq<Action>): Outcome {
    if acts == [] then At(s)
    else
      match ExecFrom(cfg, s, acts[..|acts| - 1])
      case Stuck => Stuck
      case At(t) =>
        if Enabled(t, acts[|acts| - 1]) then At(Step(cfg, t, acts[|acts| - 1])) else Stuck
  }

  function Exec(cfg: Config, start: int, acts: seq<Action>): Outcome { ExecFrom(cfg, Init(start), acts) }

  /** `acts` lead from `s` to `t`. */
  ghost predicate Plays(cfg: Config, s: State, acts: seq<Action>, t: State) { ExecFrom(cfg, s, acts) == At(t) }

  lemma Play(cfg: Config, s: State, acts: seq<Action>, t: State, a: Action) returns (more: seq<Action>)
    requires Plays(cfg, s, acts, t) && Enabled(t, a)
    ensures more == acts + [a] && Plays(cfg, s, more, Step(cfg, t, a))
  {
    more := acts + [a];
    assert more[..|acts|] == acts;
  }

  lemma {:induction false} PlayOn(cfg: Config, s: State, acts: seq<Action>, t: State, more: seq<Action>, u: State)
    requires Plays(cfg, s, acts, t) && Plays(cfg, t, more, u)
    ensures Plays(cfg, s, acts + more, u)
  {
    if more == [] {
      assert acts + more == acts;
    } else {
      var n := |more| - 1;
      assert (acts + more)[..|acts| + n] == acts + more[..n];
      PlayOn(cfg, s, acts, t, more[..n], ExecFrom(cfg, t, more[..n]).s);
    }
  }

  lemma PlayNothing(cfg: Config, s: State)
    ensures Plays(cfg, s, [], s)
  {
  }

  // ---- What every step keeps --------------------------------------------------------

  /** Between tunnels: no tunnel and no timer are running. */
  predicate Between(pc: Pc) { pc.Check? || pc.MintWait? || pc.LoggingIn? || pc.Raise? || pc.Sleep? }

  ghost predicate TokenInv(s: State) {
    && (s.cookie != "" ==> Issue(s.minted, s.login, Token(s.cookie, s.fp, s.host)) in s.issued && s.logins != []
                           && s.minted <= s.now)
    && (s.pc == LoggingIn ==> s.logins != [])
    && (s.pc == Raise ==> s.cookie != "")
    && (s.pc.Arm? || s.pc.Wait? ==> s.cookie != "")
    && (!s.timer.Off? ==> s.pc == Wait)
    && (s.timer.Touched? || s.timer.Fired? ==> s.flag)
    && (s.tunnelUp ==> s.pc.Arm? || s.pc.Wait?)
    && (s.cookie != "" && s.cookie in s.loggedOut ==> s.pc == Halted || (s.flag && (s.pc.Wait? || s.pc.Decide?)))
  }

  /** What is issued is complete, and the one answer of a login that started before. */
  ghost predicate IssueInv(s: State) {
    && (forall t :: t in s.issued ==> GoodIssue(s, t))
    && (forall t, u :: t in s.issued && u in s.issued && t.login == u.login ==> t == u)
    && (s.pc == LoggingIn ==> s.logins != [] && s.logins[|s.logins| - 1].at <= s.now
                              && forall t :: t in s.issued ==> t.login < |s.logins|)
  }

  predicate GoodIssue(s: State, t: Issue) {
    && t.token.cookie != "" && t.token.fp != "" && t.token.host != ""
    && 1 <= t.login <= |s.logins| && s.logins[t.login - 1].at <= t.at <= s.now
  }

  /** A tunnel start presents a live token, the answer of one login, and its age was below
      the limit when it was checked, or it was new. */
  ghost predicate GoodRun(cfg: Config, s: State, r: Run) {
    && !r.wasLoggedOut
    && Issue(r.minted, r.login, r.token) in s.issued
    && r.minted <= r.checkedAt <= r.at
    && (r.checkedAt - r.minted < cfg.maxAge || r.checkedAt == r.minted)
  }

  ghost predicate RunsInv(cfg: Config, s: State) {
    && (s.pc == Raise ==> s.minted <= s.checkedAt <= s.now
                          && (s.checkedAt - s.minted < cfg.maxAge || s.checkedAt == s.minted))
    && forall i :: 0 <= i < |s.runs| ==> GoodRun(cfg, s, s.runs[i])
  }

  /** Only two steps assign the token. */
  predicate SetsToken(a: Action) { a.FinishLogin? || a.ComeBack? }

  lemma TokenAssigned(cfg: Config, s: State, a: Action)
    requires Enabled(s, a) && TokenInv(s) && SetsToken(a)
    ensures TokenInv(Step(cfg, s, a))
  {
  }

  lemma TokenKept(cfg: Config, s: State, a: Action)
    requires Enabled(s, a) && TokenInv(s) && !SetsToken(a)
    ensures TokenInv(Step(cfg, s, a))
  {
  }

  lemma TokenStep(cfg: Config, s: State, a: Action)
    requires Enabled(s, a) && TokenInv(s)
    ensures TokenInv(Step(cfg, s, a))
  {
    if SetsToken(a) {
      TokenAssigned(cfg, s, a);
    } else {
      TokenKept(cfg, s, a);
    }
  }

  lemma IssueLogin(cfg: Config, s: State, a: Action)
    requires Enabled(s, a) && IssueInv(s) && (a.FinishLogin? || a == StartLogin)
    ensures IssueInv(Step(cfg, s, a))
  {
    var t := Step(cfg, s, a);
    forall i | i in t.issued ensures GoodIssue(t, i) {
      assert i in s.issued ==> GoodIssue(s, i);
    }
  }

  /** Every other step leaves logins and answers alone. */
  lemma IssueKept(cfg: Config, s: State, a: Action)
    requires Enabled(s, a) && !a.FinishLogin? && a != StartLogin
    ensures var t := Step(cfg, s, a);
            t.issued == s.issued && t.logins == s.logins && t.now >= s.now && (t.pc == LoggingIn ==> s.pc == LoggingIn)
  {
  }

  lemma IssueStep(cfg: Config, s: State, a: Action)
    requires Enabled(s, a) && IssueInv(s)
    ensures IssueInv(Step(cfg, s, a))
  {
    if a.FinishLogin? || a == StartLogin {
      IssueLogin(cfg, s, a);
    } else {
      IssueKept(cfg, s, a);
      hide Step;
      forall i | i in s.issued ensures GoodIssue(Step(cfg, s, a), i) {
        assert GoodIssue(s, i);
      }
    }
  }

  lemma RunRecorded(cfg: Config, s: State)
    requires Enabled(s, RaiseTunnel) && TokenInv(s) && RunsInv(cfg, s)
    ensures RunsInv(cfg, Step(cfg, s, RaiseTunnel))
  {
    var t := Step(cfg, s, RaiseTunnel);
    forall i | 0 <= i < |t.runs| ensures GoodRun(cfg, t, t.runs[i]) {
      assert i < |s.runs| ==> GoodRun(cfg, s, s.runs[i]);
    }
  }

  lemma RunsStep(cfg: Config, s: State, a: Action)
    requires Enabled(s, a) && TokenInv(s) && RunsInv(cfg, s)
    ensures RunsInv(cfg, Step(cfg, s, a))
  {
    var t := Step(cfg, s, a);
    if a == RaiseTunnel {
      RunRecorded(cfg, s);
    } else {
      OtherSteps(cfg, s, a);
      forall i | 0 <= i < |t.runs| ensures GoodRun(cfg, t, t.runs[i]) {
        assert GoodRun(cfg, s, s.runs[i]);
      }
    }
  }

  /** Every step but two leaves the history as it is, except for the ending of the last run. */
  ghost predicate SameHistory(s: State, t: State) {
    && t.logins == s.logins && |t.runs| == |s.runs| && s.issued <= t.issued
    && forall k :: 0 <= k < |s.runs| ==> t.runs[k] == s.runs[k].(ending := t.runs[k].ending)
  }

  lemma OtherSteps(cfg: Config, s: State, a: Action)
    requires Enabled(s, a) && a != RaiseTunnel
    ensures a != StartLogin ==> SameHistory(s, Step(cfg, s, a))
    ensures a == StartLogin ==> Step(cfg, s, a).runs == s.runs && Step(cfg, s, a).issued == s.issued
  {
    if a == ComeBack {
      TunnelEnded(cfg, s);
    } else {
      hide AfterTunnel;
      assert a != StartLogin ==> Step(cfg, s, a).runs == s.runs;
    }
  }

  lemma TunnelEnded(cfg: Config, s: State)
    ensures SameHistory(s, AfterTunnel(cfg, s))
  {
    forall e: Ending ensures |EndRun(s.runs, e)| == |s.runs|
      && forall k :: 0 <= k < |s.runs| ==> EndRun(s.runs, e)[k] == s.runs[k].(ending := EndRun(s.runs, e)[k].ending)
    {
    }
    hide EndRun;
  }

  // ---- Login spacing and the start rate ------------------------------------------------

  /** Tunnel starts since the last login start. */
  function Recent(s: State): int
    requires s.logins != []
  {
    |s.runs| - s.logins[|s.logins| - 1].runsBefore
  }

  /** Earliest next use of the token at hand, or of a new one, after the last tunnel start. */
  function Rest(s: State): int { if s.cookie == "" then 1 else SHORT_RUN }

  ghost predicate PaceInv(s: State) {
    && (s.logins == [] ==> s.runs == [] && s.cookie == "" && (s.pc.Check? || s.pc.MintWait? || s.pc.Halted?))
    && (s.logins != [] ==>
          var l := s.logins[|s.logins| - 1];
          && s.lastMint == l.at <= s.now
          && l.runsBefore <= |s.runs|
          && (s.pc == LoggingIn ==> Recent(s) == 0))
    && (s.pc.MintWait? && s.logins != [] ==> s.pc.until == s.lastMint + MIN_MINT_SPACING)
    && (s.pc.Arm? || s.pc.Wait? || s.pc.Decide? ==> s.runs != [] && s.connStart == s.runs[|s.runs| - 1].at)
    && (s.logins != [] && Recent(s) > 0 ==>
          var r := s.runs[|s.runs| - 1];
          && r.at <= s.now
          && r.at >= s.lastMint + SHORT_RUN * (Recent(s) - 1)
          && (s.pc.Sleep? ==> s.pc.until >= r.at + Rest(s))
          && (s.pc.Check? ==> s.now >= r.at + Rest(s))
          && (s.pc.MintWait? ==> s.now >= r.at + 1)
          && (s.pc.Raise? ==> s.now >= r.at + SHORT_RUN))
  }

  /** `m` comes a full code window after `l`, and 9 seconds for every 2 tunnel starts between. */
  predicate Apart(l: Mint, m: Mint) {
    && m.at >= l.at + MIN_MINT_SPACING
    && l.runsBefore <= m.runsBefore
    && 2 * (m.at - l.at) >= 9 * (m.runsBefore - l.runsBefore)
  }

  ghost predicate LoginsApart(logins: seq<Mint>) {
    forall i, j :: 0 <= i < j < |logins| ==> Apart(logins[i], logins[j])
  }

  /** 9 seconds pass for every 2 tunnel starts, counted from any login start on. */
  ghost predicate RunsApart(logins: seq<Mint>, runs: seq<Run>) {
    && (forall i :: 0 <= i < |logins| ==> logins[i].runsBefore <= |runs|)
    && (forall i, k :: 0 <= i < |logins| && logins[i].runsBefore <= k < |runs| ==>
          2 * (runs[k].at - logins[i].at) >= 9 * (k - logins[i].runsBefore))
  }

  ghost predicate SpacedInv(s: State) {
    && LoginsApart(s.logins)
    && RunsApart(s.logins, s.runs)
    && (s.logins != [] ==> s.logins[0].runsBefore == 0)
  }

  lemma PaceComeBack(cfg: Config, s: State)
    requires Enabled(s, ComeBack) && PaceInv(s)
    ensures PaceInv(Step(cfg, s, ComeBack))
  {
    OtherSteps(cfg, s, ComeBack);
  }

  lemma PaceLogin(cfg: Config, s: State, a: Action)
    requires Enabled(s, a) && PaceInv(s) && (a == StartLogin || a.FinishLogin?)
    ensures PaceInv(Step(cfg, s, a))
  {
  }

  lemma PaceRaise(cfg: Config, s: State)
    requires Enabled(s, RaiseTunnel) && TokenInv(s) && PaceInv(s)
    ensures PaceInv(Step(cfg, s, RaiseTunnel))
  {
  }

  /** A step that makes no login, no tunnel and no token decision. */
  ghost predicate Moves(s: State, t: State) {
    && t.runs == s.runs && t.logins == s.logins && t.cookie == s.cookie
    && t.lastMint == s.lastMint && t.connStart == s.connStart && t.now >= s.now
    && (t.pc.Sleep? || t.pc.LoggingIn? ==> t.pc == s.pc)
    && (t.pc.Check? ==> s.pc.Check? || (s.pc.Sleep? && s.now >= s.pc.until))
    && (t.pc.MintWait? ==> t.pc == s.pc || (s.pc.Check? && t.pc.until == s.lastMint + MIN_MINT_SPACING))
    && (t.pc.Raise? ==> s.pc.Raise? || (s.pc.Check? && s.cookie != ""))
    && (t.pc.Arm? || t.pc.Wait? || t.pc.Decide? ==> s.pc.Arm? || s.pc.Wait? || s.pc.Decide?)
  }

  lemma OtherMoves(cfg: Config, s: State, a: Action)
    requires Enabled(s, a) && !SetsToken(a) && a != StartLogin && a != RaiseTunnel
    ensures Moves(s, Step(cfg, s, a))
  {
  }

  lemma PaceOther(s: State, t: State)
    requires PaceInv(s) && TokenInv(s) && Moves(s, t)
    ensures PaceInv(t)
  {
  }

  lemma PaceStep(cfg: Config, s: State, a: Action)
    requires Enabled(s, a) && TokenInv(s) && PaceInv(s)
    ensures PaceInv(Step(cfg, s, a))
  {
    if a == RaiseTunnel {
      PaceRaise(cfg, s);
    } else if a == ComeBack {
      PaceComeBack(cfg, s);
    } else if a == StartLogin || a.FinishLogin? {
      PaceLogin(cfg, s, a);
    } else {
      OtherMoves(cfg, s, a);
      PaceOther(s, Step(cfg, s, a));
    }
  }

  /** Seven starts fit in the login spacing; more than seven take their own rest. */
  lemma LoginPace(s: State)
    requires s.pc.MintWait? && s.now >= s.pc.until && PaceInv(s) && s.logins != []
    ensures s.now >= s.lastMint + MIN_MINT_SPACING
    ensures 2 * (s.now - s.lastMint) >= 9 * Recent(s)
  {
  }

  lemma AppendLogin(logins: seq<Mint>, m: Mint)
    requires LoginsApart(logins)
    requires logins != [] ==> Apart(logins[|logins| - 1], m)
    ensures LoginsApart(logins + [m])
  {
    var n := |logins|;
    forall i | 0 <= i < n ensures Apart(logins[i], m) {
      assert i < n - 1 ==> Apart(logins[i], logins[n - 1]);
    }
  }

  lemma SpacedLogin(cfg: Config, s: State)
    requires Enabled(s, StartLogin) && PaceInv(s) && SpacedInv(s)
    ensures SpacedInv(Step(cfg, s, StartLogin))
  {
    var m := Mint(s.now, |s.runs|);
    if s.logins != [] {
      LoginPace(s);
    }
    AppendLogin(s.logins, m);
    assert RunsApart(s.logins + [m], s.runs);
  }

  lemma SpacedRaise(cfg: Config, s: State)
    requires Enabled(s, RaiseTunnel) && TokenInv(s) && PaceInv(s) && SpacedInv(s)
    ensures SpacedInv(Step(cfg, s, RaiseTunnel))
  {
    var t := Step(cfg, s, RaiseTunnel);
    var n, k := |s.logins|, |s.runs|;
    forall i | 0 <= i < n ensures 2 * (s.now - s.logins[i].at) >= 9 * (k - s.logins[i].runsBefore) {
      assert i < n - 1 ==> Apart(s.logins[i], s.logins[n - 1]);
    }
    assert RunsApart(t.logins, t.runs);
  }

  lemma SpacedSame(s: State, t: State)
    requires SpacedInv(s) && SameHistory(s, t)
    ensures SpacedInv(t)
  {
    forall i, k | 0 <= i < |t.logins| && t.logins[i].runsBefore <= k < |t.runs|
      ensures 2 * (t.runs[k].at - t.logins[i].at) >= 9 * (k - t.logins[i].runsBefore)
    {
      assert t.runs[k].at == s.runs[k].at;
    }
  }

  lemma SpacedStep(cfg: Config, s: State, a: Action)
    requires Enabled(s, a) && TokenInv(s) && PaceInv(s) && SpacedInv(s)
    ensures SpacedInv(Step(cfg, s, a))
  {
    if a == StartLogin {
      SpacedLogin(cfg, s);
    } else if a == RaiseTunnel {
      SpacedRaise(cfg, s);
    } else {
      OtherSteps(cfg, s, a);
      SpacedSame(s, Step(cfg, s, a));
    }
  }

  // ---- Immediate exits -------------------------------------------------------------------

  /** Trailing tunnel runs on login `login` that all exited immediately. */
  function Trailing(runs: seq<Run>, login: nat): (n: nat)
    ensures n <= |runs|
    ensures forall k :: |runs| - n <= k < |runs| ==> runs[k].login == login && runs[k].ending == Immediate
    ensures n < |runs| ==> runs[|runs| - n - 1].login != login || runs[|runs| - n - 1].ending != Immediate
  {
    if runs == [] || runs[|runs| - 1].login != login || runs[|runs| - 1].ending != Immediate then 0
    else 1 + Trailing(runs[..|runs| - 1], login)
  }

  /** Three immediate exits in a row on one token, and a fourth start on it. */
  predicate FourthStart(runs: seq<Run>, k: nat)
    requires k + 3 < |runs|
  {
    && runs[k].ending == runs[k + 1].ending == runs[k + 2].ending == Immediate
    && runs[k].login == runs[k + 1].login == runs[k + 2].login == runs[k + 3].login
  }

  ghost predicate NoFourthStart(runs: seq<Run>) {
    forall k: nat :: k + 3 < |runs| ==> !FourthStart(runs, k)
  }

  ghost predicate ExitInv(s: State) {
    && s.shortExits < MAX_SHORT_EXITS
    && (s.cookie != "" && Between(s.pc) ==> Trailing(s.runs, s.login) <= s.shortExits)
    && (s.pc.Arm? || s.pc.Wait? || s.pc.Decide? ==>
          s.runs != [] && (s.cookie != "" ==> Trailing(s.runs[..|s.runs| - 1], s.login) <= s.shortExits))
    && NoFourthStart(s.runs)
    && KnownLogins(s.runs, if s.pc == LoggingIn then |s.logins| - 1 else |s.logins|)
  }

  /** Every run used a token of one of the first `n` logins. */
  ghost predicate KnownLogins(runs: seq<Run>, n: int) {
    forall k :: 0 <= k < |runs| ==> runs[k].login <= n
  }

  lemma TrailingNew(runs: seq<Run>, login: nat)
    requires KnownLogins(runs, login - 1)
    ensures Trailing(runs, login) == 0
  {
  }

  lemma FourthStartNeedsThree(runs: seq<Run>, r: Run)
    requires NoFourthStart(runs) && Trailing(runs, r.login) < MAX_SHORT_EXITS
    ensures NoFourthStart(runs + [r])
  {
    var t, n := runs + [r], Trailing(runs, r.login);
    forall k: nat | k + 3 < |t| ensures !FourthStart(t, k) {
      if k + 3 < |runs| {
        assert !FourthStart(runs, k);
      } else {
        assert |runs| - n - 1 >= k;
      }
    }
  }

  lemma EndingKeepsNoFourth(runs: seq<Run>, e: Ending)
    requires NoFourthStart(runs)
    ensures NoFourthStart(EndRun(runs, e))
    ensures forall n :: KnownLogins(runs, n) ==> KnownLogins(EndRun(runs, e), n)
  {
    var t := EndRun(runs, e);
    forall k: nat | k + 3 < |t| ensures !FourthStart(t, k) {
      assert !FourthStart(runs, k);
    }
  }

  lemma TrailingAfter(runs: seq<Run>, e: Ending, login: nat)
    requires runs != []
    ensures e != Immediate ==> Trailing(EndRun(runs, e), login) == 0
    ensures Trailing(EndRun(runs, e), login) <= 1 + Trailing(runs[..|runs| - 1], login)
  {
    var t := EndRun(runs, e);
    assert t[..|t| - 1] == runs[..|runs| - 1];
  }

  lemma ExitRaise(cfg: Config, s: State)
    requires Enabled(s, RaiseTunnel) && TokenInv(s) && IssueInv(s) && ExitInv(s)
    ensures ExitInv(Step(cfg, s, RaiseTunnel))
  {
    assert GoodIssue(s, Issue(s.minted, s.login, Token(s.cookie, s.fp, s.host)));
    var t := Step(cfg, s, RaiseTunnel);
    FourthStartNeedsThree(s.runs, t.runs[|s.runs|]);
    assert t.runs[..|s.runs|] == s.runs;
  }

  /** What the decision after a tunnel does to the token and its exit count. */
  ghost predicate CameBack(s: State, t: State, e: Ending) {
    && t.runs == EndRun(s.runs, e) && t.logins == s.logins && t.login == s.login && t.pc.Sleep?
    && t.shortExits < MAX_SHORT_EXITS
    && (t.cookie != "" ==> t.cookie == s.cookie && t.shortExits == if e == Immediate then s.shortExits + 1 else 0)
  }

  lemma EndingOf(cfg: Config, s: State) returns (e: Ending)
    requires s.shortExits < MAX_SHORT_EXITS
    ensures CameBack(s, AfterTunnel(cfg, s), e)
  {
    e := if s.flag then Planned else if s.rejectedInLog then Rejected
         else if s.now - s.connStart < SHORT_RUN then Immediate else Dropped;
  }

  lemma ExitComeBack(cfg: Config, s: State)
    requires Enabled(s, ComeBack) && ExitInv(s)
    ensures ExitInv(Step(cfg, s, ComeBack))
  {
    var e := EndingOf(cfg, s);
    EndingKeepsNoFourth(s.runs, e);
    TrailingAfter(s.runs, e, s.login);
  }

  /** What a login does to the token: nothing, nothing usable, or a token no run has used. */
  ghost predicate LoggedIn(s: State, t: State) {
    && t.runs == s.runs && t.logins == s.logins && t.shortExits == s.shortExits
    && ((t.cookie == s.cookie && t.login == s.login && t.pc.Sleep?)
        || (t.cookie == "" && t.pc.Sleep?)
        || (t.login == |s.logins| && t.pc == Raise))
  }

  lemma LoginOutcome(cfg: Config, s: State, r: Login)
    ensures LoggedIn(s, AfterLogin(cfg, s, r))
  {
  }

  lemma ExitLogin(cfg: Config, s: State, r: Login)
    requires Enabled(s, FinishLogin(r)) && ExitInv(s)
    ensures ExitInv(Step(cfg, s, FinishLogin(r)))
  {
    LoginOutcome(cfg, s, r);
    LoginKeepsExits(s, AfterLogin(cfg, s, r));
  }

  lemma LoginKeepsExits(s: State, t: State)
    requires s.pc == LoggingIn && ExitInv(s) && LoggedIn(s, t)
    ensures ExitInv(t)
  {
    TrailingNew(s.runs, |s.logins|);
  }

  /** A step that touches neither the token nor the runs. */
  ghost predicate Quiet(s: State, t: State) {
    && t.runs == s.runs && t.shortExits == s.shortExits && t.cookie == s.cookie && t.login == s.login
    && (Between(t.pc) ==> Between(s.pc))
    && (t.pc.Arm? || t.pc.Wait? || t.pc.Decide? ==> s.pc.Arm? || s.pc.Wait? || s.pc.Decide?)
    && (if t.pc == LoggingIn && s.pc != LoggingIn then |t.logins| == |s.logins| + 1 else t.logins == s.logins)
  }

  lemma QuietSteps(cfg: Config, s: State, a: Action)
    requires Enabled(s, a) && !a.RaiseTunnel? && !a.ComeBack? && !a.FinishLogin?
    ensures Quiet(s, Step(cfg, s, a))
  {
  }

  lemma ExitQuiet(s: State, t: State)
    requires ExitInv(s) && Quiet(s, t)
    ensures ExitInv(t)
  {
  }

  lemma ExitStep(cfg: Config, s: State, a: Action)
    requires Enabled(s, a) && TokenInv(s) && IssueInv(s) && ExitInv(s)
    ensures ExitInv(Step(cfg, s, a))
  {
    match a
    case RaiseTunnel => ExitRaise(cfg, s);
    case ComeBack => ExitComeBack(cfg, s);
    case FinishLogin(r) => ExitLogin(cfg, s, r);
    case _ =>
      QuietSteps(cfg, s, a);
      ExitQuiet(s, Step(cfg, s, a));
  }

  // ---- Every run ---------------------------------------------------------------------------

  ghost predicate Inv(cfg: Config, s: State) {
    TokenInv(s) && IssueInv(s) && RunsInv(cfg, s) && PaceInv(s) && SpacedInv(s) && ExitInv(s)
  }

  lemma {:induction false} EveryRun(cfg: Config, start: int, acts: seq<Action>)
    ensures Exec(cfg, start, acts).At? ==> Inv(cfg, Exec(cfg, start, acts).s)
  {
    if acts != [] {
      var n := |acts| - 1;
      EveryRun(cfg, start, acts[..n]);
      var o := Exec(cfg, start, acts[..n]);
      if o.At? && Enabled(o.s, acts[n]) {
        TokenStep(cfg, o.s, acts[n]);
        IssueStep(cfg, o.s, acts[n]);
        RunsStep(cfg, o.s, acts[n]);
        PaceStep(cfg, o.s, acts[n]);
        SpacedStep(cfg, o.s, acts[n]);
        ExitStep(cfg, o.s, acts[n]);
      }
    }
  }

  /** No token the gateway logged out is presented again. Every start uses the complete
      answer of one login, the only answer that login had, which came between the start of
      that login and the start of the tunnel, at an age the check accepted. */
  lemma LiveTokensOnly(cfg: Config, start: int, acts: seq<Action>)
    requires Exec(cfg, start, acts).At?
    ensures var s := Exec(cfg, start, acts).s;
            forall i :: 0 <= i < |s.runs| ==>
              var r := s.runs[i];
              && !r.wasLoggedOut
              && Issue(r.minted, r.login, r.token) in s.issued
              && (forall t :: t in s.issued && t.login == r.login ==> t == Issue(r.minted, r.login, r.token))
              && r.token.cookie != "" && r.token.fp != "" && r.token.host != ""
              && 1 <= r.login <= |s.logins|
              && s.logins[r.login - 1].at <= r.minted <= r.checkedAt <= r.at
              && (r.checkedAt - r.minted < cfg.maxAge || r.checkedAt == r.minted)
  {
    EveryRun(cfg, start, acts);
    var s := Exec(cfg, start, acts).s;
    forall i | 0 <= i < |s.runs|
      ensures GoodRun(cfg, s, s.runs[i]) && GoodIssue(s, Issue(s.runs[i].minted, s.runs[i].login, s.runs[i].token))
    {
      assert GoodRun(cfg, s, s.runs[i]);
    }
  }

  /** Two logins never start in the same one-time-code step. */
  lemma LoginsSpaced(cfg: Config, start: int, acts: seq<Action>)
    requires Exec(cfg, start, acts).At?
    ensures var l := Exec(cfg, start, acts).s.logins;
            forall i, j :: 0 <= i < j < |l| ==>
              l[j].at - l[i].at >= MIN_MINT_SPACING && l[i].at / CODE_STEP < l[j].at / CODE_STEP
  {
    EveryRun(cfg, start, acts);
    var l := Exec(cfg, start, acts).s.logins;
    forall i, j | 0 <= i < j < |l|
      ensures l[j].at - l[i].at >= MIN_MINT_SPACING && l[i].at / CODE_STEP < l[j].at / CODE_STEP
    {
      assert Apart(l[i], l[j]);
    }
  }

  /** The supervisor cannot hot-loop: the k-th tunnel start comes at least 4.5 (k - 1)
      seconds after the first login start, however its tunnels end. */
  lemma NoHotLoop(cfg: Config, start: int, acts: seq<Action>)
    requires Exec(cfg, start, acts).At?
    ensures var s := Exec(cfg, start, acts).s;
            && (s.runs != [] ==> s.logins != [])
            && (forall k :: 0 <= k < |s.runs| ==> 2 * (s.runs[k].at - s.logins[0].at) >= 9 * k)
  {
    EveryRun(cfg, start, acts);
  }

  /** The same rate holds from every later login on, so no burst is saved up. */
  lemma NoBurst(cfg: Config, start: int, acts: seq<Action>)
    requires Exec(cfg, start, acts).At?
    ensures var s := Exec(cfg, start, acts).s;
            forall i, k :: 0 <= i < |s.logins| && s.logins[i].runsBefore <= k < |s.runs| ==>
              2 * (s.runs[k].at - s.logins[i].at) >= 9 * (k - s.logins[i].runsBefore)
  {
    EveryRun(cfg, start, acts);
  }

  /** No token survives three immediate exits in a row. */
  lemma ThreeExitsEndToken(cfg: Config, start: int, acts: seq<Action>)
    requires Exec(cfg, start, acts).At?
    ensures NoFourthStart(Exec(cfg, start, acts).s.runs)
  {
    EveryRun(cfg, start, acts);
  }
}
