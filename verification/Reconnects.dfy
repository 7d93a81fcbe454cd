/** How the supervisor of vpn/entrypoint.sh comes back after a tunnel, told from what
    happened: when a token is thrown away, and which login the next tunnel start uses. */
module Reconnects {
  import opened VpnSupervisor

  // ---- What happened since the tunnel was raised ------------------------------------------

  /** The refresh timer touched the flag file. */
  function Rang(acts: seq<Action>): bool {
    if acts == [] then false
    else
      match acts[|acts| - 1]
      case RaiseTunnel => false
      case TimerTouch => true
      case _ => Rang(acts[..|acts| - 1])
  }

  /** The log of the tunnel shows a rejected token. */
  function TokenRefused(acts: seq<Action>): bool {
    if acts == [] then false
    else
      match acts[|acts| - 1]
      case RaiseTunnel => false
      case TunnelExit(rejected) => rejected
      case _ => TokenRefused(acts[..|acts| - 1])
  }

  /** Seconds that went by. */
  function Held(acts: seq<Action>): nat {
    if acts == [] then 0
    else
      match acts[|acts| - 1]
      case RaiseTunnel => 0
      case Tick(d) => Held(acts[..|acts| - 1]) + d
      case _ => Held(acts[..|acts| - 1])
  }

  /** The tunnel has gone. */
  function Gone(acts: seq<Action>): bool {
    if acts == [] then true
    else
      match acts[|acts| - 1]
      case RaiseTunnel => false
      case TunnelExit(_) => true
      case _ => Gone(acts[..|acts| - 1])
  }

  /** The timer killed it alive, so that it logged its session out. */
  function KilledAlive(acts: seq<Action>): bool {
    if acts == [] then false
    else
      match acts[|acts| - 1]
      case RaiseTunnel => false
      case TimerTerm => !Gone(acts[..|acts| - 1]) || KilledAlive(acts[..|acts| - 1])
      case _ => KilledAlive(acts[..|acts| - 1])
  }

  /** The state shows what happened. */
  ghost predicate Shows(s: State, acts: seq<Action>) {
    && s.flag == Rang(acts) && s.rejectedInLog == TokenRefused(acts)
    && (s.runs != [] ==> s.now - s.connStart == Held(acts))
    && (s.pc != Halted ==> s.tunnelUp == !Gone(acts))
    && (During(s.pc) ==> (s.cookie in s.loggedOut <==> KilledAlive(acts)))
  }

  predicate During(pc: Pc) { pc.Arm? || pc.Wait? || pc.Decide? }

  lemma Latest(acts: seq<Action>, a: Action)
    ensures Rang(acts + [a]) == (a.TimerTouch? || (!a.RaiseTunnel? && Rang(acts)))
    ensures TokenRefused(acts + [a]) == if a.TunnelExit? then a.rejected else !a.RaiseTunnel? && TokenRefused(acts)
    ensures Held(acts + [a]) == if a.RaiseTunnel? then 0 else Held(acts) + if a.Tick? then a.d else 0
    ensures Gone(acts + [a]) == (a.TunnelExit? || (!a.RaiseTunnel? && Gone(acts)))
    ensures KilledAlive(acts + [a]) == (!a.RaiseTunnel? && (KilledAlive(acts) || (a.TimerTerm? && !Gone(acts))))
  {
    assert (acts + [a])[..|acts|] == acts;
  }

  lemma ShowsStep(cfg: Config, s: State, acts: seq<Action>, a: Action)
    requires Enabled(s, a) && Shows(s, acts) && TokenInv(s) && !SetsToken(a)
    ensures Shows(Step(cfg, s, a), acts + [a])
  {
    Latest(acts, a);
    hide Rang, TokenRefused, Held, Gone, KilledAlive;
  }

  lemma ShowsLogin(cfg: Config, s: State, acts: seq<Action>, answer: Login)
    requires s.pc == LoggingIn && Shows(s, acts)
    ensures Shows(AfterLogin(cfg, s, answer), acts + [FinishLogin(answer)])
  {
    Latest(acts, FinishLogin(answer));
    hide Rang, TokenRefused, Held, Gone, KilledAlive;
  }

  lemma ShowsDecision(cfg: Config, s: State, acts: seq<Action>)
    requires s.pc == Decide && Shows(s, acts)
    ensures Shows(AfterTunnel(cfg, s), acts + [ComeBack])
  {
    Latest(acts, ComeBack);
    TunnelEnded(cfg, s);
    LeftAlone(cfg, s);
    hide Rang, TokenRefused, Held, Gone, KilledAlive, AfterTunnel;
  }

  lemma StepIs(cfg: Config, s: State, a: Action)
    requires Enabled(s, a) && SetsToken(a)
    ensures Step(cfg, s, a) == if a.FinishLogin? then AfterLogin(cfg, s, a.answer) else AfterTunnel(cfg, s)
  {
    hide AfterLogin, AfterTunnel;
  }

  lemma {:induction false} SinceRaised(cfg: Config, start: int, acts: seq<Action>)
    requires Exec(cfg, start, acts).At?
    ensures Shows(Exec(cfg, start, acts).s, acts)
  {
    if acts != [] {
      var n := |acts| - 1;
      var s := Exec(cfg, start, acts[..n]).s;
      SinceRaised(cfg, start, acts[..n]);
      EveryRun(cfg, start, acts[..n]);
      assert acts[..n] + [acts[n]] == acts;
      hide Shows, Step, TokenInv;
      match acts[n]
      case FinishLogin(answer) =>
        ShowsLogin(cfg, s, acts[..n], answer);
        StepIs(cfg, s, acts[n]);
      case ComeBack =>
        ShowsDecision(cfg, s, acts[..n]);
        StepIs(cfg, s, acts[n]);
      case _ => ShowsStep(cfg, s, acts[..n], acts[n]);
    }
  }

  /** The gateway has ended the session of the token in use exactly when the timer killed its
      tunnel alive. */
  lemma SessionEnds(cfg: Config, start: int, acts: seq<Action>)
    requires Exec(cfg, start, acts).At? && During(Exec(cfg, start, acts).s.pc)
    ensures var s := Exec(cfg, start, acts).s; s.cookie in s.loggedOut <==> KilledAlive(acts)
  {
    SinceRaised(cfg, start, acts);
  }

  lemma LeftAlone(cfg: Config, s: State)
    ensures var t := AfterTunnel(cfg, s);
            && t.flag == s.flag && t.rejectedInLog == s.rejectedInLog && t.now == s.now && t.connStart == s.connStart
            && t.pc.Sleep? && t.tunnelUp == s.tunnelUp
  {
    hide EndRun;
  }

  // ---- Which runs keep the token ------------------------------------------------------------

  /** Immediate exits at the end of these runs, on whatever token. */
  function InARow(runs: seq<Run>): (n: nat)
    ensures n <= |runs|
    ensures forall k :: |runs| - n <= k < |runs| ==> runs[k].ending == Immediate
    ensures n < |runs| ==> runs[|runs| - n - 1].ending != Immediate
  {
    if runs == [] || runs[|runs| - 1].ending != Immediate then 0 else 1 + InARow(runs[..|runs| - 1])
  }

  /** After run `i` the token was kept: an ordinary drop, or an immediate exit that is not
      the third, sixth, ... in a row. */
  predicate Keeps(runs: seq<Run>, i: nat)
    requires i < |runs|
  {
    runs[i].ending == Dropped || (runs[i].ending == Immediate && InARow(runs[..i + 1]) % 3 != 0)
  }

  /** A login started between run `i` and the next tunnel start. */
  predicate LoginAfter(logins: seq<Mint>, i: nat, j: int) { 0 <= j < |logins| && logins[j].runsBefore == i + 1 }

  ghost predicate NoLogin(logins: seq<Mint>, i: nat) { forall j :: !LoginAfter(logins, i, j) }

  /** Run `i + 1` uses the token of run `i` when that was kept and no login came between;
      after a kept token a login only starts at the age limit, and otherwise there is one. */
  ghost predicate Linked(cfg: Config, logins: seq<Mint>, runs: seq<Run>, i: nat)
    requires i + 1 < |runs|
  {
    var r, q := runs[i], runs[i + 1];
    && r.ending != Open
    && (if q.login == r.login then
          && Keeps(runs, i) && q.token == r.token && q.minted == r.minted
          && NoLogin(logins, i)
        else
          r.login < q.login && LoginAfter(logins, i, q.login - 1))
    && (Keeps(runs, i) ==> forall j :: LoginAfter(logins, i, j) ==> logins[j].at - r.minted >= cfg.maxAge)
  }

  ghost predicate History(cfg: Config, s: State) {
    && (forall i :: 0 <= i < |s.runs| ==>
          1 <= s.runs[i].login <= |s.logins| && s.logins[s.runs[i].login - 1].runsBefore <= i)
    && (forall i :: 0 <= i < |s.runs| - 1 ==> Linked(cfg, s.logins, s.runs, i))
    && (forall j :: 0 <= j < |s.logins| ==> s.logins[j].runsBefore <= |s.runs|)
    && (forall j, k :: 0 <= j < k < |s.logins| ==> s.logins[j].runsBefore <= s.logins[k].runsBefore)
  }

  /** The token at hand is that of the last run. */
  predicate Carried(s: State)
    requires s.runs != []
  {
    var r := s.runs[|s.runs| - 1];
    Token(s.cookie, s.fp, s.host) == r.token && s.login == r.login && s.minted == r.minted
  }

  /** The token at hand came from a login after the last run. */
  predicate Newer(s: State)
    requires s.runs != []
  {
    LoginAfter(s.logins, |s.runs| - 1, s.login - 1)
  }

  ghost predicate NoneSince(s: State)
    requires s.runs != []
  {
    NoLogin(s.logins, |s.runs| - 1)
  }

  ghost predicate AtHand(cfg: Config, s: State) {
    && (During(s.pc) ==>
          s.runs != [] && s.runs[|s.runs| - 1].ending == Open && Carried(s) && s.cookie != "" && NoneSince(s))
    && (s.pc == LoggingIn ==> s.logins != [] && s.logins[|s.logins| - 1].runsBefore == |s.runs|)
    && (s.pc == Raise ==> s.cookie != "")
    && (s.runs != [] && Between(s.pc) ==> Rested(cfg, s))
    && (s.runs == [] && Between(s.pc) && s.cookie != "" ==>
          1 <= s.login <= |s.logins| && s.logins[s.login - 1].runsBefore <= |s.runs|)
  }

  /** Between two tunnels. */
  ghost predicate Rested(cfg: Config, s: State)
    requires s.runs != []
  {
    var n := |s.runs| - 1;
    var r := s.runs[n];
    && r.ending != Open
    && (s.cookie == "" || Newer(s) || (Keeps(s.runs, n) && Carried(s)))
    && (Keeps(s.runs, n) && NoneSince(s) ==> s.cookie != "" && Carried(s))
    && (Keeps(s.runs, n) && (s.pc.MintWait? || s.pc == LoggingIn || !NoneSince(s)) ==> s.now - r.minted >= cfg.maxAge)
    && (Keeps(s.runs, n) ==> forall j :: LoginAfter(s.logins, n, j) ==> s.logins[j].at - r.minted >= cfg.maxAge)
    && (s.pc == Raise ==> Newer(s) || NoneSince(s))
  }

  /** `short_exits` counts the immediate exits in a row, modulo three. */
  ghost predicate Counted(s: State) {
    && s.shortExits < 3
    && (Between(s.pc) ==> s.shortExits == InARow(s.runs) % 3)
    && (During(s.pc) ==> s.runs != [] && s.shortExits == InARow(s.runs[..|s.runs| - 1]) % 3)
  }

  ghost predicate LinkInv(cfg: Config, s: State) { History(cfg, s) && AtHand(cfg, s) && Counted(s) }

  // ---- The steps --------------------------------------------------------------------------------

  /** A step that touches neither token, nor history, nor the exit count. */
  ghost predicate Plain(cfg: Config, s: State, t: State) {
    && t.runs == s.runs && t.logins == s.logins && t.shortExits == s.shortExits && t.now >= s.now
    && t.cookie == s.cookie && t.fp == s.fp && t.host == s.host && t.login == s.login && t.minted == s.minted
    && (During(t.pc) ==> During(s.pc)) && (Between(t.pc) ==> Between(s.pc))
    && (t.pc == LoggingIn ==> s.pc == LoggingIn)
    && (t.pc.MintWait? ==> s.pc.MintWait? || s.cookie == "" || s.now - s.minted >= cfg.maxAge)
    && (t.pc == Raise ==> s.pc == Raise || (s.cookie != "" && s.now - s.minted < cfg.maxAge))
  }

  predicate IsPlain(a: Action) { !a.StartLogin? && !a.FinishLogin? && !a.RaiseTunnel? && !a.ComeBack? }

  lemma PlainSteps(cfg: Config, s: State, a: Action)
    requires Enabled(s, a) && IsPlain(a)
    ensures Plain(cfg, s, Step(cfg, s, a))
  {
  }

  lemma HistoryDepends(cfg: Config, s: State, t: State)
    requires History(cfg, s) && t.runs == s.runs && t.logins == s.logins
    ensures History(cfg, t)
  {
    hide Linked;
  }

  lemma PlainRested(cfg: Config, s: State, t: State)
    requires s.runs != [] && Rested(cfg, s) && Plain(cfg, s, t)
    ensures Rested(cfg, t)
  {
    hide Keeps, LoginAfter, InARow;
  }

  lemma PlainAtHand(cfg: Config, s: State, t: State)
    requires AtHand(cfg, s) && Plain(cfg, s, t)
    ensures AtHand(cfg, t)
  {
    if s.runs != [] && Between(s.pc) {
      PlainRested(cfg, s, t);
    }
    hide Rested, LoginAfter;
  }

  lemma PlainLinks(cfg: Config, s: State, t: State)
    requires LinkInv(cfg, s) && Plain(cfg, s, t)
    ensures LinkInv(cfg, t)
  {
    HistoryDepends(cfg, s, t);
    PlainAtHand(cfg, s, t);
    hide History, AtHand, InARow;
  }

  lemma LoginHistory(cfg: Config, s: State, m: Mint)
    requires History(cfg, s) && m.runsBefore == |s.runs|
    ensures History(cfg, s.(logins := s.logins + [m]))
  {
    var logins := s.logins + [m];
    forall i | 0 <= i < |s.runs| - 1 ensures Linked(cfg, logins, s.runs, i) {
      assert Linked(cfg, s.logins, s.runs, i);
      assert forall j :: LoginAfter(logins, i, j) <==> LoginAfter(s.logins, i, j);
    }
    hide Linked;
  }

  lemma LoginRested(cfg: Config, s: State, t: State)
    requires s.runs != [] && Rested(cfg, s) && Enabled(s, StartLogin) && t == Step(cfg, s, StartLogin)
    ensures Rested(cfg, t)
  {
    hide Keeps, InARow;
    var n := |s.runs| - 1;
    assert LoginAfter(t.logins, n, |s.logins|);
    assert forall j :: LoginAfter(t.logins, n, j) <==> LoginAfter(s.logins, n, j) || j == |s.logins|;
  }

  lemma LoginLinks(cfg: Config, s: State)
    requires LinkInv(cfg, s) && Enabled(s, StartLogin)
    ensures LinkInv(cfg, Step(cfg, s, StartLogin))
  {
    var t := Step(cfg, s, StartLogin);
    LoginHistory(cfg, s, Mint(s.now, |s.runs|));
    HistoryDepends(cfg, s.(logins := s.logins + [Mint(s.now, |s.runs|)]), t);
    LoginAtHand(cfg, s, t);
    hide History, AtHand, InARow;
  }

  lemma LoginAtHand(cfg: Config, s: State, t: State)
    requires AtHand(cfg, s) && Enabled(s, StartLogin) && t == Step(cfg, s, StartLogin)
    ensures AtHand(cfg, t)
  {
    if s.runs != [] {
      LoginRested(cfg, s, t);
    }
    hide Rested;
  }

  /** What a login leaves: the old token, none, or its own. */
  ghost predicate LoginDone(s: State, t: State) {
    && t.runs == s.runs && t.logins == s.logins && t.shortExits == s.shortExits && t.now == s.now
    && (|| (t.pc.Sleep? && t.cookie == "")
        || (t.pc.Sleep? && t.cookie == s.cookie && t.fp == s.fp && t.host == s.host && t.login == s.login && t.minted == s.minted)
        || (t.pc == Raise && t.cookie != "" && t.login == |s.logins|))
  }

  lemma LoginEnds(cfg: Config, s: State, answer: Login)
    ensures LoginDone(s, AfterLogin(cfg, s, answer))
  {
  }

  lemma LoginDoneLinks(cfg: Config, s: State, t: State)
    requires LinkInv(cfg, s) && s.pc == LoggingIn && LoginDone(s, t)
    ensures LinkInv(cfg, t)
  {
    hide Keeps, Linked, InARow;
    if s.runs != [] {
      assert LoginAfter(s.logins, |s.runs| - 1, |s.logins| - 1);
    }
  }

  lemma KeepsBefore(runs: seq<Run>, more: seq<Run>, i: nat)
    requires i < |runs| && i < |more| && runs[..i + 1] == more[..i + 1]
    ensures Keeps(runs, i) <==> Keeps(more, i)
  {
    assert runs[i] == runs[..i + 1][i] && more[i] == more[..i + 1][i];
  }

  lemma OldLink(cfg: Config, logins: seq<Mint>, runs: seq<Run>, q: Run, i: nat)
    requires i + 1 < |runs| && Linked(cfg, logins, runs, i)
    ensures Linked(cfg, logins, runs + [q], i)
  {
    assert (runs + [q])[..i + 1] == runs[..i + 1];
    KeepsBefore(runs, runs + [q], i);
    hide Keeps;
  }

  lemma NewLink(cfg: Config, s: State, q: Run)
    requires LinkInv(cfg, s) && s.pc == Raise && s.runs != []
    requires q.token == Token(s.cookie, s.fp, s.host) && q.login == s.login && q.minted == s.minted
    ensures Linked(cfg, s.logins, s.runs + [q], |s.runs| - 1)
  {
    var n := |s.runs| - 1;
    assert (s.runs + [q])[..n + 1] == s.runs[..n + 1];
    KeepsBefore(s.runs, s.runs + [q], n);
    hide Keeps, InARow;
  }

  lemma RaiseHistory(cfg: Config, s: State, q: Run)
    requires LinkInv(cfg, s) && s.pc == Raise
    requires q.token == Token(s.cookie, s.fp, s.host) && q.login == s.login && q.minted == s.minted
    ensures History(cfg, s.(runs := s.runs + [q]))
  {
    hide Linked, InARow, Keeps;
    var runs := s.runs + [q];
    forall i | 0 <= i < |runs| - 1 ensures Linked(cfg, s.logins, runs, i) {
      if i < |s.runs| - 1 {
        OldLink(cfg, s.logins, s.runs, q, i);
      } else {
        NewLink(cfg, s, q);
      }
    }
  }

  lemma RaiseLinks(cfg: Config, s: State)
    requires LinkInv(cfg, s) && Enabled(s, RaiseTunnel)
    ensures LinkInv(cfg, Step(cfg, s, RaiseTunnel))
  {
    var t := Step(cfg, s, RaiseTunnel);
    RaiseHistory(cfg, s, t.runs[|s.runs|]);
    RaisedAtHand(cfg, s, t);
    RaisedCount(s, t);
    hide InARow, Linked, Keeps, AtHand, Counted, Step;
    assert t.runs == s.runs + [t.runs[|s.runs|]];
    HistoryDepends(cfg, s.(runs := t.runs), t);
  }

  lemma RaisedAtHand(cfg: Config, s: State, t: State)
    requires History(cfg, s) && AtHand(cfg, s) && s.pc == Raise && t == Step(cfg, s, RaiseTunnel)
    ensures AtHand(cfg, t)
  {
    hide InARow, Linked, Keeps, Rested;
    assert NoLogin(t.logins, |s.runs|);
  }

  lemma RaisedCount(s: State, t: State)
    requires Counted(s) && s.pc == Raise && t.pc == Arm && t.shortExits == s.shortExits
    requires |t.runs| == |s.runs| + 1 && t.runs[..|s.runs|] == s.runs
    ensures Counted(t)
  {
    hide InARow;
  }

  /** How the decision goes, by what happened to the tunnel. */
  function EndingOf(flag: bool, refused: bool, held: int): Ending {
    if flag then Planned else if refused then Rejected else if held < SHORT_RUN then Immediate else Dropped
  }

  /** What the decision leaves. */
  ghost predicate Decided(s: State, t: State, e: Ending) {
    && t.runs == EndRun(s.runs, e) && t.logins == s.logins && t.now == s.now && t.pc.Sleep?
    && t.fp == s.fp && t.host == s.host && t.login == s.login && t.minted == s.minted
    && t.shortExits == (if e == Immediate && s.shortExits < 2 then s.shortExits + 1 else 0)
    && t.cookie == if e == Dropped || (e == Immediate && s.shortExits < 2) then s.cookie else ""
  }

  lemma DecidedSo(cfg: Config, s: State)
    ensures Decided(s, AfterTunnel(cfg, s), EndingOf(s.flag, s.rejectedInLog, s.now - s.connStart))
  {
    hide EndRun;
  }

  lemma CountOne(runs: seq<Run>, e: Ending)
    requires runs != []
    ensures InARow(EndRun(runs, e)) == if e == Immediate then InARow(runs[..|runs| - 1]) + 1 else 0
  {
    assert EndRun(runs, e)[..|runs| - 1] == runs[..|runs| - 1];
  }

  lemma EndLink(cfg: Config, logins: seq<Mint>, runs: seq<Run>, e: Ending, i: nat)
    requires i + 1 < |runs| && Linked(cfg, logins, runs, i)
    ensures Linked(cfg, logins, EndRun(runs, e), i)
  {
    var more := EndRun(runs, e);
    assert more[..i + 1] == runs[..i + 1];
    KeepsBefore(runs, more, i);
    hide Keeps;
  }

  lemma DecisionHistory(cfg: Config, s: State, e: Ending)
    requires History(cfg, s)
    ensures History(cfg, s.(runs := EndRun(s.runs, e)))
  {
    hide Linked;
    forall i | 0 <= i < |s.runs| - 1 ensures Linked(cfg, s.logins, EndRun(s.runs, e), i) {
      EndLink(cfg, s.logins, s.runs, e, i);
    }
  }

  lemma NextOfThree(m: nat)
    ensures (m + 1) % 3 == if m % 3 < 2 then m % 3 + 1 else 0
  {
  }

  lemma KeepsLast(runs: seq<Run>)
    requires runs != []
    ensures Keeps(runs, |runs| - 1) <==>
            runs[|runs| - 1].ending == Dropped || (runs[|runs| - 1].ending == Immediate && InARow(runs) % 3 != 0)
  {
    assert runs[..|runs| - 1 + 1] == runs;
  }

  lemma EndedLast(runs: seq<Run>, e: Ending)
    requires runs != []
    ensures var n, t := |runs| - 1, EndRun(runs, e);
            |t| == n + 1 && t[..n] == runs[..n] && t[n].ending == e
  {
  }

  lemma ThirdInARow(s: State)
    requires s.pc == Decide && Counted(s)
    ensures s.runs != []
    ensures var m := InARow(s.runs[..|s.runs| - 1]);
            && ((m + 1) % 3 == 0 <==> s.shortExits == 2) && s.shortExits < 3
            && (m + 1) % 3 == if s.shortExits < 2 then s.shortExits + 1 else 0
  {
    NextOfThree(InARow(s.runs[..|s.runs| - 1]));
  }

  lemma DecisionKeeps(s: State, t: State, e: Ending)
    requires s.pc == Decide && Counted(s) && Decided(s, t, e) && s.cookie != ""
    ensures Counted(t) && (Keeps(t.runs, |s.runs| - 1) <==> t.cookie != "")
  {
    ThirdInARow(s);
    CountOne(s.runs, e);
    EndedLast(s.runs, e);
    KeepsLast(t.runs);
    hide InARow, EndRun, Keeps;
  }

  lemma DecidedAtHand(cfg: Config, s: State, t: State, e: Ending)
    requires AtHand(cfg, s) && s.pc == Decide && Decided(s, t, e) && e != Open
    requires Keeps(t.runs, |s.runs| - 1) <==> t.cookie != ""
    ensures AtHand(cfg, t)
  {
    hide Keeps;
  }

  lemma DecisionLinks(cfg: Config, s: State, t: State, e: Ending)
    requires LinkInv(cfg, s) && s.pc == Decide && Decided(s, t, e) && e != Open
    ensures LinkInv(cfg, t)
    ensures Keeps(t.runs, |s.runs| - 1) <==> t.cookie != ""
  {
    assert s.cookie != "";
    DecisionHistory(cfg, s, e);
    hide InARow, Linked, Keeps, Counted, AtHand, EndRun;
    DecisionKeeps(s, t, e);
    DecidedAtHand(cfg, s, t, e);
    HistoryDepends(cfg, s.(runs := EndRun(s.runs, e)), t);
  }

  lemma LinkStep(cfg: Config, s: State, a: Action)
    requires LinkInv(cfg, s) && Enabled(s, a)
    ensures LinkInv(cfg, Step(cfg, s, a))
  {
    match a
    case StartLogin => LoginLinks(cfg, s);
    case FinishLogin(answer) =>
      LoginEnds(cfg, s, answer);
      LoginDoneLinks(cfg, s, Step(cfg, s, a));
    case RaiseTunnel => RaiseLinks(cfg, s);
    case ComeBack =>
      DecidedSo(cfg, s);
      DecisionLinks(cfg, s, Step(cfg, s, a), EndingOf(s.flag, s.rejectedInLog, s.now - s.connStart));
    case _ =>
      PlainSteps(cfg, s, a);
      PlainLinks(cfg, s, Step(cfg, s, a));
  }

  lemma {:induction false} AlwaysLinked(cfg: Config, start: int, acts: seq<Action>)
    requires Exec(cfg, start, acts).At?
    ensures LinkInv(cfg, Exec(cfg, start, acts).s)
  {
    if acts != [] {
      hide LinkInv, Step;
      var n := |acts| - 1;
      AlwaysLinked(cfg, start, acts[..n]);
      LinkStep(cfg, Exec(cfg, start, acts[..n]).s, acts[n]);
    } else {
      assert LinkInv(cfg, Init(start));
    }
  }

  // ---- The promises --------------------------------------------------------------------------------

  /** The decision after a tunnel, from what happened since it was raised. The token is
      thrown away iff the timer rang, or the log shows a refused token, or this was the
      third (sixth, ...) immediate exit in a row; otherwise it is kept, and in no case does
      anything else about it change. */
  lemma DecisionExact(cfg: Config, start: int, acts: seq<Action>)
    requires Exec(cfg, start, acts).At? && Exec(cfg, start, acts).s.pc == Decide
    ensures Exec(cfg, start, acts).s.runs != []
    ensures var s := Exec(cfg, start, acts).s;
            var t := Step(cfg, s, ComeBack);
            var n := |s.runs| - 1;
            var brief := !Rang(acts) && !TokenRefused(acts) && Held(acts) < 5;
            var third := (InARow(s.runs[..n]) + 1) % 3 == 0;
            && s.cookie != "" && |t.runs| == n + 1 && t.runs[..n] == s.runs[..n]
            && (t.cookie == "" <==> Rang(acts) || TokenRefused(acts) || (brief && third))
            && (t.cookie != "" ==> t.cookie == s.cookie)
            && t.fp == s.fp && t.host == s.host && t.login == s.login && t.minted == s.minted
            && t.lastMint == s.lastMint && t.logins == s.logins && t.issued == s.issued
            && (t.runs[n].ending == Planned <==> Rang(acts))
            && (t.runs[n].ending == Rejected <==> !Rang(acts) && TokenRefused(acts))
            && (t.runs[n].ending == Immediate <==> brief)
            && t.runs[n].ending != Open
            && t.pc == Sleep(s.now + if Rang(acts) then 1 else if TokenRefused(acts) then 2 else if brief then 5 else cfg.settle)
  {
    AlwaysLinked(cfg, start, acts);
    SinceRaised(cfg, start, acts);
    var s := Exec(cfg, start, acts).s;
    ThirdInARow(s);
    DecisionOf(cfg, s, s.flag, s.rejectedInLog, s.now - s.connStart);
    assert Step(cfg, s, ComeBack) == AfterTunnel(cfg, s);
    hide Step, Enabled, Exec, InARow, AfterTunnel, Rang, TokenRefused, Held, Gone, KilledAlive, AtHand, History;
  }

  lemma DecisionOf(cfg: Config, s: State, rang: bool, refused: bool, held: int)
    requires AtHand(cfg, s) && s.pc == Decide && s.shortExits < 3
    requires s.flag == rang && s.rejectedInLog == refused && s.now - s.connStart == held
    ensures s.runs != []
    ensures var t := AfterTunnel(cfg, s);
            var n := |s.runs| - 1;
            var brief := !rang && !refused && held < 5;
            && s.cookie != "" && |t.runs| == n + 1 && t.runs[..n] == s.runs[..n]
            && (t.cookie == "" <==> rang || refused || (brief && s.shortExits == 2))
            && (t.cookie != "" ==> t.cookie == s.cookie)
            && t.fp == s.fp && t.host == s.host && t.login == s.login && t.minted == s.minted
            && t.lastMint == s.lastMint && t.logins == s.logins && t.issued == s.issued
            && (t.runs[n].ending == Planned <==> rang)
            && (t.runs[n].ending == Rejected <==> !rang && refused)
            && (t.runs[n].ending == Immediate <==> brief)
            && t.runs[n].ending != Open
            && t.pc == Sleep(s.now + if rang then 1 else if refused then 2 else if brief then 5 else cfg.settle)
  {
    HadToken(cfg, s);
    DecidedSo(cfg, s);
    DecisionPauses(cfg, s);
    EndedLast(s.runs, EndingOf(rang, refused, held));
    hide AfterTunnel, AtHand, EndRun;
  }

  lemma HadToken(cfg: Config, s: State)
    requires AtHand(cfg, s) && s.pc == Decide
    ensures s.cookie != "" && s.runs != []
  {
  }

  lemma DecisionPauses(cfg: Config, s: State)
    ensures var t := AfterTunnel(cfg, s);
            && t.lastMint == s.lastMint && t.issued == s.issued
            && t.pc == Sleep(s.now + match EndingOf(s.flag, s.rejectedInLog, s.now - s.connStart)
                                     case Planned => 1
                                     case Rejected => 2
                                     case Immediate => 5
                                     case _ => cfg.settle)
  {
    hide EndRun;
  }

  /** Which token each tunnel start uses, for any two consecutive ones of a run: the same
      one, minted by the same login, iff it was kept and no login came between; a login only
      comes after a kept token when it has reached the age limit; and after a token was
      thrown away there is one. */
  lemma NextStartExact(cfg: Config, start: int, acts: seq<Action>, i: nat)
    requires Exec(cfg, start, acts).At? && i + 1 < |Exec(cfg, start, acts).s.runs|
    ensures var s := Exec(cfg, start, acts).s;
            var r, q := s.runs[i], s.runs[i + 1];
            && r.ending != Open
            && (q.login == r.login <==> Keeps(s.runs, i) && NoLogin(s.logins, i))
            && (q.login == r.login ==> q.token == r.token && q.minted == r.minted)
            && (q.login != r.login ==> LoginAfter(s.logins, i, q.login - 1))
            && (Keeps(s.runs, i) ==> forall j :: LoginAfter(s.logins, i, j) ==> s.logins[j].at - r.minted >= cfg.maxAge)
  {
    AlwaysLinked(cfg, start, acts);
    var s := Exec(cfg, start, acts).s;
    assert Linked(cfg, s.logins, s.runs, i);
  }
}
