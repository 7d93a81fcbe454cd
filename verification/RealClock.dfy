/** The supervisor of vpn/entrypoint.sh in real time: it reads a clock of whole seconds and
    its sleeps last at least as long as asked. */
module RealClock {
  import opened VpnSupervisor

  /** The machine with the real time, the instants its sleep and its timer's sleep are over,
      and when each login really started. */
  datatype Timed = Timed(s: State, r: real, due: real, ring: real, starts: seq<real>)

  datatype Act = Flow(d: real) | Do(a: Action)

  function Begin(r: real): Timed { Timed(Init(r.Floor), r, r, r, []) }

  /** What has to wait waits for real time; nothing is asked of the clock it shows. */
  predicate Ready(t: Timed, e: Act) {
    match e
    case Flow(d) => d >= 0.0 && t.s.pc != Halted
    case Do(a) =>
      t.s.pc != Halted &&
      match a
      case Tick(_) => false
      case StartLogin => t.s.pc.MintWait? && t.r >= t.due
      case Wake => t.s.pc.Sleep? && t.r >= t.due
      case TimerTouch => t.s.timer.Armed? && t.r >= t.ring
      case _ => Enabled(t.s, a)
  }

  /** The step of the whole-second machine. */
  function Plain(t: Timed, e: Act): Action
    requires Ready(t, e) && t.s.now == t.r.Floor
  {
    match e
    case Flow(d) => Tick((t.r + d).Floor - t.r.Floor)
    case Do(a) => a
  }

  /** A sleep of `n` seconds ends `n` real seconds from now; of a negative number, at once. */
  function Until(r: real, n: int): real { if n > 0 then r + n as real else r }

  /** A sleep that begins with a step is computed from the clock as it shows then. */
  function Advance(cfg: Config, t: Timed, e: Act): Timed
    requires Ready(t, e) && Clocked(t)
  {
    Waits(t, e);
    var s := Step(cfg, t.s, Plain(t, e));
    match e
    case Flow(d) => t.(s := s, r := t.r + d)
    case Do(a) =>
      match a
      case CheckToken => t.(s := s, due := if s.pc.MintWait? then Until(t.r, s.pc.until - s.now) else t.due)
      case FinishLogin(_) => t.(s := s, due := if s.pc.Sleep? then Until(t.r, s.pc.until - s.now) else t.due)
      case ComeBack => t.(s := s, due := if s.pc.Sleep? then Until(t.r, s.pc.until - s.now) else t.due)
      case ArmTimer(refreshIn) => t.(s := s, ring := Until(t.r, refreshIn))
      case StartLogin => t.(s := s, starts := t.starts + [t.r])
      case _ => t.(s := s)
  }

  /** The clock shows the real time, and who really waited long enough did so by the clock. */
  ghost predicate Clocked(t: Timed) {
    && t.s.now == t.r.Floor
    && (t.s.pc.MintWait? || t.s.pc.Sleep? ==> t.due >= t.s.pc.until as real)
    && (t.s.timer.Armed? ==> t.ring >= t.s.timer.at as real)
    && |t.starts| == |t.s.logins|
    && forall i :: 0 <= i < |t.starts| ==> t.starts[i].Floor == t.s.logins[i].at
  }

  lemma FloorAtLeast(r: real, n: int)
    requires r >= n as real
    ensures r.Floor >= n
  {
  }

  lemma FloorGrows(r: real, d: real)
    requires d >= 0.0
    ensures (r + d).Floor >= r.Floor
  {
  }

  /** Waiting in real time is enough for the whole-second machine. */
  lemma Waits(t: Timed, e: Act)
    requires Ready(t, e) && Clocked(t)
    ensures e.Flow? ==> (t.r + e.d).Floor >= t.r.Floor
    ensures Enabled(t.s, Plain(t, e))
  {
    match e
    case Flow(d) => FloorGrows(t.r, d);
    case Do(a) =>
      if a == StartLogin || a == Wake {
        FloorAtLeast(t.r, t.s.pc.until);
      } else if a == TimerTouch {
        FloorAtLeast(t.r, t.s.timer.at);
      }
  }

  lemma ClockedStep(cfg: Config, t: Timed, e: Act)
    requires Ready(t, e) && Clocked(t)
    ensures Clocked(Advance(cfg, t, e))
  {
    Waits(t, e);
    hide AfterLogin, AfterTunnel, EndRun;
    var s := Step(cfg, t.s, Plain(t, e));
    if e.Do? && e.a.FinishLogin? {
      LoginTiming(cfg, t.s, e.a.answer);
    } else if e.Do? && e.a.ComeBack? {
      TunnelTiming(cfg, t.s);
    }
  }

  lemma LoginTiming(cfg: Config, s: State, answer: Login)
    ensures var n := AfterLogin(cfg, s, answer);
            n.now == s.now && n.logins == s.logins && n.timer == s.timer && !n.pc.MintWait?
  {
  }

  lemma TunnelTiming(cfg: Config, s: State)
    ensures var n := AfterTunnel(cfg, s);
            n.now == s.now && n.logins == s.logins && n.timer == s.timer && n.pc.Sleep?
  {
    hide EndRun;
  }

  // ---- Real runs are runs of the whole-second machine -----------------------------------------

  datatype Course = Blocked | Reached(t: Timed, plain: seq<Action>)

  function Outset(r: real): Course { Reached(Begin(r), []) }

  /** A run in real time, and the actions of the whole-second machine it amounts to. */
  ghost function Live(cfg: Config, r: real, es: seq<Act>): Course {
    if es == [] then Outset(r)
    else
      match Live(cfg, r, es[..|es| - 1])
      case Blocked => Blocked
      case Reached(t, plain) =>
        if Ready(t, es[|es| - 1]) && Clocked(t)
        then Reached(Advance(cfg, t, es[|es| - 1]), plain + [Plain(t, es[|es| - 1])])
        else Blocked
  }

  lemma {:induction false} RealIsRun(cfg: Config, r: real, es: seq<Act>)
    requires Live(cfg, r, es).Reached?
    ensures var c := Live(cfg, r, es); Clocked(c.t) && Exec(cfg, r.Floor, c.plain) == At(c.t.s)
  {
    if es != [] {
      var before, e := es[..|es| - 1], es[|es| - 1];
      RealIsRun(cfg, r, before);
      var c := Live(cfg, r, before);
      ClockedStep(cfg, c.t, e);
      Waits(c.t, e);
      var plain := c.plain + [Plain(c.t, e)];
      assert plain[..|c.plain|] == c.plain;
    }
  }

  /** A step that is ready is never blocked: the clock is no further condition. */
  lemma NeverBlocked(cfg: Config, r: real, es: seq<Act>, e: Act)
    requires Live(cfg, r, es).Reached?
    ensures Live(cfg, r, es + [e]).Reached? <==> Ready(Live(cfg, r, es).t, e)
    ensures Clocked(Live(cfg, r, es).t)
    ensures Ready(Live(cfg, r, es).t, e) ==> Live(cfg, r, es + [e]).t == Advance(cfg, Live(cfg, r, es).t, e)
  {
    RealIsRun(cfg, r, es);
    assert (es + [e])[..|es|] == es;
  }

  // ---- The real distance of logins ----------------------------------------------------------------

  /** In real time, too, logins keep a distance: more than 31 s. */
  lemma RealSpacing(cfg: Config, r: real, es: seq<Act>, i: nat, j: nat)
    requires Live(cfg, r, es).Reached? && i < j < |Live(cfg, r, es).t.starts|
    ensures var starts := Live(cfg, r, es).t.starts; starts[j] - starts[i] > 31.0
  {
    var c := Live(cfg, r, es);
    RealIsRun(cfg, r, es);
    LoginsSpaced(cfg, r.Floor, c.plain);
    assert c.t.starts[i].Floor == c.t.s.logins[i].at && c.t.starts[j].Floor == c.t.s.logins[j].at;
  }

  lemma Next(cfg: Config, r: real, es: seq<Act>, e: Act) returns (more: seq<Act>)
    requires Live(cfg, r, es).Reached? && Ready(Live(cfg, r, es).t, e)
    ensures more == es + [e] && Live(cfg, r, more).Reached? && Clocked(Live(cfg, r, es).t)
    ensures Live(cfg, r, more).t == Advance(cfg, Live(cfg, r, es).t, e)
  {
    more := es + [e];
    NeverBlocked(cfg, r, es, e);
  }

  /** Nothing more can be promised: two logins can really be any time above 31 s up to 32 s
      apart. The first begins late in its second, its token is rejected, and the wait for the
      second is computed early in one. */
  lemma JustOver31(cfg: Config, late: real) returns (es: seq<Act>)
    requires 0.0 <= late < 1.0
    ensures var c := Live(cfg, 100.0 + late, es);
            c.Reached? && |c.t.starts| == 2 && c.t.starts[1] - c.t.starts[0] == 32.0 - late
  {
    var r := 100.0 + late;
    assert r.Floor == 100;
    es := FirstLogin(cfg, r);
    es := Rejection(cfg, r, es);
    es := SecondLogin(cfg, r, es, late);
  }

  lemma FirstLogin(cfg: Config, r: real) returns (es: seq<Act>)
    requires r.Floor == 100
    ensures Live(cfg, r, es).Reached?
    ensures var t := Live(cfg, r, es).t;
            && t.r == r && t.s.now == 100 && t.starts == [r] && t.s.pc == Raise && t.s.lastMint == 100
            && t.s.timer == Off
  {
    hide Live, AfterTunnel;
    assert Live(cfg, r, []) == Outset(r) by {
      Start(cfg, r);
    }
    es := Next(cfg, r, [], Do(CheckToken));
    es := Next(cfg, r, es, Do(StartLogin));
    es := Next(cfg, r, es, Do(FinishLogin(Answer("c", "f", "h"))));
  }

  lemma Start(cfg: Config, r: real)
    ensures Live(cfg, r, []) == Outset(r)
  {
  }

  lemma Rejection(cfg: Config, r: real, es0: seq<Act>) returns (es: seq<Act>)
    requires Live(cfg, r, es0).Reached? && r.Floor == 100
    requires var t := Live(cfg, r, es0).t;
             && t.r == r && t.s.now == 100 && t.s.pc == Raise && t.s.timer == Off
    ensures Live(cfg, r, es).Reached?
    ensures var t, t0 := Live(cfg, r, es).t, Live(cfg, r, es0).t;
            && t.r == r && t.s.now == 100 && t.starts == t0.starts && t.s.lastMint == t0.s.lastMint
            && t.s.pc == Sleep(102) && t.due == r + 2.0 && t.s.cookie == ""
  {
    hide Live, AfterLogin;
    es := Next(cfg, r, es0, Do(RaiseTunnel));
    es := Next(cfg, r, es, Do(ArmTimer(82800)));
    es := Next(cfg, r, es, Do(TunnelExit(true)));
    es := Next(cfg, r, es, Do(Reap));
    es := Next(cfg, r, es, Do(ComeBack));
  }

  lemma SecondLogin(cfg: Config, r: real, es0: seq<Act>, late: real) returns (es: seq<Act>)
    requires Live(cfg, r, es0).Reached? && 0.0 <= late < 1.0 && r == 100.0 + late
    requires var t := Live(cfg, r, es0).t;
             && t.r == r && t.s.now == 100 && t.starts == [r] && t.s.lastMint == 100
             && t.s.pc == Sleep(102) && t.due == r + 2.0 && t.s.cookie == ""
    ensures var c := Live(cfg, r, es);
            c.Reached? && |c.t.starts| == 2 && c.t.starts[1] - c.t.starts[0] == 32.0 - late
  {
    hide Live, AfterLogin, AfterTunnel;
    assert r + (3.0 - late) == 103.0 && (103.0).Floor == 103 && (103.0 + 29.0).Floor == 132;
    es := Next(cfg, r, es0, Flow(3.0 - late));
    es := Next(cfg, r, es, Do(Wake));
    es := Next(cfg, r, es, Do(CheckToken));
    es := Next(cfg, r, es, Flow(29.0));
    es := Next(cfg, r, es, Do(StartLogin));
  }
}
