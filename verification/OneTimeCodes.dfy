/** When two logins can present the same one-time code (vpn/entrypoint.sh). The supervisor
    keeps the starts of logins apart, but a login presents its code some seconds later. */
module OneTimeCodes {
  import opened VpnSupervisor

  /** When each finished login command returned. */
  ghost function Ends(cfg: Config, start: int, acts: seq<Action>): seq<int> {
    if acts == [] then []
    else
      var before, a := acts[..|acts| - 1], acts[|acts| - 1];
      Ends(cfg, start, before)
      + if a.FinishLogin? && Exec(cfg, start, before).At? then [Exec(cfg, start, before).s.now] else []
  }

  /** Login `k` has presented its code `d` seconds after it started: while its command ran. */
  ghost predicate Presents(cfg: Config, start: int, acts: seq<Action>, k: nat, d: nat) {
    && Exec(cfg, start, acts).At? && k < |Exec(cfg, start, acts).s.logins|
    && Exec(cfg, start, acts).s.logins[k].at + d
       <= if k < |Ends(cfg, start, acts)| then Ends(cfg, start, acts)[k] else Exec(cfg, start, acts).s.now
  }

  function CodeOf(at: int): int { at / CODE_STEP }

  /** At least this long after a login returned the next one starts. */
  function Pause(cfg: Config): nat { if cfg.mintBackoff == 0 then 0 else 1 }

  /** No run in which login `k` presents its code after `d` seconds and the next login after
      `e` presents one code twice. */
  ghost predicate NeverTwice(cfg: Config, d: nat, e: nat) {
    forall start, acts, k: nat | Presents(cfg, start, acts, k, d) && Presents(cfg, start, acts, k + 1, e) ::
      var l := Exec(cfg, start, acts).s.logins; CodeOf(l[k].at + d) != CodeOf(l[k + 1].at + e)
  }

  // ---- The distance of codes -----------------------------------------------------------------

  ghost predicate EndsInv(cfg: Config, s: State, ends: seq<int>) {
    && |ends| <= |s.logins| <= |ends| + 1
    && (s.pc == LoggingIn ==> |s.logins| == |ends| + 1)
    && (s.pc != LoggingIn && s.pc != Halted ==> |s.logins| == |ends|)
    && (forall k :: 0 <= k < |ends| ==> s.logins[k].at <= ends[k] <= s.now)
    && (forall k :: 0 < k < |s.logins| ==> ends[k - 1] + Pause(cfg) <= s.logins[k].at)
    && (forall k :: 0 <= k < |s.logins| ==> s.logins[k].at <= s.now)
    && (ends != [] ==>
          var last := ends[|ends| - 1];
          && (s.pc.Arm? || s.pc.Wait? || s.pc.Decide? ==> s.connStart >= last)
          && (s.pc.Sleep? ==> s.pc.until >= last + Pause(cfg))
          && (s.pc.Check? || s.pc.MintWait? ==> s.now >= last + Pause(cfg)))
  }

  lemma EndsTunnel(cfg: Config, s: State, ends: seq<int>)
    requires EndsInv(cfg, s, ends) && Enabled(s, ComeBack)
    ensures EndsInv(cfg, Step(cfg, s, ComeBack), ends)
  {
    TunnelBooks(cfg, s);
    hide AfterTunnel;
  }

  lemma TunnelBooks(cfg: Config, s: State)
    ensures var t := AfterTunnel(cfg, s);
            && t.logins == s.logins && t.now == s.now && t.pc.Sleep?
            && (t.pc.until >= s.now + 1 || t.pc.until >= s.connStart + SHORT_RUN)
  {
    hide EndRun;
  }

  lemma LoginBooks(cfg: Config, s: State, r: Login)
    ensures var t := AfterLogin(cfg, s, r);
            t.logins == s.logins && t.now == s.now && (t.pc == Raise || t.pc == Sleep(s.now + cfg.mintBackoff))
  {
  }

  lemma EndsLogin(cfg: Config, s: State, t: State, ends: seq<int>)
    requires EndsInv(cfg, s, ends) && s.pc == LoggingIn
    requires t.logins == s.logins && t.now == s.now && (t.pc == Raise || t.pc == Sleep(s.now + cfg.mintBackoff))
    ensures EndsInv(cfg, t, ends + [s.now])
  {
  }

  lemma EndsStart(cfg: Config, s: State, ends: seq<int>)
    requires EndsInv(cfg, s, ends) && Enabled(s, StartLogin)
    ensures EndsInv(cfg, Step(cfg, s, StartLogin), ends)
  {
  }

  lemma EndsRaise(cfg: Config, s: State, ends: seq<int>)
    requires EndsInv(cfg, s, ends) && Enabled(s, RaiseTunnel)
    ensures EndsInv(cfg, Step(cfg, s, RaiseTunnel), ends)
  {
  }

  /** A login that is running keeps running, or the shell is stopped. */
  lemma StaysLoggingIn(cfg: Config, s: State, a: Action)
    requires Enabled(s, a) && !a.FinishLogin? && s.pc == LoggingIn
    ensures Step(cfg, s, a).pc == LoggingIn || Step(cfg, s, a).pc == Halted
  {
  }

  lemma EndsMoves(cfg: Config, s: State, t: State, ends: seq<int>)
    requires EndsInv(cfg, s, ends) && Moves(s, t) && s.pc != Halted
    requires s.pc == LoggingIn ==> t.pc == LoggingIn || t.pc == Halted
    ensures EndsInv(cfg, t, ends)
  {
  }

  lemma EndsStep(cfg: Config, s: State, ends: seq<int>, a: Action)
    requires EndsInv(cfg, s, ends) && Enabled(s, a)
    ensures EndsInv(cfg, Step(cfg, s, a), if a.FinishLogin? then ends + [s.now] else ends)
  {
    hide EndsInv, Moves, AfterLogin, AfterTunnel;
    match a
    case ComeBack => EndsTunnel(cfg, s, ends);
    case StartLogin => EndsStart(cfg, s, ends);
    case RaiseTunnel => EndsRaise(cfg, s, ends);
    case FinishLogin(r) =>
      LoginBooks(cfg, s, r);
      EndsLogin(cfg, s, Step(cfg, s, a), ends);
    case _ =>
      OtherMoves(cfg, s, a);
      if s.pc == LoggingIn {
        StaysLoggingIn(cfg, s, a);
      }
      EndsMoves(cfg, s, Step(cfg, s, a), ends);
  }

  lemma {:induction false} EndsRun(cfg: Config, start: int, acts: seq<Action>)
    requires Exec(cfg, start, acts).At?
    ensures EndsInv(cfg, Exec(cfg, start, acts).s, Ends(cfg, start, acts))
  {
    if acts != [] {
      var before, a := acts[..|acts| - 1], acts[|acts| - 1];
      EndsRun(cfg, start, before);
      var s, ends := Exec(cfg, start, before).s, Ends(cfg, start, before);
      hide EndsInv, Step;
      EndsStep(cfg, s, ends, a);
      assert ends + [] == ends;
    }
  }

  /** Delays for which the codes of consecutive logins are always a full step apart. */
  predicate CodesApart(cfg: Config, d: nat, e: nat) { d <= e + 2 || e + Pause(cfg) >= CODE_STEP }

  lemma CodesSpaced(cfg: Config, start: int, acts: seq<Action>, k: nat, d: nat, e: nat)
    requires Presents(cfg, start, acts, k, d) && Presents(cfg, start, acts, k + 1, e) && CodesApart(cfg, d, e)
    ensures var l := Exec(cfg, start, acts).s.logins; l[k + 1].at + e - (l[k].at + d) >= CODE_STEP
  {
    EndsRun(cfg, start, acts);
    LoginsSpaced(cfg, start, acts);
  }

  /** All codes of a run, when every login presents its own at a delay that suits the one of
      the login before: no code twice. */
  lemma {:induction false} AllCodesDiffer(cfg: Config, start: int, acts: seq<Action>, delays: seq<nat>, i: nat, j: nat)
    requires Exec(cfg, start, acts).At? && i < j < |delays| <= |Exec(cfg, start, acts).s.logins|
    requires forall k :: 0 <= k < |delays| ==> Presents(cfg, start, acts, k, delays[k])
    requires forall k :: 0 < k < |delays| ==> CodesApart(cfg, delays[k - 1], delays[k])
    ensures var l := Exec(cfg, start, acts).s.logins;
            && l[j].at + delays[j] - (l[i].at + delays[i]) >= CODE_STEP
            && CodeOf(l[i].at + delays[i]) < CodeOf(l[j].at + delays[j])
  {
    assert Presents(cfg, start, acts, j, delays[j]) && Presents(cfg, start, acts, i, delays[i]);
    assert CodesApart(cfg, delays[j - 1], delays[j]);
    CodesSpaced(cfg, start, acts, j - 1, delays[j - 1], delays[j]);
    if i < j - 1 {
      AllCodesDiffer(cfg, start, acts, delays, i, j - 1);
    }
  }

  // ---- A code presented twice ---------------------------------------------------------------------

  /** A first login that takes `d` seconds and is of no use: refused when the shell does not
      pause after that, otherwise its session is refreshed at once. */
  lemma UselessLogin(cfg: Config, start: int, d: nat) returns (acts: seq<Action>)
    requires start >= MIN_MINT_SPACING
    ensures Exec(cfg, start, acts).At? && Ends(cfg, start, acts) == [start + d]
    ensures var s := Exec(cfg, start, acts).s;
            && |s.logins| == 1 && s.logins[0].at == start == s.lastMint && s.now == start + d && s.cookie == ""
            && s.pc == Sleep(start + d + Pause(cfg))
  {
    if cfg.mintBackoff == 0 {
      acts := LoginEnds(cfg, start, d, Refused);
    } else {
      acts := LoginEnds(cfg, start, d, Answer("c", "f", "h"));
      acts := RefreshAtOnce(cfg, start, acts);
    }
  }

  lemma Go(cfg: Config, start: int, acts: seq<Action>, a: Action) returns (more: seq<Action>)
    requires Exec(cfg, start, acts).At? && Enabled(Exec(cfg, start, acts).s, a)
    ensures more == acts + [a]
    ensures Exec(cfg, start, more) == At(Step(cfg, Exec(cfg, start, acts).s, a))
    ensures Ends(cfg, start, more)
         == if a.FinishLogin? then Ends(cfg, start, acts) + [Exec(cfg, start, acts).s.now] else Ends(cfg, start, acts)
  {
    more := acts + [a];
    assert more[..|acts|] == acts;
    assert Ends(cfg, start, acts) + [] == Ends(cfg, start, acts);
  }

  lemma LoginEnds(cfg: Config, start: int, d: nat, r: Login) returns (acts: seq<Action>)
    requires start >= MIN_MINT_SPACING && (r == Refused || r == Answer("c", "f", "h"))
    ensures Exec(cfg, start, acts).At? && Ends(cfg, start, acts) == [start + d]
    ensures var s := Exec(cfg, start, acts).s;
            && |s.logins| == 1 && s.logins[0].at == start == s.lastMint && s.now == start + d
            && (if r.Refused? then s.cookie == "" && s.pc == Sleep(start + d + cfg.mintBackoff) else s.pc == Raise)
  {
    acts := LoginRuns(cfg, start, d);
    LoginEffect(cfg, Exec(cfg, start, acts).s, r);
    hide Exec, Ends, AfterTunnel, AfterLogin;
    acts := Go(cfg, start, acts, FinishLogin(r));
  }

  lemma LoginEffect(cfg: Config, s: State, r: Login)
    requires r == Refused || r == Answer("c", "f", "h")
    ensures var t := AfterLogin(cfg, s, r);
            && t.logins == s.logins && t.lastMint == s.lastMint && t.now == s.now
            && (if r.Refused? then t.cookie == s.cookie && t.pc == Sleep(s.now + cfg.mintBackoff) else t.pc == Raise)
  {
    assert |"c"| == 1 && |"f"| == 1 && |"h"| == 1;
  }

  lemma LoginRuns(cfg: Config, start: int, d: nat) returns (acts: seq<Action>)
    requires start >= MIN_MINT_SPACING
    ensures Exec(cfg, start, acts).At? && Ends(cfg, start, acts) == []
    ensures var s := Exec(cfg, start, acts).s;
            && |s.logins| == 1 && s.logins[0].at == start == s.lastMint && s.now == start + d
            && s.cookie == "" && s.pc == LoggingIn
  {
    acts := [];
    assert Exec(cfg, start, acts) == At(Init(start)) && Ends(cfg, start, acts) == [];
    hide Exec, Ends, AfterTunnel, AfterLogin;
    acts := Go(cfg, start, acts, CheckToken);
    acts := Go(cfg, start, acts, StartLogin);
    acts := Go(cfg, start, acts, Tick(d));
  }

  lemma RefreshAtOnce(cfg: Config, start: int, acts0: seq<Action>) returns (acts: seq<Action>)
    requires Exec(cfg, start, acts0).At? && Exec(cfg, start, acts0).s.pc == Raise
    ensures Exec(cfg, start, acts).At? && Ends(cfg, start, acts) == Ends(cfg, start, acts0)
    ensures var s, t := Exec(cfg, start, acts0).s, Exec(cfg, start, acts).s;
            t.logins == s.logins && t.lastMint == s.lastMint && t.now == s.now && t.cookie == "" && t.pc == Sleep(s.now + 1)
  {
    acts := Refreshed(cfg, start, acts0);
    hide Exec, Ends, EndRun, AfterLogin;
    acts := Go(cfg, start, acts, ComeBack);
  }

  lemma Refreshed(cfg: Config, start: int, acts0: seq<Action>) returns (acts: seq<Action>)
    requires Exec(cfg, start, acts0).At? && Exec(cfg, start, acts0).s.pc == Raise
    ensures Exec(cfg, start, acts).At? && Ends(cfg, start, acts) == Ends(cfg, start, acts0)
    ensures var s, t := Exec(cfg, start, acts0).s, Exec(cfg, start, acts).s;
            t.logins == s.logins && t.lastMint == s.lastMint && t.now == s.now && t.flag && t.pc == Decide
  {
    hide Exec, Ends, AfterTunnel, AfterLogin;
    acts := Go(cfg, start, acts0, RaiseTunnel);
    acts := Go(cfg, start, acts, ArmTimer(0));
    acts := Go(cfg, start, acts, TimerTouch);
    acts := Go(cfg, start, acts, TimerTerm);
    acts := Go(cfg, start, acts, TunnelExit(false));
    acts := Go(cfg, start, acts, Reap);
  }

  function Max(x: int, y: int): int { if x > y then x else y }

  /** The loop head after a login that was of no use. */
  lemma BackToLogin(cfg: Config, start: int, acts0: seq<Action>, pause: nat) returns (acts: seq<Action>)
    requires Exec(cfg, start, acts0).At?
    requires var s := Exec(cfg, start, acts0).s; s.pc == Sleep(s.now + pause) && s.cookie == ""
    ensures Exec(cfg, start, acts).At? && Ends(cfg, start, acts) == Ends(cfg, start, acts0)
    ensures var s, t := Exec(cfg, start, acts0).s, Exec(cfg, start, acts).s;
            t.logins == s.logins && t.now == s.now + pause && t.pc == MintWait(s.lastMint + MIN_MINT_SPACING)
  {
    hide Exec, Ends, AfterTunnel, AfterLogin;
    acts := Go(cfg, start, acts0, Tick(pause));
    acts := Go(cfg, start, acts, Wake);
    acts := Go(cfg, start, acts, CheckToken);
  }

  lemma NextLogin(cfg: Config, start: int, acts0: seq<Action>, wait: nat, e: nat) returns (acts: seq<Action>)
    requires Exec(cfg, start, acts0).At?
    requires var s := Exec(cfg, start, acts0).s; s.pc.MintWait? && s.now + wait >= s.pc.until
    ensures Exec(cfg, start, acts).At? && Ends(cfg, start, acts) == Ends(cfg, start, acts0)
    ensures var s, t := Exec(cfg, start, acts0).s, Exec(cfg, start, acts).s;
            t.logins == s.logins + [Mint(s.now + wait, |s.runs|)] && t.now == s.now + wait + e
  {
    hide Exec, Ends, AfterTunnel, AfterLogin;
    acts := Go(cfg, start, acts0, Tick(wait));
    acts := Go(cfg, start, acts, StartLogin);
    acts := Go(cfg, start, acts, Tick(e));
  }

  /** Two logins as close to each other as they can be. */
  lemma TwoLogins(cfg: Config, start: int, d: nat, e: nat) returns (acts: seq<Action>)
    requires start >= MIN_MINT_SPACING
    ensures Presents(cfg, start, acts, 0, d) && Presents(cfg, start, acts, 1, e)
    ensures var l := Exec(cfg, start, acts).s.logins;
            |l| == 2 && l[0].at == start && l[1].at == start + Max(MIN_MINT_SPACING, d + Pause(cfg))
  {
    hide Exec, Ends;
    acts := UselessLogin(cfg, start, d);
    acts := BackToLogin(cfg, start, acts, Pause(cfg));
    acts := NextLogin(cfg, start, acts, Max(MIN_MINT_SPACING, d + Pause(cfg)) - (d + Pause(cfg)), e);
  }

  lemma LaterStep(x: int, y: int)
    requires y - x >= CODE_STEP
    ensures CodeOf(x) != CodeOf(y)
  {
  }

  lemma SameStep(x: int, y: int)
    requires x % CODE_STEP == 0 && x <= y < x + CODE_STEP
    ensures CodeOf(x) == CodeOf(y)
  {
  }

  /** Other delays make one code be presented twice, in a run that starts in the right second. */
  lemma CodeTwice(cfg: Config, d: nat, e: nat) returns (start: int, acts: seq<Action>)
    requires !CodesApart(cfg, d, e)
    ensures Presents(cfg, start, acts, 0, d) && Presents(cfg, start, acts, 1, e)
    ensures var l := Exec(cfg, start, acts).s.logins; CodeOf(l[0].at + d) == CodeOf(l[1].at + e)
  {
    start := 90 - d % CODE_STEP;
    acts := TwoLogins(cfg, start, d, e);
    SameStep(start + d, start + Max(MIN_MINT_SPACING, d + Pause(cfg)) + e);
  }

  /** Exactly which delays are safe: the earlier login is at most two seconds slower than the
      later one, or the later one waits a whole step by itself. */
  lemma NeverTwiceIff(cfg: Config, d: nat, e: nat)
    ensures NeverTwice(cfg, d, e) <==> CodesApart(cfg, d, e)
  {
    hide Exec, Ends, CodesApart, CodeOf;
    if CodesApart(cfg, d, e) {
      forall start, acts, k: nat | Presents(cfg, start, acts, k, d) && Presents(cfg, start, acts, k + 1, e)
        ensures var l := Exec(cfg, start, acts).s.logins; CodeOf(l[k].at + d) != CodeOf(l[k + 1].at + e)
      {
        CodesSpaced(cfg, start, acts, k, d, e);
        var l := Exec(cfg, start, acts).s.logins;
        LaterStep(l[k].at + d, l[k + 1].at + e);
      }
    } else {
      var start, acts := CodeTwice(cfg, d, e);
      assert Presents(cfg, start, acts, 0 + 1, e);
    }
  }
}
