/** When the password hash and the encrypted password are of the same password, with any
    number of logins storing and agents removing at once (mail/authcheck.py). */
module CredentialFiles {
  import opened Common
  import opened Credentials

  ghost predicate LoginMid(s: State, l: nat) { l in s.logins && s.logins[l].HashWritten? }

  ghost predicate AgentMid(s: State, a: nat) { a in s.agents && s.agents[a].DropSecret? }

  ghost predicate Storing(s: State) { exists l :: LoginMid(s, l) }

  ghost predicate Removing(s: State) { exists a :: AgentMid(s, a) }

  /** Nobody is between the two files, storing or removing. */
  ghost predicate Quiet(s: State) { !Storing(s) && !Removing(s) }

  /** The step does not cross an unfinished one: storing begins beside no removal and no
      storing of another password, removing beside no storing, and what is cut short is
      still finished by another, or had nothing left to change. */
  ghost predicate Orderly(s: State, e: Event)
    requires Enabled(s, e)
  {
    match e
    case WriteHash(l) => !Removing(s) && forall m :: LoginMid(s, m) ==> s.logins[m].pw == s.logins[l].pw
    case RemoveHash(a) => !Storing(s)
    case KillLogin(l) => LoginMid(s, l) ==> s.secret == s.hash || exists m :: m != l && LoginMid(s, m)
    case KillAgent(a) => AgentMid(s, a) ==> s.secret == s.hash || exists b :: b != a && AgentMid(s, b)
    case _ => true
  }

  ghost predicate OrderlyRun(s: State, ev: seq<Event>, c: real) {
    ev == [] ||
    var u, e := ev[..|ev| - 1], ev[|ev| - 1];
    OrderlyRun(s, u, c) && Enabled(After(s, u, c), e) && Orderly(After(s, u, c), e)
  }

  // ---- Orderly steps keep the files together -----------------------------------------------------

  ghost predicate Agreeing(s: State) {
    && (Quiet(s) ==> s.hash == s.secret)
    && (forall l :: LoginMid(s, l) ==> s.hash == Some(s.logins[l].pw))
    && (Removing(s) ==> s.hash == None)
  }

  lemma FilesNext(s: State, e: Event, c: real)
    requires Enabled(s, e)
    ensures Step(s, e, c).hash ==
            if e.WriteHash? then Some(s.logins[e.l].pw) else if e.RemoveHash? then None else s.hash
    ensures Step(s, e, c).secret ==
            if e.WriteSecret? then Some(s.logins[e.l].pw) else if e.RemoveSecret? then None else s.secret
    ensures e.WriteHash? ==> e.l in Step(s, e, c).logins && Step(s, e, c).logins[e.l] == HashWritten(s.logins[e.l].pw)
    ensures e.WriteSecret? ==> LoginMid(s, e.l)
    ensures e.RemoveSecret? ==> AgentMid(s, e.a)
  {
  }

  lemma MidNext(s: State, e: Event, c: real)
    requires Enabled(s, e)
    ensures forall l :: LoginMid(Step(s, e, c), l) <==>
              (LoginMid(s, l) && !((e.WriteSecret? || e.KillLogin?) && e.l == l)) || e == WriteHash(l)
    ensures forall l :: LoginMid(s, l) && LoginMid(Step(s, e, c), l) ==> Step(s, e, c).logins[l] == s.logins[l]
    ensures forall a :: AgentMid(Step(s, e, c), a) <==>
              (AgentMid(s, a) && !((e.RemoveSecret? || e.KillAgent?) && e.a == a)) || e == RemoveHash(a)
  {
  }

  lemma AgreeingStep(s: State, e: Event, c: real)
    requires Agreeing(s) && Enabled(s, e) && Orderly(s, e)
    ensures Agreeing(Step(s, e, c))
  {
    var t := Step(s, e, c);
    MidNext(s, e, c);
    FilesNext(s, e, c);
    hide Step, LoginMid, AgentMid, Enabled;
    match e
    case WriteHash(l) => assert LoginMid(t, l);
    case RemoveHash(a) => assert AgentMid(t, a);
    case WriteSecret(l) => assert LoginMid(s, l);
    case RemoveSecret(a) => assert AgentMid(s, a);
    case KillLogin(l) =>
      if LoginMid(s, l) && s.secret != s.hash {
        var m :| m != l && LoginMid(s, m);
        assert LoginMid(t, m);
      }
    case KillAgent(a) =>
      if AgentMid(s, a) && s.secret != s.hash {
        var b :| b != a && AgentMid(s, b);
        assert AgentMid(t, b);
      }
    case _ =>
      assert Quiet(t) ==> Quiet(s);
  }

  lemma {:induction false} AgreeingRun(s: State, ev: seq<Event>, c: real)
    requires Agreeing(s) && OrderlyRun(s, ev, c)
    ensures Agreeing(After(s, ev, c))
  {
    if ev != [] {
      hide Agreeing, Orderly;
      var u := ev[..|ev| - 1];
      AgreeingRun(s, u, c);
      AgreeingStep(After(s, u, c), ev[|ev| - 1], c);
    }
  }

  /** While all steps are orderly, the hash and the encrypted password are of the same
      password whenever nobody is between the two files. */
  lemma FilesAgree(ev: seq<Event>, c: real)
    requires OrderlyRun(EMPTY, ev, c)
    ensures var s := After(EMPTY, ev, c);
            (Quiet(s) ==> s.hash == s.secret) && forall l :: LoginMid(s, l) ==> s.hash == Some(s.logins[l].pw)
  {
    EmptyAgrees();
    AgreeingRun(EMPTY, ev, c);
  }

  lemma EmptyAgrees()
    ensures Agreeing(EMPTY)
  {
  }

  // ---- A step that is not orderly can take them apart ---------------------------------------------

  /** Orderly steps can lead on to different files with nobody at work. */
  ghost predicate CanDisagree(s: State, c: real) {
    exists ev :: OrderlyRun(s, ev, c) && Apart(After(s, ev, c))
  }

  ghost predicate Apart(s: State) { Quiet(s) && s.hash != s.secret }

  lemma Further(s: State, ev: seq<Event>, e: Event, c: real) returns (fs: seq<Event>)
    requires OrderlyRun(s, ev, c) && Enabled(After(s, ev, c), e) && Orderly(After(s, ev, c), e)
    ensures fs == ev + [e] && OrderlyRun(s, fs, c) && After(s, fs, c) == Step(After(s, ev, c), e, c)
  {
    fs := ev + [e];
    assert fs[..|ev|] == ev;
  }

  function LoginsMid(s: State): set<nat> { set l | l in s.logins && s.logins[l].HashWritten? }

  function AgentsMid(s: State): set<nat> { set a | a in s.agents && s.agents[a].DropSecret? }

  /** All logins that are storing `p` finish. */
  lemma FinishLogins(s: State, ev0: seq<Event>, p: Password, c: real) returns (ev: seq<Event>)
    requires OrderlyRun(s, ev0, c)
    requires forall l :: LoginMid(After(s, ev0, c), l) ==> After(s, ev0, c).logins[l].pw == p
    ensures OrderlyRun(s, ev, c)
    ensures var u, t := After(s, ev0, c), After(s, ev, c);
            && !Storing(t) && t.hash == u.hash && (Removing(t) <==> Removing(u))
            && t.secret == if Storing(u) then Some(p) else u.secret
  {
    var u := After(s, ev0, c);
    ev := ev0;
    while LoginsMid(After(s, ev, c)) != {}
      invariant OrderlyRun(s, ev, c)
      invariant var t := After(s, ev, c);
                && (forall l :: LoginMid(t, l) ==> LoginMid(u, l) && t.logins[l].pw == p)
                && t.hash == u.hash && t.agents == u.agents
                && (t.secret == Some(p) || (t.secret == u.secret && forall l :: LoginMid(u, l) ==> LoginMid(t, l)))
                && (t.secret == Some(p) ==> Storing(u) || u.secret == Some(p))
      decreases |LoginsMid(After(s, ev, c))|
    {
      var t := After(s, ev, c);
      var l :| l in LoginsMid(t);
      assert LoginMid(t, l) && LoginMid(u, l);
      ev := StoreNext(s, ev, l, c);
    }
    var t := After(s, ev, c);
    forall l ensures !LoginMid(t, l) {
      assert l !in LoginsMid(t);
    }
    assert forall a :: AgentMid(t, a) <==> AgentMid(u, a);
  }

  lemma StoreNext(s: State, ev: seq<Event>, l: nat, c: real) returns (fs: seq<Event>)
    requires OrderlyRun(s, ev, c) && LoginMid(After(s, ev, c), l)
    ensures OrderlyRun(s, fs, c)
    ensures var t, n := After(s, ev, c), After(s, fs, c);
            && n == t.(logins := t.logins - {l}, secret := Some(t.logins[l].pw))
            && (forall m :: LoginMid(n, m) <==> LoginMid(t, m) && m != l)
            && LoginsMid(n) < LoginsMid(t) && |LoginsMid(n)| < |LoginsMid(t)|
  {
    var t := After(s, ev, c);
    fs := Further(s, ev, WriteSecret(l), c);
    assert l in LoginsMid(t);
    assert LoginsMid(After(s, fs, c)) == LoginsMid(t) - {l};
  }

  /** All agents that are removing finish. */
  lemma FinishAgents(s: State, ev0: seq<Event>, c: real) returns (ev: seq<Event>)
    requires OrderlyRun(s, ev0, c)
    ensures OrderlyRun(s, ev, c)
    ensures var u, t := After(s, ev0, c), After(s, ev, c);
            && !Removing(t) && t.hash == u.hash && t.logins == u.logins && (Storing(t) <==> Storing(u))
            && t.secret == if Removing(u) then None else u.secret
  {
    var u := After(s, ev0, c);
    ev := ev0;
    while AgentsMid(After(s, ev, c)) != {}
      invariant OrderlyRun(s, ev, c)
      invariant var t := After(s, ev, c);
                && (forall a :: AgentMid(t, a) ==> AgentMid(u, a))
                && t.hash == u.hash && t.logins == u.logins
                && (t.secret == None || (t.secret == u.secret && forall a :: AgentMid(u, a) ==> AgentMid(t, a)))
                && (t.secret == None ==> Removing(u) || u.secret == None)
      decreases |AgentsMid(After(s, ev, c))|
    {
      var t := After(s, ev, c);
      var a :| a in AgentsMid(t);
      assert AgentMid(t, a) && AgentMid(u, a);
      ev := RemoveNext(s, ev, a, c);
    }
    var t := After(s, ev, c);
    forall a ensures !AgentMid(t, a) {
      assert a !in AgentsMid(t);
    }
    assert forall l :: LoginMid(t, l) <==> LoginMid(u, l);
  }

  lemma RemoveNext(s: State, ev: seq<Event>, a: nat, c: real) returns (fs: seq<Event>)
    requires OrderlyRun(s, ev, c) && AgentMid(After(s, ev, c), a)
    ensures OrderlyRun(s, fs, c)
    ensures var t, n := After(s, ev, c), After(s, fs, c);
            && n == t.(agents := t.agents[a := DropStamp], secret := None)
            && (forall b :: AgentMid(n, b) <==> AgentMid(t, b) && b != a)
            && |AgentsMid(n)| < |AgentsMid(t)|
  {
    var t := After(s, ev, c);
    fs := Further(s, ev, RemoveSecret(a), c);
    assert a in AgentsMid(t);
    assert AgentsMid(After(s, fs, c)) == AgentsMid(t) - {a};
  }

  /** A second password is stored across the first: the new one finishes, then the others. */
  lemma CrossedStores(s: State, l: nat, m: nat, c: real)
    requires Agreeing(s) && Enabled(s, WriteHash(l)) && LoginMid(s, m) && s.logins[m].pw != s.logins[l].pw
    ensures CanDisagree(Step(s, WriteHash(l), c), c)
  {
    var t := Step(s, WriteHash(l), c);
    MidNext(s, WriteHash(l), c);
    assert Removing(t) ==> Removing(s) by {
      if Removing(t) {
        var a :| AgentMid(t, a);
        assert AgentMid(s, a);
      }
    }
    assert s.hash == Some(s.logins[m].pw);
    assert OrderlyRun(t, [], c) && After(t, [], c) == t && LoginMid(t, l);
    var ev := StoreNext(t, [], l, c);
    assert LoginMid(After(t, ev, c), m);
    assert forall a :: AgentMid(After(t, ev, c), a) <==> AgentMid(t, a);
    ev := FinishLogins(t, ev, s.logins[m].pw, c);
    assert Apart(After(t, ev, c));
  }

  /** A password is stored across a removal: the login finishes, then the removal. */
  lemma StoreCrossesRemoval(s: State, l: nat, c: real)
    requires Agreeing(s) && Enabled(s, WriteHash(l)) && Removing(s)
    ensures CanDisagree(Step(s, WriteHash(l), c), c)
  {
    var t := Step(s, WriteHash(l), c);
    var p := s.logins[l].pw;
    MidNext(s, WriteHash(l), c);
    assert s.hash == None;
    var a :| AgentMid(s, a);
    assert AgentMid(t, a);
    assert OrderlyRun(t, [], c) && After(t, [], c) == t;
    forall m | LoginMid(t, m) ensures t.logins[m].pw == p {
      assert m != l ==> LoginMid(s, m);
    }
    var ev := FinishLogins(t, [], p, c);
    ev := FinishAgents(t, ev, c);
    assert Apart(After(t, ev, c));
  }

  /** A removal starts across a login that is storing: the removal finishes, then the login. */
  lemma RemovalCrossesStore(s: State, a: nat, c: real)
    requires Agreeing(s) && Enabled(s, RemoveHash(a)) && Storing(s)
    ensures CanDisagree(Step(s, RemoveHash(a), c), c)
  {
    var t := Step(s, RemoveHash(a), c);
    MidNext(s, RemoveHash(a), c);
    var l :| LoginMid(s, l);
    var p := s.logins[l].pw;
    assert OrderlyRun(t, [], c) && After(t, [], c) == t && LoginMid(t, l);
    var ev := FinishAgents(t, [], c);
    var u := After(t, ev, c);
    assert LoginMid(u, l);
    forall m | LoginMid(u, m) ensures u.logins[m].pw == p {
      assert LoginMid(s, m);
    }
    ev := FinishLogins(t, ev, p, c);
    assert Apart(After(t, ev, c));
  }

  /** The only one between the files is killed with the second file still to do. */
  lemma CutShort(s: State, e: Event, c: real)
    requires Agreeing(s) && Enabled(s, e) && (e.KillLogin? || e.KillAgent?) && !Orderly(s, e)
    ensures CanDisagree(Step(s, e, c), c)
  {
    var t := Step(s, e, c);
    MidNext(s, e, c);
    if e.KillLogin? {
      assert LoginMid(s, e.l);
    } else {
      assert AgentMid(s, e.a);
      assert forall l :: LoginMid(s, l) ==> s.hash != None;
    }
    assert Apart(t);
    assert OrderlyRun(t, [], c) && After(t, [], c) == t;
  }

  /** Exactly the steps that are not orderly open the way to different files. */
  lemma StepExact(s: State, e: Event, c: real)
    requires Agreeing(s) && Enabled(s, e)
    ensures Orderly(s, e) <==> !CanDisagree(Step(s, e, c), c)
  {
    if Orderly(s, e) {
      AgreeingStep(s, e, c);
      StaysTogether(Step(s, e, c), c);
    } else {
      hide CanDisagree, Agreeing;
      match e
      case WriteHash(l) =>
        if Removing(s) {
          StoreCrossesRemoval(s, l, c);
        } else {
          var m :| LoginMid(s, m) && s.logins[m].pw != s.logins[l].pw;
          CrossedStores(s, l, m, c);
        }
      case RemoveHash(a) => RemovalCrossesStore(s, a, c);
      case _ => CutShort(s, e, c);
    }
  }

  lemma StaysTogether(s: State, c: real)
    requires Agreeing(s)
    ensures !CanDisagree(s, c)
  {
    forall ev | OrderlyRun(s, ev, c) ensures !Apart(After(s, ev, c)) {
      AgreeingRun(s, ev, c);
    }
  }

  /** For every run: all its steps are orderly iff at no point of it different files are to
      be feared. */
  lemma {:induction false} RunExact(ev: seq<Event>, c: real)
    requires Runs(EMPTY, ev, c)
    ensures OrderlyRun(EMPTY, ev, c) <==> forall i :: 0 <= i <= |ev| ==> !CanDisagree(After(EMPTY, ev[..i], c), c)
  {
    hide CanDisagree, Agreeing, Orderly;
    EmptyAgrees();
    assert ev[..|ev|] == ev;
    if ev == [] {
      assert After(EMPTY, ev, c) == EMPTY;
      StaysTogether(EMPTY, c);
    } else {
      var n := |ev| - 1;
      var u, e := ev[..n], ev[n];
      assert forall i :: 0 <= i <= n ==> u[..i] == ev[..i];
      RunExact(u, c);
      if OrderlyRun(EMPTY, u, c) {
        AgreeingRun(EMPTY, u, c);
        StepExact(After(EMPTY, u, c), e, c);
      }
    }
  }

  /** If two logins store at once, the files can stay of different passwords when both are
      done: a run from the empty store. */
  lemma OverlapDisagrees(p: Password, q: Password, c: real) returns (ev: seq<Event>)
    requires p != q && c >= 0.0
    ensures Runs(EMPTY, ev, c)
    ensures var s := After(EMPTY, ev, c);
            s.logins == map[] && s.agents == map[] && s.hash == Some(q) && s.secret == Some(p)
  {
    assert Runs(EMPTY, [], c) && After(EMPTY, [], c) == EMPTY;
    hide Runs, After;
    ev := Extend(EMPTY, [], UniChange({p, q}), c);
    ev := LoginVouched(EMPTY, ev, 0, p, c, c);
    ev := LoginVouched(EMPTY, ev, 1, q, c + c, c);
    ev := Extend(EMPTY, ev, WriteHash(0), c);
    ev := Extend(EMPTY, ev, WriteHash(1), c);
    ev := Extend(EMPTY, ev, WriteSecret(1), c);
    ev := Extend(EMPTY, ev, WriteSecret(0), c);
    assert After(EMPTY, ev, c).logins == map[];
  }
}
