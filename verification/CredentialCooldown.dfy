/** How often overlapping logins of one user reach the university (mail/authcheck.py). A
    stamp is written just before each check, so the stamps count the checks. */
module CredentialCooldown {
  import opened Common
  import opened Credentials

  /** The login has passed the cooldown test and not yet written its stamp. */
  ghost predicate InSection(s: State, l: nat) { l in s.logins && s.logins[l].Stamping? }

  /** A login passes the cooldown test while another is between its test and its stamp. */
  ghost predicate Overlaps(s: State, e: Event, c: real) {
    e.ReadStamp? && CooledDown(s.lastUni, e.now, c) && exists m :: m != e.l && InSection(s, m)
  }

  ghost predicate CalmRun(s: State, ev: seq<Event>, c: real) {
    ev == [] ||
    var u, e := ev[..|ev| - 1], ev[|ev| - 1];
    CalmRun(s, u, c) && Enabled(After(s, u, c), e) && !Overlaps(After(s, u, c), e, c)
  }

  /** The stamps written in a run since the last one that was removed. */
  ghost function Written(s: State, ev: seq<Event>, c: real): seq<real> {
    if ev == [] then []
    else
      var u, e := After(s, ev[..|ev| - 1], c), ev[|ev| - 1];
      var before := Written(s, ev[..|ev| - 1], c);
      if e.RemoveStamp? then []
      else if e.WriteStamp? && InSection(u, e.l) then before + [u.logins[e.l].now]
      else before
  }

  /** Each stamp is a full cooldown after the one before, so `n` of them take `n - 1`. */
  ghost predicate Spaced(st: seq<real>, c: real) {
    forall i, j :: 0 <= i < j < |st| ==> st[j] - st[i] >= Times(c, j - i)
  }

  /** Two checks less than a cooldown apart. */
  ghost predicate Crowded(st: seq<real>, c: real) {
    exists i, j :: 0 <= i < j < |st| && -c < st[j] - st[i] < c
  }

  // ---- Calm runs keep the distance ----------------------------------------------------------------

  ghost predicate Guarded(s: State, c: real) {
    && (forall l, m :: InSection(s, l) && InSection(s, m) ==> l == m)
    && (forall l :: InSection(s, l) && s.lastUni.Some? ==> s.logins[l].now - s.lastUni.value >= c)
  }

  lemma SectionNext(s: State, e: Event, c: real)
    requires Enabled(s, e)
    ensures var t := Step(s, e, c);
            && (forall l :: InSection(t, l) ==>
                  (InSection(s, l) && t.logins[l] == s.logins[l])
                  || (e.ReadStamp? && e.l == l && CooledDown(s.lastUni, e.now, c) && t.logins[l].now == e.now))
            && t.lastUni == (if e.WriteStamp? then Some(s.logins[e.l].now) else if e.RemoveStamp? then None else s.lastUni)
            && (e.WriteStamp? ==> InSection(s, e.l) && !InSection(t, e.l))
  {
  }

  lemma GuardedStep(s: State, e: Event, c: real)
    requires Guarded(s, c) && Enabled(s, e) && !Overlaps(s, e, c)
    ensures Guarded(Step(s, e, c), c)
  {
    SectionNext(s, e, c);
    hide Step, InSection;
  }

  lemma SpacedMore(st: seq<real>, x: real, c: real)
    requires Spaced(st, c) && (st != [] ==> x - st[|st| - 1] >= c)
    ensures Spaced(st + [x], c)
  {
    hide Times;
    var us, n := st + [x], |st|;
    forall i, j | 0 <= i < j < |us| ensures us[j] - us[i] >= Times(c, j - i) {
      if j == n {
        TimesMore(c, n - 1 - i);
        assert i < n - 1 ==> st[n - 1] - st[i] >= Times(c, n - 1 - i);
      } else {
        assert us[j] == st[j] && us[i] == st[i];
      }
    }
  }

  lemma SpacedNotCrowded(st: seq<real>, c: real)
    requires Spaced(st, c) && c > 0.0
    ensures !Crowded(st, c)
  {
    forall i, j | 0 <= i < j < |st| ensures st[j] - st[i] >= c {
      SpacedPair(st, c, i, j);
    }
  }

  lemma SpacedPair(st: seq<real>, c: real, i: nat, j: nat)
    requires Spaced(st, c) && c > 0.0 && i < j < |st|
    ensures st[j] - st[i] >= c
  {
    TimesAtLeast(c, j - i);
    hide Times;
  }

  lemma {:induction false} StampsSpaced(s: State, ev: seq<Event>, c: real)
    requires Guarded(s, c) && CalmRun(s, ev, c)
    ensures Guarded(After(s, ev, c), c) && Spaced(Written(s, ev, c), c)
    ensures var st := Written(s, ev, c); st != [] ==> After(s, ev, c).lastUni == Some(st[|st| - 1])
  {
    if ev != [] {
      hide Guarded, Overlaps, Step, Spaced, InSection;
      var u, e := ev[..|ev| - 1], ev[|ev| - 1];
      var m := After(s, u, c);
      StampsSpaced(s, u, c);
      GuardedStep(m, e, c);
      SectionNext(m, e, c);
      if e.WriteStamp? {
        GuardedAt(m, e.l, c);
        SpacedMore(Written(s, u, c), m.logins[e.l].now, c);
      } else {
        EmptySpaced(c);
      }
    } else {
      EmptySpaced(c);
    }
  }

  lemma GuardedAt(s: State, l: nat, c: real)
    requires Guarded(s, c) && InSection(s, l)
    ensures l in s.logins && s.logins[l].Stamping?
    ensures s.lastUni.Some? ==> s.logins[l].now - s.lastUni.value >= c
  {
  }

  lemma EmptySpaced(c: real)
    ensures Spaced([], c)
  {
  }

  lemma EmptyGuarded(c: real)
    ensures Guarded(EMPTY, c)
  {
  }

  /** In every interleaving in which no login is tested inside another's section, `n` checks
      without a de-enrolment between take at least `n - 1` cooldowns, even if the clock
      steps back. */
  lemma ChecksSpaced(ev: seq<Event>, c: real)
    requires CalmRun(EMPTY, ev, c)
    ensures Spaced(Written(EMPTY, ev, c), c)
  {
    EmptyGuarded(c);
    StampsSpaced(EMPTY, ev, c);
  }

  // ---- Every overlap can break it ---------------------------------------------------------------------

  /** Calm steps can lead on to two checks less than a cooldown apart. */
  ghost predicate CanCrowd(s: State, c: real) {
    exists ev :: CalmRun(s, ev, c) && Crowded(Written(s, ev, c), c)
  }

  lemma Further(s: State, ev: seq<Event>, e: Event, c: real) returns (fs: seq<Event>)
    requires CalmRun(s, ev, c) && Enabled(After(s, ev, c), e) && !Overlaps(After(s, ev, c), e, c)
    ensures fs == ev + [e] && CalmRun(s, fs, c) && After(s, fs, c) == Step(After(s, ev, c), e, c)
    ensures !e.RemoveStamp? && !e.WriteStamp? ==> Written(s, fs, c) == Written(s, ev, c)
    ensures e.WriteStamp? ==> Written(s, fs, c) == Written(s, ev, c) + [After(s, ev, c).logins[e.l].now]
  {
    fs := ev + [e];
    assert fs[..|ev|] == ev;
  }

  /** A login with a password that is not stored comes as far as its cooldown test. */
  lemma Newcomer(s: State, ev0: seq<Event>, c: real) returns (ev: seq<Event>, k: nat)
    requires CalmRun(s, ev0, c)
    ensures CalmRun(s, ev, c) && Written(s, ev, c) == Written(s, ev0, c)
    ensures var u, t := After(s, ev0, c), After(s, ev, c);
            && k !in u.logins && k in t.logins && t.logins[k].Cooling?
            && t.lastUni == u.lastUni && t.logins - {k} == u.logins
  {
    hide CalmRun, After, Written;
    var u := After(s, ev0, c);
    k := FreshId(u.logins.Keys);
    var pw := if u.hash == Some("") then "x" else "";
    ev := Further(s, ev0, Arrive(k, pw), c);
    ev := Further(s, ev, LookUp(k), c);
    if u.hash.Some? {
      ev := Further(s, ev, Compare(k), c);
    }
    assert After(s, ev, c).logins - {k} == u.logins;
  }

  /** Both are in their sections: `x` writes first, then `y` an older stamp; a third login,
      at the time of `x`, passes the test again. */
  lemma OlderStampReopens(s: State, x: nat, y: nat, c: real)
    requires x != y && InSection(s, x) && InSection(s, y)
    requires forall l :: InSection(s, l) ==> l == x || l == y
    requires s.logins[x].now - s.logins[y].now >= c > 0.0
    ensures CanCrowd(s, c)
  {
    var a, b := s.logins[x].now, s.logins[y].now;
    assert CalmRun(s, [], c) && After(s, [], c) == s && Written(s, [], c) == [];
    hide CalmRun, After, Written, CanCrowd;
    var ev := Further(s, [], WriteStamp(x), c);
    ev := Further(s, ev, WriteStamp(y), c);
    SectionNext(s, WriteStamp(x), c);
    SectionNext(Step(s, WriteStamp(x), c), WriteStamp(y), c);
    assert forall l :: !InSection(After(s, ev, c), l);
    ThirdPasses(s, ev, a, b, c);
  }

  lemma ThirdPasses(s: State, ev0: seq<Event>, a: real, b: real, c: real)
    requires CalmRun(s, ev0, c) && Written(s, ev0, c) == [a, b] && After(s, ev0, c).lastUni == Some(b)
    requires a - b >= c > 0.0 && forall l :: !InSection(After(s, ev0, c), l)
    ensures CanCrowd(s, c)
  {
    hide CalmRun, After, Written;
    var u := After(s, ev0, c);
    var ev, k := Newcomer(s, ev0, c);
    var t := After(s, ev, c);
    forall m | m != k ensures !InSection(t, m) {
      assert m in t.logins ==> m in t.logins - {k} && (t.logins - {k})[m] == t.logins[m];
      assert !InSection(u, m);
    }
    ev := Further(s, ev, ReadStamp(k, a), c);
    ev := Further(s, ev, WriteStamp(k), c);
    var st := Written(s, ev, c);
    assert st == [a, b, a] && st[2] - st[0] == 0.0;
    assert Crowded(st, c);
  }

  lemma TwoStamps(s: State, x: nat, y: nat, c: real)
    requires x != y && InSection(s, x) && InSection(s, y) && -c < s.logins[y].now - s.logins[x].now < c
    ensures CanCrowd(s, c)
  {
    assert CalmRun(s, [], c) && After(s, [], c) == s && Written(s, [], c) == [];
    var ev := Further(s, [], WriteStamp(x), c);
    ev := Further(s, ev, WriteStamp(y), c);
    var st := Written(s, ev, c);
    assert st == [s.logins[x].now, s.logins[y].now] && -c < st[1] - st[0] < c;
    assert Crowded(st, c);
  }

  lemma OverlapCrowds(s: State, l: nat, now: real, c: real)
    requires Guarded(s, c) && c > 0.0 && Enabled(s, ReadStamp(l, now)) && Overlaps(s, ReadStamp(l, now), c)
    ensures CanCrowd(Step(s, ReadStamp(l, now), c), c)
  {
    var t := Step(s, ReadStamp(l, now), c);
    var m :| m != l && InSection(s, m);
    SectionNext(s, ReadStamp(l, now), c);
    assert InSection(t, l) && InSection(t, m) && t.logins[m] == s.logins[m];
    hide Step, CanCrowd;
    var d := now - t.logins[m].now;
    if d >= c {
      OlderStampReopens(t, l, m, c);
    } else if -d >= c {
      OlderStampReopens(t, m, l, c);
    } else {
      TwoStamps(t, m, l, c);
    }
  }

  /** Exactly the overlapping tests open the way to two checks less than a cooldown apart. */
  lemma StepExact(s: State, e: Event, c: real)
    requires Guarded(s, c) && c > 0.0 && Enabled(s, e)
    ensures Overlaps(s, e, c) <==> CanCrowd(Step(s, e, c), c)
  {
    if Overlaps(s, e, c) {
      OverlapCrowds(s, e.l, e.now, c);
    } else {
      GuardedStep(s, e, c);
      StaysSpaced(Step(s, e, c), c);
    }
  }

  lemma StaysSpaced(s: State, c: real)
    requires Guarded(s, c) && c > 0.0
    ensures !CanCrowd(s, c)
  {
    hide Guarded, Spaced, Crowded;
    forall ev | CalmRun(s, ev, c) ensures !Crowded(Written(s, ev, c), c) {
      StampsSpaced(s, ev, c);
      SpacedNotCrowded(Written(s, ev, c), c);
    }
  }

  /** For every run: no login is tested inside another's section iff at no point of it two
      checks less than a cooldown apart are to be feared. */
  lemma {:induction false} RunExact(ev: seq<Event>, c: real)
    requires Runs(EMPTY, ev, c) && c > 0.0
    ensures CalmRun(EMPTY, ev, c) <==> forall i :: 0 <= i <= |ev| ==> !CanCrowd(After(EMPTY, ev[..i], c), c)
  {
    hide CanCrowd, Guarded, Overlaps;
    EmptyGuarded(c);
    assert ev[..|ev|] == ev;
    if ev == [] {
      assert After(EMPTY, ev, c) == EMPTY;
      StaysSpaced(EMPTY, c);
    } else {
      var n := |ev| - 1;
      var u, e := ev[..n], ev[n];
      assert forall i :: 0 <= i <= n ==> u[..i] == ev[..i];
      RunExact(u, c);
      if CalmRun(EMPTY, u, c) {
        StampsSpaced(EMPTY, u, c);
        StepExact(After(EMPTY, u, c), e, c);
      }
    }
  }

  /** The cooldown reads and writes its stamp separately: from the empty store two logins
      that overlap can both be let through to the university at the same instant. */
  lemma CooldownRace(p: Password, q: Password, now: real, c: real) returns (ev: seq<Event>)
    requires CooledDown(None, now, c)
    ensures Runs(EMPTY, ev, c)
    ensures After(EMPTY, ev, c).logins == map[0 := Contacting(p), 1 := Contacting(q)]
    ensures After(EMPTY, ev, c).lastUni == Some(now)
  {
    assert Runs(EMPTY, [], c) && After(EMPTY, [], c) == EMPTY;
    hide Runs, After;
    ev := Extend(EMPTY, [], Arrive(0, p), c);
    ev := Extend(EMPTY, ev, Arrive(1, q), c);
    ev := Extend(EMPTY, ev, LookUp(0), c);
    ev := Extend(EMPTY, ev, LookUp(1), c);
    ev := Extend(EMPTY, ev, ReadStamp(0, now), c);
    ev := Extend(EMPTY, ev, ReadStamp(1, now), c);
    ev := Extend(EMPTY, ev, WriteStamp(0), c);
    ev := Extend(EMPTY, ev, WriteStamp(1), c);
  }
}
