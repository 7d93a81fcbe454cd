/** The life of one user's stored credentials (mail/authcheck.py and the callers of
    `deauth`): logins, syncs, sends and watchers as processes that touch one file at a
    time, in any order, while the university changes its mind about passwords. The
    password hash and the encryption are ideal. */
module Credentials {
  import opened Common

  type Password = string

  datatype Answer = Accepts | Rejects | Unreachable

  /** Where a login process is in `authenticate`. */
  datatype Login =
    | Arrived(pw: Password)
    | Checking(pw: Password)
    | Cooling(pw: Password)
    | Stamping(pw: Password, now: real)
    | Contacting(pw: Password)
    | Vouched(pw: Password)
    | HashWritten(pw: Password)

  /** A sync, a send or a watcher: with the password it read, or in `deauth`. */
  datatype Agent = Holding(pw: Password) | DropHash | DropSecret | DropStamp

  datatype State = State(
    hash: Option<Password>, secret: Option<Password>, lastUni: Option<real>,
    uni: set<Password>, logins: map<nat, Login>, agents: map<nat, Agent>)

  const EMPTY := State(None, None, None, {}, map[], map[])

  datatype Event =
    | Arrive(l: nat, pw: Password)
    | LookUp(l: nat)
    | Compare(l: nat)
    | ReadStamp(l: nat, now: real)
    | WriteStamp(l: nat)
    | Contact(l: nat, answer: Answer)
    | WriteHash(l: nat)
    | WriteSecret(l: nat)
    | KillLogin(l: nat)
    | ReadSecret(a: nat)
    | Present(a: nat, answer: Answer)
    | RemoveHash(a: nat)
    | RemoveSecret(a: nat)
    | RemoveStamp(a: nat)
    | KillAgent(a: nat)
    | UniChange(accepted: set<Password>)

  /** `cooldown_ok`: a missing or unreadable stamp reads as 0. */
  predicate CooledDown(lastUni: Option<real>, now: real, cooldown: real) {
    now - (if lastUni.Some? then lastUni.value else 0.0) >= cooldown
  }

  /** The university may turn anyone away by mistake, but accepts only good passwords. */
  predicate Possible(uni: set<Password>, pw: Password, answer: Answer) { answer.Accepts? ==> pw in uni }

  predicate Enabled(s: State, e: Event) {
    match e
    case Arrive(l, pw) => l !in s.logins
    case LookUp(l) => l in s.logins && s.logins[l].Arrived?
    case Compare(l) => l in s.logins && s.logins[l].Checking?
    case ReadStamp(l, now) => l in s.logins && s.logins[l].Cooling?
    case WriteStamp(l) => l in s.logins && s.logins[l].Stamping?
    case Contact(l, answer) => l in s.logins && s.logins[l].Contacting? && Possible(s.uni, s.logins[l].pw, answer)
    case WriteHash(l) => l in s.logins && s.logins[l].Vouched?
    case WriteSecret(l) => l in s.logins && s.logins[l].HashWritten?
    case KillLogin(l) => l in s.logins
    case ReadSecret(a) => a !in s.agents
    case Present(a, answer) => a in s.agents && s.agents[a].Holding? && Possible(s.uni, s.agents[a].pw, answer)
    case RemoveHash(a) => a in s.agents && s.agents[a].DropHash?
    case RemoveSecret(a) => a in s.agents && s.agents[a].DropSecret?
    case RemoveStamp(a) => a in s.agents && s.agents[a].DropStamp?
    case KillAgent(a) => a in s.agents
    case UniChange(accepted) => true
  }

  function To(s: State, l: nat, login: Login): State { s.(logins := s.logins[l := login]) }

  function Leave(s: State, l: nat): State { s.(logins := s.logins - {l}) }

  function Turn(s: State, a: nat, agent: Agent): State { s.(agents := s.agents[a := agent]) }

  function Part(s: State, a: nat): State { s.(agents := s.agents - {a}) }

  function Step(s: State, e: Event, cooldown: real): State
    requires Enabled(s, e)
  {
    match e
    case Arrive(l, pw) => To(s, l, Arrived(pw))
    case LookUp(l) =>
      To(s, l, if s.hash.Some? then Checking(s.logins[l].pw) else Cooling(s.logins[l].pw))
    case Compare(l) =>
      if s.hash == Some(s.logins[l].pw) then Leave(s, l) else To(s, l, Cooling(s.logins[l].pw))
    case ReadStamp(l, now) =>
      if CooledDown(s.lastUni, now, cooldown) then To(s, l, Stamping(s.logins[l].pw, now)) else Leave(s, l)
    case WriteStamp(l) => To(s, l, Contacting(s.logins[l].pw)).(lastUni := Some(s.logins[l].now))
    case Contact(l, answer) => if answer.Accepts? then To(s, l, Vouched(s.logins[l].pw)) else Leave(s, l)
    case WriteHash(l) => To(s, l, HashWritten(s.logins[l].pw)).(hash := Some(s.logins[l].pw))
    case WriteSecret(l) => Leave(s, l).(secret := Some(s.logins[l].pw))
    case KillLogin(l) => Leave(s, l)
    case ReadSecret(a) => if s.secret.Some? then Turn(s, a, Holding(s.secret.value)) else s
    case Present(a, answer) => if answer.Rejects? then Turn(s, a, DropHash) else Part(s, a)
    case RemoveHash(a) => Turn(s, a, DropSecret).(hash := None)
    case RemoveSecret(a) => Turn(s, a, DropStamp).(secret := None)
    case RemoveStamp(a) => Part(s, a).(lastUni := None)
    case KillAgent(a) => Part(s, a)
    case UniChange(accepted) => s.(uni := accepted)
  }

  /** A login process reports success with this event. */
  predicate Admits(s: State, e: Event, pw: Password) {
    && Enabled(s, e)
    && ((e.Compare? && s.logins[e.l].pw == pw && s.hash == Some(pw))
        || (e.WriteSecret? && s.logins[e.l].pw == pw))
  }

  /** The university says yes to `pw` in a login. */
  predicate Vouches(s: State, e: Event, pw: Password) {
    Enabled(s, e) && e.Contact? && e.answer.Accepts? && s.logins[e.l].pw == pw
  }

  // ---- Runs ------------------------------------------------------------------------------

  ghost predicate Runs(s: State, ev: seq<Event>, c: real) {
    ev == [] || (Runs(s, ev[..|ev| - 1], c) && Enabled(After(s, ev[..|ev| - 1], c), ev[|ev| - 1]))
  }

  ghost function After(s: State, ev: seq<Event>, c: real): State {
    if ev == [] then s
    else
      var u := After(s, ev[..|ev| - 1], c);
      if Enabled(u, ev[|ev| - 1]) then Step(u, ev[|ev| - 1], c) else u
  }

  // ---- Whoever is let in was vouched for ----------------------------------------------------

  predicate Arrives(e: Event, l: nat) { e.Arrive? && e.l == l }

  /** The university accepted `pw` at event `j`, in the login process that is `l` now:
      no new one has taken over the number since. */
  ghost predicate VouchedAt(s: State, ev: seq<Event>, c: real, j: nat, l: nat, pw: Password) {
    && j < |ev| && ev[j].Contact? && ev[j].l == l && Vouches(After(s, ev[..j], c), ev[j], pw)
    && forall k :: j < k < |ev| ==> !Arrives(ev[k], l)
  }

  predicate TouchesHash(e: Event) { e.WriteHash? || e.RemoveHash? }

  /** Event `w` stored the hash of `pw`, after the university accepted it in the same login
      process at event `j`; the hash was not touched since. */
  ghost predicate EnrolledAt(s: State, ev: seq<Event>, c: real, j: nat, w: nat, pw: Password) {
    && w < |ev| && ev[w].WriteHash? && VouchedAt(s, ev[..w], c, j, ev[w].l, pw)
    && forall k :: w < k < |ev| ==> !TouchesHash(ev[k])
  }

  ghost predicate Founded(ev: seq<Event>, c: real) {
    var s := After(EMPTY, ev, c);
    && (forall l :: l in s.logins && (s.logins[l].Vouched? || s.logins[l].HashWritten?) ==>
          exists j :: VouchedAt(EMPTY, ev, c, j, l, s.logins[l].pw))
    && (s.hash.Some? ==> exists j, w :: EnrolledAt(EMPTY, ev, c, j, w, s.hash.value))
  }

  lemma VouchLasts(ev: seq<Event>, e: Event, c: real, j: nat, l: nat, pw: Password)
    requires VouchedAt(EMPTY, ev, c, j, l, pw) && !Arrives(e, l)
    ensures VouchedAt(EMPTY, ev + [e], c, j, l, pw)
  {
    assert (ev + [e])[..j] == ev[..j];
  }

  lemma EnrolLasts(ev: seq<Event>, e: Event, c: real, j: nat, w: nat, pw: Password)
    requires EnrolledAt(EMPTY, ev, c, j, w, pw) && !TouchesHash(e)
    ensures EnrolledAt(EMPTY, ev + [e], c, j, w, pw)
  {
    assert (ev + [e])[..w] == ev[..w];
  }

  lemma FoundedLogins(ev: seq<Event>, e: Event, c: real, l: nat)
    requires Founded(ev, c) && Enabled(After(EMPTY, ev, c), e)
    requires var t := Step(After(EMPTY, ev, c), e, c); l in t.logins && (t.logins[l].Vouched? || t.logins[l].HashWritten?)
    ensures exists j :: VouchedAt(EMPTY, ev + [e], c, j, l, Step(After(EMPTY, ev, c), e, c).logins[l].pw)
  {
    var s := After(EMPTY, ev, c);
    var pw := Step(s, e, c).logins[l].pw;
    if e.Contact? && e.l == l {
      assert (ev + [e])[..|ev|] == ev;
      assert VouchedAt(EMPTY, ev + [e], c, |ev|, l, pw);
    } else {
      assert l in s.logins && (s.logins[l].Vouched? || s.logins[l].HashWritten?) && s.logins[l].pw == pw;
      var j :| VouchedAt(EMPTY, ev, c, j, l, pw);
      VouchLasts(ev, e, c, j, l, pw);
    }
  }

  lemma FoundedHash(ev: seq<Event>, e: Event, c: real)
    requires Founded(ev, c) && Enabled(After(EMPTY, ev, c), e)
    requires Step(After(EMPTY, ev, c), e, c).hash.Some?
    ensures exists j, w :: EnrolledAt(EMPTY, ev + [e], c, j, w, Step(After(EMPTY, ev, c), e, c).hash.value)
  {
    var s := After(EMPTY, ev, c);
    var pw := Step(s, e, c).hash.value;
    if e.WriteHash? {
      var j :| VouchedAt(EMPTY, ev, c, j, e.l, pw);
      assert (ev + [e])[..|ev|] == ev;
      assert EnrolledAt(EMPTY, ev + [e], c, j, |ev|, pw);
    } else {
      assert s.hash == Some(pw) && !TouchesHash(e);
      var j, w :| EnrolledAt(EMPTY, ev, c, j, w, pw);
      EnrolLasts(ev, e, c, j, w, pw);
    }
  }

  lemma {:induction false} AlwaysFounded(ev: seq<Event>, c: real)
    requires Runs(EMPTY, ev, c)
    ensures Founded(ev, c)
  {
    if ev != [] {
      var u, e := ev[..|ev| - 1], ev[|ev| - 1];
      AlwaysFounded(u, c);
      assert u + [e] == ev;
      var t := After(EMPTY, ev, c);
      forall l | l in t.logins && (t.logins[l].Vouched? || t.logins[l].HashWritten?)
        ensures exists j :: VouchedAt(EMPTY, ev, c, j, l, t.logins[l].pw)
      {
        FoundedLogins(u, e, c, l);
      }
      if t.hash.Some? {
        FoundedHash(u, e, c);
      }
    }
  }

  /** In every interleaving, whoever is let in gave a password the university accepted:
      in this very login, or in the login that stored the hash still on disk. */
  lemma AdmittedWasVouched(ev: seq<Event>, c: real, e: Event, pw: Password)
    requires Runs(EMPTY, ev, c) && Admits(After(EMPTY, ev, c), e, pw)
    ensures if e.WriteSecret? then exists j :: VouchedAt(EMPTY, ev, c, j, e.l, pw)
            else exists j, w :: EnrolledAt(EMPTY, ev, c, j, w, pw)
  {
    AlwaysFounded(ev, c);
  }

  // ---- Only a rejection removes anything --------------------------------------------------------

  /** The university turned agent `a` away at event `j`, which it had not started anew since. */
  ghost predicate RejectedAt(ev: seq<Event>, j: nat, a: nat) {
    && j < |ev| && ev[j] == Present(a, Rejects)
    && forall k :: j < k < |ev| ==> ev[k] != ReadSecret(a)
  }

  predicate Dropping(s: State, a: nat) { a in s.agents && !s.agents[a].Holding? }

  lemma DroppingBefore(s: State, e: Event, a: nat, c: real)
    requires Enabled(s, e) && Dropping(Step(s, e, c), a) && e != Present(a, Rejects)
    ensures Dropping(s, a) && e != ReadSecret(a)
  {
  }

  /** In every interleaving, whoever removes a credential file was turned away by the
      university before: no other answer, and no failure to reach it, de-enrols anyone. */
  lemma {:induction false} OnlyRejectionDrops(ev: seq<Event>, c: real, a: nat)
    requires Runs(EMPTY, ev, c) && Dropping(After(EMPTY, ev, c), a)
    ensures exists j :: RejectedAt(ev, j, a)
  {
    assert ev != [];
    var u, e := ev[..|ev| - 1], ev[|ev| - 1];
    if e == Present(a, Rejects) {
      assert RejectedAt(ev, |u|, a);
    } else {
      DroppingBefore(After(EMPTY, u, c), e, a, c);
      OnlyRejectionDrops(u, c, a);
      var j :| RejectedAt(u, j, a);
      assert RejectedAt(ev, j, a);
    }
  }

  // ---- Who can get in without asking the university again -------------------------------------

  ghost predicate InFlight(s: State, pw: Password) {
    exists l :: l in s.logins && (s.logins[l] == Vouched(pw) || s.logins[l] == HashWritten(pw))
  }

  ghost predicate Exposed(s: State, pw: Password) { s.hash == Some(pw) || InFlight(s, pw) }

  /** Some run lets `pw` in although the university never vouches for it on the way. */
  ghost predicate PassesUnasked(s: State, pw: Password, c: real) {
    exists ev, e :: Unasked(s, ev, pw, c) && Admits(After(s, ev, c), e, pw)
  }

  ghost predicate Unasked(s: State, ev: seq<Event>, pw: Password, c: real) {
    Runs(s, ev, c) && forall i :: 0 <= i < |ev| ==> !Vouches(After(s, ev[..i], c), ev[i], pw)
  }

  lemma ShutOutStep(s: State, e: Event, pw: Password, c: real)
    requires !Exposed(s, pw) && Enabled(s, e) && !Vouches(s, e, pw)
    ensures !Exposed(Step(s, e, c), pw)
  {
    var t := Step(s, e, c);
    forall l | l in t.logins ensures t.logins[l] != Vouched(pw) && t.logins[l] != HashWritten(pw) {
      if l in s.logins {
        assert s.logins[l] != Vouched(pw) && s.logins[l] != HashWritten(pw);
      }
    }
  }

  lemma {:induction false} ShutOutStays(s: State, ev: seq<Event>, pw: Password, c: real)
    requires !Exposed(s, pw) && Unasked(s, ev, pw, c)
    ensures !Exposed(After(s, ev, c), pw)
  {
    if ev != [] {
      var u := ev[..|ev| - 1];
      assert forall i :: 0 <= i < |u| ==> u[..i] == ev[..i];
      ShutOutStays(s, u, pw, c);
      ShutOutStep(After(s, u, c), ev[|ev| - 1], pw, c);
    }
  }

  lemma Grow(s: State, ev: seq<Event>, e: Event, pw: Password, c: real)
    requires Unasked(s, ev, pw, c) && Enabled(After(s, ev, c), e) && !Vouches(After(s, ev, c), e, pw)
    ensures Unasked(s, ev + [e], pw, c) && After(s, ev + [e], c) == Step(After(s, ev, c), e, c)
  {
    var fs := ev + [e];
    assert fs[..|ev|] == ev;
    assert forall i :: 0 <= i < |ev| ==> fs[..i] == ev[..i];
  }

  lemma StoredPasses(s: State, pw: Password, c: real)
    requires s.hash == Some(pw)
    ensures PassesUnasked(s, pw, c)
  {
    var l := FreshId(s.logins.Keys);
    var e1, e2, e3 := Arrive(l, pw), LookUp(l), Compare(l);
    assert Unasked(s, [], pw, c);
    Grow(s, [], e1, pw, c);
    Grow(s, [] + [e1], e2, pw, c);
    assert Admits(After(s, [] + [e1] + [e2], c), e3, pw);
  }

  lemma InFlightPasses(s: State, pw: Password, c: real)
    requires InFlight(s, pw)
    ensures PassesUnasked(s, pw, c)
  {
    var l :| l in s.logins && (s.logins[l] == Vouched(pw) || s.logins[l] == HashWritten(pw));
    var e1, e2 := WriteHash(l), WriteSecret(l);
    assert Unasked(s, [], pw, c);
    if s.logins[l] == Vouched(pw) {
      Grow(s, [], e1, pw, c);
      assert Admits(After(s, [] + [e1], c), e2, pw);
    } else {
      assert Admits(After(s, [], c), e2, pw);
    }
  }

  /** A number no login uses yet. */
  lemma FreshId(used: set<nat>) returns (l: nat)
    ensures l !in used
  {
    l := 0;
    var below: set<nat> := {};
    while l in used
      invariant below <= used && (forall k: nat :: k in below <==> k < l)
      decreases |used - below|
    {
      assert l in used - below;
      assert used - (below + {l}) < used - below;
      Smaller(used - (below + {l}), used - below);
      below := below + {l};
      l := l + 1;
    }
  }

  lemma Smaller(a: set<nat>, b: set<nat>)
    requires a < b
    ensures |a| < |b|
  {
    var x :| x in b && x !in a;
    SubsetSize(a, b - {x});
  }

  lemma {:induction false} SubsetSize(a: set<nat>, b: set<nat>)
    requires a <= b
    ensures |a| <= |b|
    decreases a
  {
    if a != {} {
      var x :| x in a;
      SubsetSize(a - {x}, b - {x});
    }
  }

  lemma ShutOut(s: State, pw: Password, c: real)
    requires !Exposed(s, pw)
    ensures !PassesUnasked(s, pw, c)
  {
    hide Unasked, After, Step;
    forall ev, e | Unasked(s, ev, pw, c) ensures !Admits(After(s, ev, c), e, pw) {
      ShutOutStays(s, ev, pw, c);
    }
  }

  /** A password can get in without the university being asked about it again, iff its hash
      is stored or a login that was already vouched for has not finished storing it. */
  lemma UnaskedIff(s: State, pw: Password, c: real)
    ensures PassesUnasked(s, pw, c) <==> Exposed(s, pw)
  {
    hide PassesUnasked;
    if !Exposed(s, pw) {
      ShutOut(s, pw, c);
    } else if s.hash == Some(pw) {
      StoredPasses(s, pw, c);
    } else {
      InFlightPasses(s, pw, c);
    }
  }

  /** Once a rejected password's hash is removed it passes no login unless the university
      accepts it again, except when a login it was accepted for is still storing it. */
  lemma RejectedIsShutOut(s: State, a: nat, pw: Password, c: real)
    requires Enabled(s, RemoveHash(a))
    ensures PassesUnasked(Step(s, RemoveHash(a), c), pw, c) <==> InFlight(s, pw)
  {
    UnaskedIff(Step(s, RemoveHash(a), c), pw, c);
  }

  // ---- Runs that show what can happen ---------------------------------------------------------

  lemma Extend(s: State, ev: seq<Event>, e: Event, c: real) returns (fs: seq<Event>)
    requires Runs(s, ev, c) && Enabled(After(s, ev, c), e)
    ensures fs == ev + [e] && Runs(s, fs, c) && After(s, fs, c) == Step(After(s, ev, c), e, c)
  {
    fs := ev + [e];
    assert fs[..|ev|] == ev;
  }

  /** A new user's login, up to the university's yes. */
  lemma LoginVouched(s: State, ev: seq<Event>, l: nat, pw: Password, now: real, c: real) returns (fs: seq<Event>)
    requires Runs(s, ev, c)
    requires var u := After(s, ev, c);
             l !in u.logins && u.hash.None? && pw in u.uni && CooledDown(u.lastUni, now, c)
    ensures var u := After(s, ev, c);
            Runs(s, fs, c) && After(s, fs, c) == u.(lastUni := Some(now), logins := u.logins[l := Vouched(pw)])
  {
    hide Runs, After;
    ghost var u := After(s, ev, c);
    fs := Extend(s, ev, Arrive(l, pw), c);
    fs := Extend(s, fs, LookUp(l), c);
    fs := Extend(s, fs, ReadStamp(l, now), c);
    fs := Extend(s, fs, WriteStamp(l), c);
    fs := Extend(s, fs, Contact(l, Accepts), c);
    assert After(s, fs, c).logins == u.logins[l := Vouched(pw)];
  }

  /** The exception is real: from the empty store, a login accepted before the password
      changed is still storing it while a sync that was turned away removes the hash. */
  lemma RejectedStillPasses(p: Password, c: real) returns (ev: seq<Event>)
    requires c >= 0.0
    ensures Runs(EMPTY, ev, c)
    ensures var s := After(EMPTY, ev, c);
            && s.uni == {} && s.hash == Some(p) && Enabled(s, RemoveHash(0)) && InFlight(s, p)
            && PassesUnasked(Step(s, RemoveHash(0), c), p, c)
  {
    assert Runs(EMPTY, [], c) && After(EMPTY, [], c) == EMPTY;
    hide Runs, After, PassesUnasked;
    ev := Extend(EMPTY, [], UniChange({p}), c);
    ev := Extend(EMPTY, ev, Arrive(1, p), c);
    ev := Extend(EMPTY, ev, LookUp(1), c);
    ev := LoginVouched(EMPTY, ev, 0, p, c, c);
    ev := Extend(EMPTY, ev, WriteHash(0), c);
    ev := Extend(EMPTY, ev, WriteSecret(0), c);
    ev := Extend(EMPTY, ev, ReadSecret(0), c);
    ev := Extend(EMPTY, ev, ReadStamp(1, c + c), c);
    ev := Extend(EMPTY, ev, WriteStamp(1), c);
    ev := Extend(EMPTY, ev, Contact(1, Accepts), c);
    ev := Extend(EMPTY, ev, UniChange({}), c);
    ev := Extend(EMPTY, ev, Present(0, Rejects), c);
    var s := After(EMPTY, ev, c);
    assert s.logins[1] == Vouched(p);
    RejectedIsShutOut(s, 0, p, c);
  }
}
