/** The credential files of all users and the operations of mail/authcheck.py on them, and
    how often one user's logins reach the university. */
module CredentialStore {
  import opened Common
  import opened Credentials
  import Usernames

  /** One user's files. */
  datatype Files = Files(hash: Option<Password>, secret: Option<Password>, lastUni: Option<real>)

  const GONE := Files(None, None, None)

  /** `Temporary` is exit code 111: not a wrong password. */
  datatype Verdict = Admitted | Denied | Temporary

  datatype Outcome = Outcome(files: Files, verdict: Verdict, asked: bool)

  /** `authenticate`, with nobody else touching the files; `answer` is what the university
      says if asked. */
  function Attempt(f: Files, pw: Password, now: real, answer: Answer, cooldown: real): Outcome {
    if f.hash == Some(pw) then Outcome(f, Admitted, false)
    else if !CooledDown(f.lastUni, now, cooldown) then Outcome(f, Denied, false)
    else
      var g := f.(lastUni := Some(now));
      match answer
      case Accepts => Outcome(g.(hash := Some(pw), secret := Some(pw)), Admitted, true)
      case Rejects => Outcome(g, Denied, true)
      case Unreachable => Outcome(g, Temporary, true)
  }

  // ---- The store -----------------------------------------------------------------------------

  function Lookup<T>(m: map<string, T>, k: string): Option<T> { if k in m then Some(m[k]) else None }

  class CredStore {
    const cooldown: real

    var passhash: map<string, Password>
    var upass: map<string, Password>
    var lastUni: map<string, real>

    constructor (cooldown: real)
      ensures this.cooldown == cooldown && forall e :: Of(e) == GONE
    {
      this.cooldown := cooldown;
      passhash, upass, lastUni := map[], map[], map[];
    }

    function Of(email: string): Files
      reads this
    {
      Files(Lookup(passhash, email), Lookup(upass, email), Lookup(lastUni, email))
    }

    method IsEnrolled(email: string) returns (yes: bool)
      ensures yes <==> Of(email).hash.Some?
    {
      yes := email in passhash;
    }

    method VerifyLocal(email: string, pw: Password) returns (ok: bool)
      ensures ok <==> Of(email).hash == Some(pw)
    {
      if email !in passhash {
        return false;
      }
      ok := passhash[email] == pw;
    }

    method CooldownOk(email: string, now: real) returns (ok: bool)
      modifies `lastUni
      ensures ok <==> CooledDown(old(Of(email)).lastUni, now, cooldown)
      ensures Of(email) == if ok then old(Of(email)).(lastUni := Some(now)) else old(Of(email))
      ensures forall e :: e != email ==> Of(e) == old(Of(e))
    {
      var last := if email in lastUni then lastUni[email] else 0.0;
      if now - last < cooldown {
        return false;
      }
      lastUni := lastUni[email := now];
      ok := true;
    }

    method Enroll(email: string, pw: Password)
      modifies `passhash, `upass
      ensures Of(email) == old(Of(email)).(hash := Some(pw), secret := Some(pw))
      ensures forall e :: e != email ==> Of(e) == old(Of(e))
    {
      passhash := passhash[email := pw];
      upass := upass[email := pw];
    }

    method Deauth(email: string)
      modifies this
      ensures Of(email) == GONE
      ensures forall e :: e != email ==> Of(e) == old(Of(e))
    {
      passhash := passhash - {email};
      upass := upass - {email};
      lastUni := lastUni - {email};
    }

    method Authenticate(email: string, pw: Password, now: real, answer: Answer) returns (verdict: Verdict, ghost asked: bool)
      modifies this
      ensures Outcome(Of(email), verdict, asked) == Attempt(old(Of(email)), pw, now, answer, cooldown)
      ensures forall e :: e != email ==> Of(e) == old(Of(e))
    {
      asked := false;
      var enrolled := IsEnrolled(email);
      if enrolled {
        var same := VerifyLocal(email, pw);
        if same {
          return Admitted, false;
        }
      }
      var cooled := CooldownOk(email, now);
      if !cooled {
        return Denied, false;
      }
      match answer
      case Accepts =>
        Enroll(email, pw);
        return Admitted, true;
      case Rejects => return Denied, true;
      case Unreachable => return Temporary, true;
    }

    /** What Dovecot's login amounts to; `username` is as the client typed it. */
    method Login(username: string, pw: Password, now: real, answer: Answer) returns (verdict: Verdict)
      modifies this
      ensures var email := Usernames.Normalize(username);
              var o := Attempt(old(Of(email)), pw, now, answer, cooldown);
              if pw == "" || '@' !in email then verdict == Denied && forall e :: Of(e) == old(Of(e))
              else verdict == o.verdict && Of(email) == o.files && forall e :: e != email ==> Of(e) == old(Of(e))
    {
      var email := Usernames.Normalize(username);
      if pw == "" || '@' !in email {
        return Denied;
      }
      ghost var asked;
      verdict, asked := Authenticate(email, pw, now, answer);
    }

    /** The password a sync, a send or a watcher presents, and what a rejection does. */
    method Act(email: string, answer: Answer) returns (presented: Option<Password>)
      modifies this
      ensures presented == old(Of(email)).secret
      ensures Of(email) == if presented.Some? && answer.Rejects? then GONE else old(Of(email))
      ensures forall e :: e != email ==> Of(e) == old(Of(e))
    {
      if email !in upass {
        return None;
      }
      presented := Some(upass[email]);
      if answer.Rejects? {
        Deauth(email);
      }
    }
  }

  // ---- The same login, file by file --------------------------------------------------------------

  function FilesOf(s: State): Files { Files(s.hash, s.secret, s.lastUni) }

  ghost predicate Reaches(s: State, ev: seq<Event>, c: real, t: State) { Runs(s, ev, c) && After(s, ev, c) == t }

  lemma Further(s: State, ev: seq<Event>, c: real, u: State, e: Event) returns (fs: seq<Event>)
    requires Reaches(s, ev, c, u) && Enabled(u, e)
    ensures Reaches(s, fs, c, Step(u, e, c)) && fs == ev + [e]
  {
    fs := Extend(s, ev, e, c);
  }

  /** Up to the decision whether to ask the university. */
  lemma UntilCooldown(s: State, l: nat, pw: Password, now: real, c: real) returns (ev: seq<Event>)
    requires l !in s.logins && s.hash != Some(pw)
    ensures Reaches(s, ev, c, s.(logins := s.logins[l := Cooling(pw)])) && !AsksIn(ev)
  {
    var t := s.(logins := s.logins[l := Cooling(pw)]);
    assert Reaches(s, [], c, s);
    hide Reaches;
    ev := Further(s, [], c, s, Arrive(l, pw));
    var u := Step(s, Arrive(l, pw), c);
    ev := Further(s, ev, c, u, LookUp(l));
    u := Step(u, LookUp(l), c);
    if s.hash.Some? {
      ev := Further(s, ev, c, u, Compare(l));
      u := Step(u, Compare(l), c);
    }
    assert u == t;
  }

  ghost predicate AsksIn(ev: seq<Event>) { exists k :: 0 <= k < |ev| && ev[k].Contact? }

  /** `Attempt` is what the file-by-file login does when nobody interferes: some run ends
      with the process gone and the files as computed. Its last event says how it ended: a
      success report iff the verdict is Admitted, a university out of reach iff it is
      Temporary, the cooldown or a rejection iff it is Denied. The university is asked iff the
      password is not the stored one and the stamp, or 0 without one, is a cooldown old. */
  lemma AloneMatches(s: State, l: nat, pw: Password, now: real, answer: Answer, c: real)
    returns (ev: seq<Event>, last: Event)
    requires l !in s.logins && Possible(s.uni, pw, answer)
    ensures var o := Attempt(FilesOf(s), pw, now, answer, c);
            && Reaches(s, ev + [last], c, s.(hash := o.files.hash, secret := o.files.secret, lastUni := o.files.lastUni))
            && (Admits(After(s, ev, c), last, pw) <==> o.verdict.Admitted?)
            && (last == Contact(l, Unreachable) <==> o.verdict.Temporary?)
            && (last == ReadStamp(l, now) || last == Contact(l, Rejects) <==> o.verdict.Denied?)
            && (AsksIn(ev + [last]) <==> o.asked)
    ensures AsksIn(ev + [last]) <==>
              s.hash != Some(pw) && now >= c + match s.lastUni case Some(stamp) => stamp case None => 0.0
  {
    if s.hash == Some(pw) {
      ev, last := AloneStored(s, l, pw, c);
    } else {
      ev := UntilCooldown(s, l, pw, now, c);
      var u := s.(logins := s.logins[l := Cooling(pw)]);
      if !CooledDown(s.lastUni, now, c) {
        last := ReadStamp(l, now);
        AloneLast(s, ev, c, u, last, s);
      } else {
        ev, last := AloneAsked(s, ev, l, pw, now, answer, c);
      }
    }
  }

  lemma AloneLast(s: State, ev: seq<Event>, c: real, u: State, last: Event, t: State)
    requires Reaches(s, ev, c, u) && Enabled(u, last) && Step(u, last, c) == t
    ensures Reaches(s, ev + [last], c, t) && After(s, ev, c) == u
  {
    var fs := Further(s, ev, c, u, last);
  }

  lemma AloneStored(s: State, l: nat, pw: Password, c: real) returns (ev: seq<Event>, last: Event)
    requires l !in s.logins && s.hash == Some(pw)
    ensures Reaches(s, ev + [last], c, s) && Admits(After(s, ev, c), last, pw)
    ensures last == Compare(l) && !AsksIn(ev + [last])
  {
    assert Reaches(s, [], c, s);
    hide Reaches;
    ev := Further(s, [], c, s, Arrive(l, pw));
    var u := Step(s, Arrive(l, pw), c);
    ev := Further(s, ev, c, u, LookUp(l));
    u := Step(u, LookUp(l), c);
    last := Compare(l);
    assert Step(u, last, c) == s by {
      assert Step(u, last, c).logins == s.logins;
    }
    AloneLast(s, ev, c, u, last, s);
  }

  lemma AloneAsked(s: State, ev0: seq<Event>, l: nat, pw: Password, now: real, answer: Answer, c: real)
    returns (ev: seq<Event>, last: Event)
    requires l !in s.logins && Possible(s.uni, pw, answer) && CooledDown(s.lastUni, now, c)
    requires Reaches(s, ev0, c, s.(logins := s.logins[l := Cooling(pw)]))
    ensures var t := s.(lastUni := Some(now));
            && Reaches(s, ev + [last], c, if answer.Accepts? then t.(hash := Some(pw), secret := Some(pw)) else t)
            && (Admits(After(s, ev, c), last, pw) <==> answer.Accepts?)
            && last == (if answer.Accepts? then WriteSecret(l) else Contact(l, answer)) && AsksIn(ev + [last])
  {
    hide Reaches, After, Runs;
    var u := s.(logins := s.logins[l := Cooling(pw)]);
    ev := Further(s, ev0, c, u, ReadStamp(l, now));
    u := Step(u, ReadStamp(l, now), c);
    ev := Further(s, ev, c, u, WriteStamp(l));
    u := Step(u, WriteStamp(l), c);
    var t := s.(lastUni := Some(now));
    if answer.Accepts? {
      ev := Further(s, ev, c, u, Contact(l, answer));
      u := Step(u, Contact(l, answer), c);
      ev := Further(s, ev, c, u, WriteHash(l));
      u := Step(u, WriteHash(l), c);
      last := WriteSecret(l);
      t := t.(hash := Some(pw), secret := Some(pw));
    } else {
      last := Contact(l, answer);
    }
    assert Step(u, last, c) == t by {
      assert Step(u, last, c).logins == s.logins;
    }
    AloneLast(s, ev, c, u, last, t);
    AskedThen(ev, last, l, answer);
  }

  lemma AskedThen(ev: seq<Event>, last: Event, l: nat, answer: Answer)
    requires last == Contact(l, answer) || Contact(l, answer) in ev
    ensures AsksIn(ev + [last])
  {
    if last != Contact(l, answer) {
      var k :| 0 <= k < |ev| && ev[k] == Contact(l, answer);
      assert (ev + [last])[k].Contact?;
    } else {
      assert (ev + [last])[|ev|].Contact?;
    }
  }

  /** `Act` is what a sync, a send or a watcher does file by file when nobody interferes:
      nothing without a stored password, and the whole removal exactly after a rejection. */
  lemma AloneActs(s: State, a: nat, answer: Answer, c: real) returns (ev: seq<Event>)
    requires a !in s.agents && (s.secret.Some? ==> Possible(s.uni, s.secret.value, answer))
    ensures Reaches(s, ev, c,
                    if s.secret.Some? && answer.Rejects? then s.(hash := None, secret := None, lastUni := None) else s)
    ensures s.secret.Some? ==> Present(a, answer) in ev
  {
    assert Reaches(s, [], c, s);
    hide Reaches, After, Runs;
    ev := Further(s, [], c, s, ReadSecret(a));
    if s.secret.Some? {
      var u := Step(s, ReadSecret(a), c);
      ev := Further(s, ev, c, u, Present(a, answer));
      assert ev[|ev| - 1] == Present(a, answer);
      u := Step(u, Present(a, answer), c);
      if answer.Rejects? {
        ev := AloneDrops(s, ev, a, c);
      } else {
        assert u == s by {
          assert u.agents == s.agents;
        }
      }
    }
  }

  lemma AloneDrops(s: State, ev0: seq<Event>, a: nat, c: real) returns (ev: seq<Event>)
    requires a !in s.agents && Reaches(s, ev0, c, s.(agents := s.agents[a := DropHash]))
    ensures Reaches(s, ev, c, s.(hash := None, secret := None, lastUni := None)) && ev0 <= ev
  {
    hide Reaches, After, Runs;
    var u := s.(agents := s.agents[a := DropHash]);
    ev := Further(s, ev0, c, u, RemoveHash(a));
    u := Step(u, RemoveHash(a), c);
    ev := Further(s, ev, c, u, RemoveSecret(a));
    u := Step(u, RemoveSecret(a), c);
    ev := Further(s, ev, c, u, RemoveStamp(a));
    u := Step(u, RemoveStamp(a), c);
    assert u == s.(hash := None, secret := None, lastUni := None) by {
      assert u.agents == s.agents;
    }
  }

  // ---- How often the university is asked ------------------------------------------------------------

  /** One user's sequential operations: a login, or a `deauth`. */
  datatype Op = Try(pw: Password, now: real, answer: Answer) | Drop

  function Do(f: Files, op: Op, cooldown: real): Files {
    match op
    case Try(pw, now, answer) => Attempt(f, pw, now, answer, cooldown).files
    case Drop => GONE
  }

  function Before(f: Files, ops: seq<Op>, k: nat, cooldown: real): Files
    requires k <= |ops|
  {
    if k == 0 then f else Do(Before(f, ops, k - 1, cooldown), ops[k - 1], cooldown)
  }

  /** The university is asked at operation `k`. */
  predicate Asks(f: Files, ops: seq<Op>, k: nat, cooldown: real)
    requires k < |ops|
  {
    var op := ops[k];
    op.Try? && Attempt(Before(f, ops, k, cooldown), op.pw, op.now, op.answer, cooldown).asked
  }

  /** How often the university is asked in operations `i..j`. */
  function Checks(f: Files, ops: seq<Op>, i: nat, j: nat, cooldown: real): nat
    requires i <= j <= |ops|
  {
    if i == j then 0 else Checks(f, ops, i, j - 1, cooldown) + if Asks(f, ops, j - 1, cooldown) then 1 else 0
  }

  ghost predicate NoDrop(ops: seq<Op>, i: nat, j: nat)
    requires i <= j <= |ops|
  {
    forall k :: i <= k < j ==> !ops[k].Drop?
  }

  lemma Restamped(f: Files, op: Op, cooldown: real)
    requires op.Try?
    ensures var o := Attempt(f, op.pw, op.now, op.answer, cooldown);
            && o.files.lastUni == (if o.asked then Some(op.now) else f.lastUni)
            && (o.asked && f.lastUni.Some? ==> op.now - f.lastUni.value >= cooldown)
  {
  }

  /** The stamp on disk keeps up with the number of checks since `i`. */
  lemma {:induction false} StampAdvances(f: Files, ops: seq<Op>, i: nat, j: nat, cooldown: real)
    requires i < j <= |ops| && Asks(f, ops, i, cooldown) && NoDrop(ops, i, j)
    ensures Checks(f, ops, i, j, cooldown) >= 1
    ensures var last := Before(f, ops, j, cooldown).lastUni;
            last.Some? && last.value - ops[i].now >= Times(cooldown, Checks(f, ops, i, j, cooldown) - 1)
  {
    hide Attempt, Times;
    var g, op := Before(f, ops, j - 1, cooldown), ops[j - 1];
    Restamped(g, op, cooldown);
    if j == i + 1 {
      assert Checks(f, ops, i, i, cooldown) == 0;
      TimesMore(cooldown, 0);
    } else {
      StampAdvances(f, ops, i, j - 1, cooldown);
      if Asks(f, ops, j - 1, cooldown) {
        var n := Checks(f, ops, i, j - 1, cooldown);
        TimesMore(cooldown, n - 1);
      }
    }
  }

  /** Any two checks of one user with no `deauth` between them, and all the checks from one
      to the other: `n` checks take at least `n - 1` cooldowns by the clock stamps, whatever
      the passwords and answers and even if the clock steps back in between. */
  lemma ContactRate(f: Files, ops: seq<Op>, i: nat, j: nat, cooldown: real)
    requires i <= j < |ops| && Asks(f, ops, i, cooldown) && Asks(f, ops, j, cooldown) && NoDrop(ops, i, j)
    ensures ops[j].now - ops[i].now >= Times(cooldown, Checks(f, ops, i, j + 1, cooldown) - 1)
    ensures i < j && cooldown >= 0.0 ==> ops[j].now - ops[i].now >= cooldown
  {
    hide Attempt, Times;
    Restamped(Before(f, ops, j, cooldown), ops[j], cooldown);
    StampAdvances(f, ops, i, j + 1, cooldown);
    if i < j {
      StampAdvances(f, ops, i, j, cooldown);
      if cooldown >= 0.0 {
        TimesAtLeast(cooldown, Checks(f, ops, i, j, cooldown));
      }
    }
  }

  /** Login `k` is let in. */
  predicate LetsIn(f: Files, ops: seq<Op>, k: nat, cooldown: real)
    requires k < |ops|
  {
    var op := ops[k];
    op.Try? && Attempt(Before(f, ops, k, cooldown), op.pw, op.now, op.answer, cooldown).verdict.Admitted?
  }

  /** Operation `k` stores its password. */
  predicate Stores(f: Files, ops: seq<Op>, k: nat, cooldown: real)
    requires k < |ops|
  {
    Asks(f, ops, k, cooldown) && ops[k].answer.Accepts?
  }

  /** A try that stores nothing, while `pw` is stored. */
  lemma TryBeside(f: Files, op: Op, pw: Password, cooldown: real)
    requires f.hash == f.secret == Some(pw) && op.Try?
    requires var o := Attempt(f, op.pw, op.now, op.answer, cooldown); !(o.asked && op.answer.Accepts?)
    ensures var o := Attempt(f, op.pw, op.now, op.answer, cooldown);
            && o.files.hash == o.files.secret == Some(pw)
            && (o.verdict.Admitted? <==> op.pw == pw) && (op.pw == pw ==> !o.asked && o.files == f)
  {
  }

  lemma TryAfterDrop(pw: Password, now: real, cooldown: real)
    requires now >= cooldown
    ensures Attempt(GONE, pw, now, Accepts, cooldown) == Outcome(Files(Some(pw), Some(pw), Some(now)), Admitted, true)
  {
  }

  /** Operation `j - 1` comes after the return of the right password. */
  lemma NextAfterReturn(f: Files, ops: seq<Op>, j: nat, pw: Password, cooldown: real)
    requires 0 < j <= |ops| && ops[j - 1].Try? && !Stores(f, ops, j - 1, cooldown)
    requires Before(f, ops, j - 1, cooldown).hash == Before(f, ops, j - 1, cooldown).secret == Some(pw)
    ensures Before(f, ops, j, cooldown).hash == Before(f, ops, j, cooldown).secret == Some(pw)
    ensures LetsIn(f, ops, j - 1, cooldown) <==> ops[j - 1].pw == pw
    ensures ops[j - 1].pw == pw ==>
              !Asks(f, ops, j - 1, cooldown) && Before(f, ops, j, cooldown) == Before(f, ops, j - 1, cooldown)
  {
    hide Attempt;
    TryBeside(Before(f, ops, j - 1, cooldown), ops[j - 1], pw, cooldown);
  }

  lemma JustReturned(f: Files, ops: seq<Op>, k: nat, cooldown: real)
    requires k + 2 <= |ops| && ops[k].Drop?
    requires ops[k + 1].Try? && ops[k + 1].answer.Accepts? && ops[k + 1].now >= cooldown
    ensures LetsIn(f, ops, k + 1, cooldown) && Checks(f, ops, k + 1, k + 2, cooldown) == 1
    ensures var op := ops[k + 1];
            Before(f, ops, k + 2, cooldown) == Files(Some(op.pw), Some(op.pw), Some(op.now))
  {
    hide Attempt;
    assert Before(f, ops, k + 1, cooldown) == GONE;
    TryAfterDrop(ops[k + 1].pw, ops[k + 1].now, cooldown);
    assert Checks(f, ops, k + 1, k + 1, cooldown) == 0;
  }

  /** After a `deauth`, true or false alarm, the first login with a password the university
      accepts succeeds at once and restores both files. Until something else is stored or
      dropped they stay so, whatever else is tried, and a later login is let in iff it has
      that password, without asking. */
  lemma {:induction false} RightPasswordReturns(f: Files, ops: seq<Op>, k: nat, j: nat, cooldown: real)
    requires k + 1 < j <= |ops| && ops[k].Drop? && NoDrop(ops, k + 1, j)
    requires ops[k + 1].Try? && ops[k + 1].answer.Accepts? && ops[k + 1].now >= cooldown
    requires forall i :: k + 1 < i < j ==> !Stores(f, ops, i, cooldown)
    ensures LetsIn(f, ops, k + 1, cooldown)
    ensures Before(f, ops, j, cooldown).hash == Before(f, ops, j, cooldown).secret == Some(ops[k + 1].pw)
    ensures forall i :: k + 1 < i < j ==> (LetsIn(f, ops, i, cooldown) <==> ops[i].pw == ops[k + 1].pw)
    ensures forall i :: k + 1 < i < j && LetsIn(f, ops, i, cooldown) ==> !Asks(f, ops, i, cooldown)
    ensures (forall i :: k + 1 < i < j ==> ops[i].pw == ops[k + 1].pw) ==>
              && Before(f, ops, j, cooldown).lastUni == Some(ops[k + 1].now)
              && Checks(f, ops, k + 1, j, cooldown) == 1
  {
    hide Attempt, Before, LetsIn, Asks, Stores;
    if j > k + 2 {
      RightPasswordReturns(f, ops, k, j - 1, cooldown);
      NextAfterReturn(f, ops, j, ops[k + 1].pw, cooldown);
    } else {
      JustReturned(f, ops, k, cooldown);
    }
  }

  /** Without overlapping operations both files always hold the same password. */
  lemma {:induction false} BothFilesAgree(f: Files, ops: seq<Op>, k: nat, cooldown: real)
    requires k <= |ops| && f.hash == f.secret
    ensures Before(f, ops, k, cooldown).hash == Before(f, ops, k, cooldown).secret
  {
    if k > 0 {
      BothFilesAgree(f, ops, k - 1, cooldown);
    }
  }
}
