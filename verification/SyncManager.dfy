/** The dictionaries mail/idle.py updates in place: the lock table and the manager's list
    of watchers. */
module SyncManager {
  import opened SyncLocks

  /** Start a watcher for `u` unless the listed one is alive. */
  function Tended(s: State, u: User): State {
    if u in s.watchers && Alive(s, s.watchers[u]) then s
    else s.(threads := s.threads + [Thread(Watcher(u), Resting)], watchers := s.watchers[u := |s.threads|])
  }

  function Scanned(s: State, users: seq<User>): State {
    if users == [] then s else Tended(Scanned(s, users[..|users| - 1]), users[|users| - 1])
  }

  /** The manager's steps for one user, taken without interruption. */
  lemma TendedIsSteps(s: State, u: User)
    requires s.manager.Scanning? && WatchersKept(s)
    ensures WatchersKept(Tended(s, u))
    ensures var c := Step(s, Check(u));
            Tended(s, u) == if c.manager.Starting? then Step(Step(c, Spawn), Register) else c
  {
    hide WatchersKept;
    var c := Step(s, Check(u));
    WatchersStep(s, Check(u));
    if c.manager.Starting? {
      WatchersStep(c, Spawn);
      WatchersStep(Step(c, Spawn), Register);
    }
  }

  /** A scan leaves every listed user with a live watcher, and starts one only for listed
      users who had none; what was there stays. */
  lemma {:induction false} ScanExact(s: State, users: seq<User>)
    requires s.manager.Scanning? && WatchersKept(s)
    ensures var n := Scanned(s, users);
            && WatchersKept(n) && n.manager.Scanning? && s.threads <= n.threads
            && (forall u :: u in users ==> u in n.watchers && Watches(n, n.watchers[u], u))
            && (forall t, u :: |s.threads| <= t && Watches(n, t, u) ==> u in users && forall r :: !Watches(s, r, u))
  {
    if users != [] {
      var us, u := users[..|users| - 1], users[|users| - 1];
      ScanExact(s, us);
      TendedIsSteps(Scanned(s, us), u);
      TendedExact(s, Scanned(s, us), us, u);
      assert us + [u] == users;
    }
  }

  lemma TendedExact(s: State, m: State, us: seq<User>, u: User)
    requires m.manager.Scanning? && WatchersKept(m) && s.threads <= m.threads
    requires forall v :: v in us ==> v in m.watchers && Watches(m, m.watchers[v], v)
    requires forall t, v :: |s.threads| <= t && Watches(m, t, v) ==> v in us && forall r :: !Watches(s, r, v)
    ensures var n := Tended(m, u);
            && s.threads <= n.threads
            && (forall v :: v in us + [u] ==> v in n.watchers && Watches(n, n.watchers[v], v))
            && (forall t, v :: |s.threads| <= t && Watches(n, t, v) ==> v in us + [u] && forall r :: !Watches(s, r, v))
  {
    var n := Tended(m, u);
    if u in m.watchers && Alive(m, m.watchers[u]) {
      assert Watches(m, m.watchers[u], u);
    } else {
      forall r ensures !Watches(m, r, u) && !Watches(s, r, u) {
        assert Watches(s, r, u) ==> Watches(m, r, u);
      }
      forall t, v | Watches(n, t, v) ensures Watches(m, t, v) || (t == |m.threads| && v == u) {
      }
      forall t, v | Watches(m, t, v) ensures Watches(n, t, v) {
      }
    }
  }

  /** Scanning again changes nothing while the watchers live. */
  lemma {:induction false} ScanAgain(s: State, users: seq<User>, again: seq<User>)
    requires s.manager.Scanning? && WatchersKept(s) && forall u :: u in again ==> u in users
    ensures Scanned(Scanned(s, users), again) == Scanned(s, users)
  {
    ScanExact(s, users);
    if again != [] {
      ScanAgain(s, users, again[..|again| - 1]);
      assert again[|again| - 1] in users;
    }
  }

  class Idle {
    var locks: map<User, nat>
    var nextLock: nat
    var threads: seq<Thread>
    var watchers: map<User, nat>
    ghost var rest: State

    /** The machine's state; `rest` holds what these methods do not touch. */
    ghost function View(): State
      reads this
    {
      rest.(locks := locks, nextLock := nextLock, threads := threads, watchers := watchers)
    }

    constructor ()
      ensures View() == INITIAL
    {
      locks, nextLock, threads, watchers := map[], 0, [Thread(Periodic, Resting)], map[];
      rest := INITIAL;
    }

    /** `_user_lock` for the user thread `t` wants. */
    method UserLock(t: nat) returns (lk: nat)
      requires Enabled(View(), FetchLock(t))
      modifies this
      ensures View() == Step(old(View()), FetchLock(t))
      ensures View().threads[t].phase == Waiting(old(threads[t].phase.user), old(threads[t].phase.full), lk)
    {
      var p := threads[t].phase;
      if p.user !in locks {
        locks, nextLock := locks[p.user := nextLock], nextLock + 1;
      }
      lk := locks[p.user];
      threads := threads[t := threads[t].(phase := Waiting(p.user, p.full, lk))];
    }

    /** The manager looks at one user; nobody else moves meanwhile. */
    method Tend(user: User)
      requires View().manager.Scanning? && WatchersKept(View())
      modifies this
      ensures WatchersKept(View()) && View().manager.Scanning?
      ensures View() == Tended(old(View()), user)
    {
      assert user in watchers ==> WatcherOf(View(), watchers[user], user);
      hide WatchersKept;
      if user !in watchers || threads[watchers[user]].phase.Dead? {
        TendedIsSteps(View(), user);
        var t := |threads|;
        threads := threads + [Thread(Watcher(user), Resting)];
        watchers := watchers[user := t];
      }
    }

    /** One scan over the enrolled users. */
    method Rescan(enrolled: seq<User>)
      requires View().manager.Scanning? && WatchersKept(View())
      modifies this
      ensures View() == Scanned(old(View()), enrolled)
      ensures WatchersKept(View()) && View().manager.Scanning?
    {
      assert enrolled[..0] == [];
      for i := 0 to |enrolled|
        invariant View().manager.Scanning? && WatchersKept(View())
        invariant View() == Scanned(old(View()), enrolled[..i])
      {
        Tend(enrolled[i]);
        assert enrolled[..i + 1][..i] == enrolled[..i];
      }
      assert enrolled[..|enrolled|] == enrolled;
    }
  }
}
