/** Who may run mbsync when (mail/idle.py): watcher threads, the periodic thread and the
    manager that starts watchers, in every interleaving. */
module SyncLocks {

  import opened Common

  type User = string

  /** How far a thread has come inside `with _user_lock(email)`. A full sync makes two runs,
      an inbox sync only the first. */
  datatype Spot = Entered | FirstRun | AfterFirst | SecondRun | Finished

  datatype Phase =
    | Resting
    | Wanting(user: User, full: bool)
    | Waiting(user: User, full: bool, lk: nat)
    | Inside(user: User, full: bool, lk: nat, spot: Spot)
    | Dead

  datatype Role = Periodic | Watcher(of: User)

  datatype Thread = Thread(role: Role, phase: Phase)

  /** Where the manager is in its loop body. */
  datatype Manager = Scanning | Starting(user: User) | Started(user: User, t: nat)

  /** `locks` maps users to lock objects, `held` lock objects to the thread holding them;
      objects and threads are numbered in order of creation. */
  datatype State = State(
    locks: map<User, nat>, nextLock: nat, held: map<nat, nat>,
    threads: seq<Thread>, watchers: map<User, nat>, manager: Manager)

  const INITIAL := State(map[], 0, map[], [Thread(Periodic, Resting)], map[], Scanning)

  datatype Event =
    | Want(t: nat, user: User, full: bool)
    | FetchLock(t: nat)
    | Acquire(t: nat)
    | BeginFirst(t: nat)
    | EndFirst(t: nat)
    | BeginSecond(t: nat)
    | EndSecond(t: nat)
    | Release(t: nat)
    | Die(t: nat)
    | Check(user: User)
    | Spawn
    | Register

  /** `_locks.setdefault(email, threading.Lock())`, under the guard. */
  function WithLock(s: State, u: User): State {
    if u in s.locks then s else s.(locks := s.locks[u := s.nextLock], nextLock := s.nextLock + 1)
  }

  predicate At(s: State, t: nat, spot: Spot) {
    t < |s.threads| && s.threads[t].phase.Inside? && s.threads[t].phase.spot == spot
  }

  predicate Alive(s: State, t: nat) { t < |s.threads| && !s.threads[t].phase.Dead? }

  predicate Enabled(s: State, e: Event) {
    match e
    case Want(t, u, full) =>
      && t < |s.threads| && s.threads[t].phase.Resting?
      && (if s.threads[t].role.Periodic? then full else s.threads[t].role.of == u)
    case FetchLock(t) => t < |s.threads| && s.threads[t].phase.Wanting?
    case Acquire(t) => t < |s.threads| && s.threads[t].phase.Waiting? && s.threads[t].phase.lk !in s.held
    case BeginFirst(t) => At(s, t, Entered)
    case EndFirst(t) => At(s, t, FirstRun)
    case BeginSecond(t) => At(s, t, AfterFirst)
    case EndSecond(t) => At(s, t, SecondRun)
    case Release(t) => t < |s.threads| && s.threads[t].phase.Inside?
    case Die(t) => t < |s.threads| && s.threads[t].phase.Resting? && s.threads[t].role.Watcher?
    case Check(u) => s.manager.Scanning?
    case Spawn => s.manager.Starting?
    case Register => s.manager.Started?
  }

  function Go(s: State, t: nat, phase: Phase): State
    requires t < |s.threads|
  {
    s.(threads := s.threads[t := s.threads[t].(phase := phase)])
  }

  function Move(s: State, t: nat, spot: Spot): State
    requires t < |s.threads| && s.threads[t].phase.Inside?
  {
    Go(s, t, s.threads[t].phase.(spot := spot))
  }

  function Step(s: State, e: Event): State
    requires Enabled(s, e)
  {
    match e
    case Want(t, u, full) => Go(s, t, Wanting(u, full))
    case FetchLock(t) =>
      var p := s.threads[t].phase;
      var u := WithLock(s, p.user);
      Go(u, t, Waiting(p.user, p.full, u.locks[p.user]))
    case Acquire(t) =>
      var p := s.threads[t].phase;
      Go(s, t, Inside(p.user, p.full, p.lk, Entered)).(held := s.held[p.lk := t])
    case BeginFirst(t) => Move(s, t, FirstRun)
    case EndFirst(t) => Move(s, t, if s.threads[t].phase.full then AfterFirst else Finished)
    case BeginSecond(t) => Move(s, t, SecondRun)
    case EndSecond(t) => Move(s, t, Finished)
    case Release(t) => Go(s, t, Resting).(held := s.held - {s.threads[t].phase.lk})
    case Die(t) => Go(s, t, Dead)
    case Check(u) =>
      if u in s.watchers && Alive(s, s.watchers[u]) then s else s.(manager := Starting(u))
    case Spawn =>
      s.(threads := s.threads + [Thread(Watcher(s.manager.user), Resting)],
         manager := Started(s.manager.user, |s.threads|))
    case Register =>
      s.(watchers := s.watchers[s.manager.user := s.manager.t], manager := Scanning)
  }

  ghost predicate Runs(ev: seq<Event>) {
    ev == [] || (Runs(ev[..|ev| - 1]) && Enabled(After(ev[..|ev| - 1]), ev[|ev| - 1]))
  }

  ghost function After(ev: seq<Event>): State {
    if ev == [] then INITIAL
    else
      var u := After(ev[..|ev| - 1]);
      if Enabled(u, ev[|ev| - 1]) then Step(u, ev[|ev| - 1]) else u
  }

  // ---- One mbsync per user --------------------------------------------------------------------

  /** The thread runs mbsync for `u`. */
  predicate Syncing(s: State, t: nat, u: User) {
    (At(s, t, FirstRun) || At(s, t, SecondRun)) && s.threads[t].phase.user == u
  }

  predicate InsideFor(s: State, t: nat, u: User) {
    t < |s.threads| && s.threads[t].phase.Inside? && s.threads[t].phase.user == u
  }

  ghost predicate LocksKept(s: State) {
    && (forall u :: u in s.locks ==> s.locks[u] < s.nextLock)
    && (forall u, v :: u in s.locks && v in s.locks && s.locks[u] == s.locks[v] ==> u == v)
    && (forall t :: 0 <= t < |s.threads| ==> PhaseKept(s, t, s.threads[t].phase))
    && (forall lk :: lk in s.held ==> HeldBy(s, lk, s.held[lk]))
  }

  predicate HeldBy(s: State, lk: nat, t: nat) {
    t < |s.threads| && s.threads[t].phase.Inside? && s.threads[t].phase.lk == lk
  }

  predicate PhaseKept(s: State, t: nat, p: Phase) {
    match p
    case Waiting(u, full, lk) => u in s.locks && s.locks[u] == lk
    case Inside(u, full, lk, spot) => u in s.locks && s.locks[u] == lk && lk in s.held && s.held[lk] == t
    case _ => true
  }

  lemma LocksStep(s: State, e: Event)
    requires LocksKept(s) && Enabled(s, e)
    ensures LocksKept(Step(s, e))
  {
    var n := Step(s, e);
    forall t | 0 <= t < |n.threads| ensures PhaseKept(n, t, n.threads[t].phase) {
      PhaseStep(s, e, t);
    }
    forall lk | lk in n.held ensures HeldBy(n, lk, n.held[lk]) {
      HeldStep(s, e, lk);
    }
    LockTableStep(s, e);
  }

  /** The thread that acts. */
  predicate By(e: Event, t: nat) { !e.Check? && !e.Spawn? && !e.Register? && e.t == t }

  lemma Untouched(s: State, e: Event)
    requires Enabled(s, e)
    ensures var n := Step(s, e);
            && |s.threads| <= |n.threads|
            && (forall t :: 0 <= t < |s.threads| && !By(e, t) ==> n.threads[t] == s.threads[t])
            && (forall t :: |s.threads| <= t < |n.threads| ==> n.threads[t].phase.Resting?)
            && (forall u :: u in s.locks ==> u in n.locks && n.locks[u] == s.locks[u])
            && n.held == match e
               case Acquire(t) => s.held[s.threads[t].phase.lk := t]
               case Release(t) => s.held - {s.threads[t].phase.lk}
               case _ => s.held
  {
  }

  lemma OwnPhase(s: State, e: Event, t: nat)
    requires LocksKept(s) && Enabled(s, e) && By(e, t) && t < |s.threads|
    ensures t < |Step(s, e).threads| && PhaseKept(Step(s, e), t, Step(s, e).threads[t].phase)
    ensures !e.Release? && s.threads[t].phase.Inside? ==>
              Step(s, e).threads[t].phase.Inside? && Step(s, e).threads[t].phase.lk == s.threads[t].phase.lk
    ensures e.Acquire? ==> HeldBy(Step(s, e), s.threads[t].phase.lk, t)
  {
    assert PhaseKept(s, t, s.threads[t].phase);
    hide LocksKept;
  }

  lemma PhaseStep(s: State, e: Event, t: nat)
    requires LocksKept(s) && Enabled(s, e) && t < |Step(s, e).threads|
    ensures PhaseKept(Step(s, e), t, Step(s, e).threads[t].phase)
  {
    hide Step;
    Untouched(s, e);
    if t < |s.threads| {
      assert PhaseKept(s, t, s.threads[t].phase);
      if By(e, t) {
        OwnPhase(s, e, t);
      } else if e.Release? {
        assert PhaseKept(s, e.t, s.threads[e.t].phase);
      }
    }
  }

  lemma HeldStep(s: State, e: Event, lk: nat)
    requires LocksKept(s) && Enabled(s, e) && lk in Step(s, e).held
    ensures HeldBy(Step(s, e), lk, Step(s, e).held[lk])
  {
    hide Step;
    Untouched(s, e);
    if e.Acquire? && s.threads[e.t].phase.lk == lk {
      OwnPhase(s, e, e.t);
    } else {
      var t := s.held[lk];
      assert HeldBy(s, lk, t);
      if By(e, t) {
        OwnPhase(s, e, t);
      }
    }
  }

  lemma LockTableStep(s: State, e: Event)
    requires LocksKept(s) && Enabled(s, e)
    ensures forall u :: u in Step(s, e).locks ==> Step(s, e).locks[u] < Step(s, e).nextLock
    ensures forall u, v :: u in Step(s, e).locks && v in Step(s, e).locks && Step(s, e).locks[u] == Step(s, e).locks[v] ==> u == v
  {
    hide PhaseKept;
    assert Step(s, e).locks == s.locks || (e.FetchLock? && Step(s, e).locks == WithLock(s, s.threads[e.t].phase.user).locks);
  }

  lemma {:induction false} AlwaysKept(ev: seq<Event>)
    requires Runs(ev)
    ensures LocksKept(After(ev))
  {
    if ev != [] {
      AlwaysKept(ev[..|ev| - 1]);
      LocksStep(After(ev[..|ev| - 1]), ev[|ev| - 1]);
    }
  }

  lemma KeptExcludes(s: State, t: nat, r: nat, u: User)
    requires LocksKept(s) && InsideFor(s, t, u) && InsideFor(s, r, u)
    ensures t == r
  {
    assert PhaseKept(s, t, s.threads[t].phase);
    assert PhaseKept(s, r, s.threads[r].phase);
  }

  /** In every interleaving at most one thread is between lock and unlock for a user, so at
      most one mbsync runs per user. */
  lemma OneSyncPerUser(ev: seq<Event>, t: nat, r: nat, u: User)
    requires Runs(ev) && Syncing(After(ev), t, u) && Syncing(After(ev), r, u)
    ensures t == r
  {
    AlwaysKept(ev);
    KeptExcludes(After(ev), t, r, u);
  }

  /** A thread that waits for a user's lock can take it, or the thread that has it is
      inside for the same user and can leave: the locks never form a cycle. */
  lemma NoDeadlock(ev: seq<Event>, t: nat)
    requires Runs(ev) && t < |After(ev).threads| && After(ev).threads[t].phase.Waiting?
    ensures var s, p := After(ev), After(ev).threads[t].phase;
            || Enabled(s, Acquire(t))
            || (p.lk in s.held && Enabled(s, Release(s.held[p.lk])) && InsideFor(s, s.held[p.lk], p.user)
                && s.held[p.lk] != t)
  {
    AlwaysKept(ev);
    var s := After(ev);
    var p := s.threads[t].phase;
    assert PhaseKept(s, t, p);
    if p.lk in s.held {
      var r := s.held[p.lk];
      assert HeldBy(s, p.lk, r);
      assert PhaseKept(s, r, s.threads[r].phase);
    }
  }

  // ---- A full sync is never split ----------------------------------------------------------------

  /** Event `k` starts an mbsync for `u`. */
  ghost predicate Begins(ev: seq<Event>, k: nat, u: User)
    requires k < |ev|
  {
    (ev[k].BeginFirst? || ev[k].BeginSecond?) && InsideFor(After(ev[..k]), ev[k].t, u)
  }

  /** The thread's first run began at event `i`, and no other for this user since. */
  ghost predicate BegunAt(ev: seq<Event>, i: nat, t: nat, u: User) {
    && i < |ev| && ev[i] == BeginFirst(t) && InsideFor(After(ev[..i]), t, u)
    && forall k :: i < k < |ev| ==> !Begins(ev, k, u)
  }

  ghost predicate Midway(s: State, t: nat, u: User) {
    (At(s, t, FirstRun) || At(s, t, AfterFirst)) && s.threads[t].phase.user == u
  }

  lemma BegunLasts(ev: seq<Event>, e: Event, i: nat, t: nat, u: User)
    requires BegunAt(ev, i, t, u)
    requires (e.BeginFirst? || e.BeginSecond?) ==> !InsideFor(After(ev), e.t, u)
    ensures BegunAt(ev + [e], i, t, u)
  {
    var fs := ev + [e];
    assert fs[..|ev|] == ev;
    assert forall k :: 0 <= k < |ev| ==> fs[..k] == ev[..k];
    forall k | i < k < |fs| ensures !Begins(fs, k, u) {
      if k < |ev| {
        assert !Begins(ev, k, u);
      }
    }
  }

  lemma MidwayStep(s: State, e: Event, t: nat, u: User)
    requires Enabled(s, e) && Midway(Step(s, e), t, u)
    ensures if e == BeginFirst(t) then InsideFor(s, t, u) else Midway(s, t, u)
    ensures e != BeginSecond(t)
  {
  }

  lemma {:induction false} MidwayBegun(ev: seq<Event>, t: nat, u: User)
    requires Runs(ev) && Midway(After(ev), t, u)
    ensures exists i :: BegunAt(ev, i, t, u)
  {
    if ev != [] {
      var v, e := ev[..|ev| - 1], ev[|ev| - 1];
      var s := After(v);
      assert v + [e] == ev;
      MidwayStep(s, e, t, u);
      if e == BeginFirst(t) {
        assert BegunAt(ev, |v|, t, u);
      } else {
        MidwayBegun(v, t, u);
        var i :| BegunAt(v, i, t, u);
        AlwaysKept(v);
        if (e.BeginFirst? || e.BeginSecond?) && InsideFor(s, e.t, u) {
          KeptExcludes(s, e.t, t, u);
          assert false;
        }
        BegunLasts(v, e, i, t, u);
      }
    }
  }

  /** Whenever a full sync starts its second run, its own first run is the last one that
      was started for that user: no other run came between the two. */
  lemma FullSyncUnbroken(ev: seq<Event>, t: nat, u: User)
    requires Runs(ev) && Enabled(After(ev), BeginSecond(t)) && InsideFor(After(ev), t, u)
    ensures exists i :: BegunAt(ev, i, t, u)
  {
    MidwayBegun(ev, t, u);
  }

  // ---- How many runs a sync makes -------------------------------------------------------------------

  /** Runs of mbsync that thread `t` has finished since it last took a lock. */
  function RunsMade(ev: seq<Event>, t: nat): nat {
    if ev == [] then 0
    else
      var e := ev[|ev| - 1];
      if e == Acquire(t) then 0
      else RunsMade(ev[..|ev| - 1], t) + if e == EndFirst(t) || e == EndSecond(t) then 1 else 0
  }

  /** Runs finished by a thread that stands there. */
  predicate HasMade(p: Phase, n: nat)
    requires p.Inside?
  {
    match p.spot
    case Entered => n == 0
    case FirstRun => n == 0
    case AfterFirst => n == 1 && p.full
    case SecondRun => n == 1 && p.full
    case Finished => n == if p.full then 2 else 1
  }

  lemma MadeStep(s: State, e: Event, t: nat, n: nat)
    requires Enabled(s, e) && t < |Step(s, e).threads| && Step(s, e).threads[t].phase.Inside?
    requires e != Acquire(t) ==> t < |s.threads| && s.threads[t].phase.Inside? && HasMade(s.threads[t].phase, n)
    ensures HasMade(Step(s, e).threads[t].phase,
                    if e == Acquire(t) then 0 else n + if e == EndFirst(t) || e == EndSecond(t) then 1 else 0)
  {
  }

  lemma InsideBefore(s: State, e: Event, t: nat)
    requires Enabled(s, e) && t < |Step(s, e).threads| && Step(s, e).threads[t].phase.Inside? && e != Acquire(t)
    ensures t < |s.threads| && s.threads[t].phase.Inside?
  {
  }

  /** The sync thread `t` was last called for, as its call says. */
  function Asked(ev: seq<Event>, t: nat): Option<Event> {
    if ev == [] then None
    else
      var e := ev[|ev| - 1];
      if e.Want? && e.t == t then Some(e) else Asked(ev[..|ev| - 1], t)
  }

  /** The phase of a thread in the middle of that call. */
  predicate Serves(p: Phase, call: Option<Event>, t: nat) {
    !p.Resting? && !p.Dead? ==> call == Some(Want(t, p.user, p.full))
  }

  lemma ServesStep(s: State, e: Event, t: nat, call: Option<Event>)
    requires Enabled(s, e) && t < |Step(s, e).threads|
    requires t < |s.threads| ==> Serves(s.threads[t].phase, call, t)
    ensures Serves(Step(s, e).threads[t].phase, if e.Want? && e.t == t then Some(e) else call, t)
  {
  }

  lemma {:induction false} AlwaysServes(ev: seq<Event>, t: nat)
    requires Runs(ev) && t < |After(ev).threads|
    ensures Serves(After(ev).threads[t].phase, Asked(ev, t), t)
  {
    if ev != [] {
      var u, e := ev[..|ev| - 1], ev[|ev| - 1];
      if t < |After(u).threads| {
        AlwaysServes(u, t);
      }
      ServesStep(After(u), e, t, Asked(u, t));
    }
  }

  lemma {:induction false} RunsCounted(ev: seq<Event>, t: nat)
    requires Runs(ev) && t < |After(ev).threads| && After(ev).threads[t].phase.Inside?
    ensures HasMade(After(ev).threads[t].phase, RunsMade(ev, t))
  {
    if ev != [] {
      var u, e := ev[..|ev| - 1], ev[|ev| - 1];
      if e != Acquire(t) {
        InsideBefore(After(u), e, t);
        RunsCounted(u, t);
      }
      MadeStep(After(u), e, t, RunsMade(u, t));
    }
  }

  /** In every interleaving a thread that holds a lock is in the sync it was last called for.
      The sync is at its end exactly after two runs of mbsync when `sync_all_folders` was
      called and after a single one when `sync_inbox` was; only the former starts a second
      run, and only after its first. */
  lemma SyncComplete(ev: seq<Event>, t: nat)
    requires Runs(ev) && t < |After(ev).threads| && After(ev).threads[t].phase.Inside?
    ensures Asked(ev, t).Some? && Asked(ev, t).value.Want?
    ensures InsideFor(After(ev), t, Asked(ev, t).value.user)
    ensures At(After(ev), t, Finished) <==> RunsMade(ev, t) == if Asked(ev, t).value.full then 2 else 1
    ensures Enabled(After(ev), BeginSecond(t)) ==> Asked(ev, t).value.full && RunsMade(ev, t) == 1
  {
    AlwaysServes(ev, t);
    RunsCounted(ev, t);
  }

  lemma RoleStep(s: State, e: Event, t: nat)
    requires Enabled(s, e) && Alive(s, 0) && s.threads[0].role.Periodic?
    ensures Alive(Step(s, e), 0)
    ensures t < |Step(s, e).threads| ==>
              Step(s, e).threads[t].role == if t < |s.threads| then s.threads[t].role else Watcher(s.manager.user)
  {
  }

  /** Thread 0, started with the program, is the periodic one; every other is a watcher. */
  lemma {:induction false} RoleKept(ev: seq<Event>, t: nat)
    requires Runs(ev)
    ensures t < |After(ev).threads| ==> (After(ev).threads[t].role.Periodic? <==> t == 0)
    ensures Alive(After(ev), 0)
  {
    if ev != [] {
      var u := ev[..|ev| - 1];
      RoleKept(u, t);
      RoleKept(u, 0);
      RoleStep(After(u), ev[|ev| - 1], t);
      hide Step, Enabled;
    }
  }

  lemma {:induction false} WasEnabled(ev: seq<Event>, k: nat)
    requires Runs(ev) && k < |ev|
    ensures Runs(ev[..k]) && Enabled(After(ev[..k]), ev[k])
  {
    var u := ev[..|ev| - 1];
    if k < |u| {
      WasEnabled(u, k);
      assert u[..k] == ev[..k];
    }
  }

  /** Whatever the interleaving, the thread started with the program never ends and
      only calls for full syncs, of any user; each other thread is a watcher and syncs its own user only. */
  lemma CallsByRole(ev: seq<Event>, k: nat)
    requires Runs(ev) && k < |ev| && ev[k].Want?
    ensures Alive(After(ev), 0)
    ensures if ev[k].t == 0 then ev[k].full else WatcherOf(After(ev[..k]), ev[k].t, ev[k].user)
  {
    RoleKept(ev, 0);
    WasEnabled(ev, k);
    RoleKept(ev[..k], ev[k].t);
  }

  // ---- One watcher per user ------------------------------------------------------------------------

  predicate Watches(s: State, t: nat, u: User) { Alive(s, t) && s.threads[t].role == Watcher(u) }

  predicate WatcherOf(s: State, t: nat, u: User) { t < |s.threads| && s.threads[t].role == Watcher(u) }

  /** Every live watcher is the one on the manager's list, or the one it just started. */
  ghost predicate WatchersKept(s: State) {
    && (forall t, u :: Watches(s, t, u) ==>
          if s.manager.Started? && s.manager.user == u then t == s.manager.t
          else u in s.watchers && s.watchers[u] == t)
    && (s.manager.Starting? ==> forall t :: !Watches(s, t, s.manager.user))
    && (s.manager.Started? ==> WatcherOf(s, s.manager.t, s.manager.user))
    && (forall u :: u in s.watchers ==> WatcherOf(s, s.watchers[u], u))
  }

  lemma WatchesNext(s: State, e: Event)
    requires Enabled(s, e)
    ensures forall t, u :: Watches(Step(s, e), t, u) ==>
              Watches(s, t, u) || (e.Spawn? && t == |s.threads| && u == s.manager.user)
    ensures forall t, u :: WatcherOf(s, t, u) ==> WatcherOf(Step(s, e), t, u)
    ensures !e.Check? && !e.Spawn? && !e.Register? ==>
              Step(s, e).manager == s.manager && Step(s, e).watchers == s.watchers
  {
  }

  lemma WatchersStep(s: State, e: Event)
    requires WatchersKept(s) && Enabled(s, e)
    ensures WatchersKept(Step(s, e))
  {
    WatchesNext(s, e);
    match e
    case Check(u) =>
    case Spawn => SpawnStep(s);
    case Register =>
    case _ => hide Step, Watches, WatcherOf;
  }

  lemma SpawnStep(s: State)
    requires WatchersKept(s) && s.manager.Starting?
    ensures WatchersKept(Step(s, Spawn))
  {
    var n := Step(s, Spawn);
    WatchesNext(s, Spawn);
    forall t, u | Watches(n, t, u)
      ensures if u == s.manager.user then t == |s.threads| else u in s.watchers && s.watchers[u] == t
    {
      if Watches(s, t, u) {
        assert u != s.manager.user;
      }
    }
  }

  lemma {:induction false} WatchersAlways(ev: seq<Event>)
    requires Runs(ev)
    ensures WatchersKept(After(ev))
  {
    if ev != [] {
      WatchersAlways(ev[..|ev| - 1]);
      WatchersStep(After(ev[..|ev| - 1]), ev[|ev| - 1]);
    }
  }

  /** The manager never has two live watchers for one user. */
  lemma OneWatcherPerUser(ev: seq<Event>, t: nat, r: nat, u: User)
    requires Runs(ev) && Watches(After(ev), t, u) && Watches(After(ev), r, u)
    ensures t == r
  {
    WatchersAlways(ev);
  }
}
