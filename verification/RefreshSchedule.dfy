/** The refresh schedule of vpn/entrypoint.sh on a clock of 24-hour days: the wait for
    the next listed time, and the check that no wait reaches 24 hours. */
module RefreshSchedule {

  const DAY := 86400
  const MINUTES := 1440

  /** A well-formed HH:MM entry, in minutes after midnight. */
  type Minute = m: int | 0 <= m < MINUTES

  /** Seconds from midnight to a listed time. */
  function At(t: Minute): (x: int)
    ensures 0 <= x < DAY && x % 60 == 0
  {
    var m: int := t;
    60 * m
  }

  /** Second `x` is one of the listed times of its day. */
  ghost predicate Scheduled(times: seq<Minute>, x: int) {
    exists i :: 0 <= i < |times| && x % DAY == At(times[i])
  }

  /** Second `next` is the first listed time after `now`. */
  ghost predicate IsNext(times: seq<Minute>, now: int, next: int) {
    now < next && Scheduled(times, next) && forall x :: now < x < next ==> !Scheduled(times, x)
  }

  /** `date -d "today t"`, or tomorrow's when that is not after `now`. */
  function NextOccurrence(t: Minute, now: int): (next: int)
    ensures now < next <= now + DAY && next % DAY == At(t)
    ensures forall x :: now < x < next ==> x % DAY != At(t)
  {
    var midnight := now - now % DAY;
    if midnight + At(t) <= now then midnight + DAY + At(t) else midnight + At(t)
  }

  method SecondsUntilNextRefresh(times: seq<Minute>, now: int) returns (r: int)
    ensures times != [] ==> IsNext(times, now, now + r)
    ensures times == [] ==> r == 82800
  {
    var best := 0;
    for i := 0 to |times|
      invariant i > 0 ==> now < best && exists j :: 0 <= j < i && best % DAY == At(times[j])
      invariant i > 0 ==> forall j :: 0 <= j < i ==> NextOccurrence(times[j], now) >= best
    {
      var next := NextOccurrence(times[i], now);
      if i == 0 || next < best {
        best := next;
      }
    }
    if |times| == 0 {
      best := now + 82800;
    } else {
      forall x | now < x < best ensures !Scheduled(times, x) {
        forall j | 0 <= j < |times| ensures x % DAY != At(times[j]) {
          assert NextOccurrence(times[j], now) >= best;
        }
      }
    }
    return best - now;
  }

  // ---- The largest gap ------------------------------------------------------------

  ghost predicate Ascending(s: seq<Minute>) { forall i, j :: 0 <= i < j < |s| ==> s[i] <= s[j] }

  function Insert(m: Minute, s: seq<Minute>): seq<Minute> {
    if s == [] || m <= s[0] then [m] + s else [s[0]] + Insert(m, s[1..])
  }

  /** `sort -n` */
  function Sort(s: seq<Minute>): seq<Minute> {
    if s == [] then [] else Insert(s[0], Sort(s[1..]))
  }

  lemma {:induction false} InsertMembers(m: Minute, s: seq<Minute>)
    ensures multiset(Insert(m, s)) == multiset(s) + multiset{m}
  {
    if s == [] || m <= s[0] {
      assert multiset([m] + s) == multiset([m]) + multiset(s);
    } else {
      InsertMembers(m, s[1..]);
      assert s == [s[0]] + s[1..];
      assert multiset([s[0]] + s[1..]) == multiset([s[0]]) + multiset(s[1..]);
      assert multiset([s[0]] + Insert(m, s[1..])) == multiset([s[0]]) + multiset(Insert(m, s[1..]));
    }
  }

  lemma AscendingCons(x: Minute, s: seq<Minute>)
    requires Ascending(s) && forall t :: t in s ==> x <= t
    ensures Ascending([x] + s)
  {
    var r := [x] + s;
    forall i, j | 0 <= i < j < |r| ensures r[i] <= r[j] {
      assert r[j] == s[j - 1] && s[j - 1] in s;
    }
  }

  lemma {:induction false} InsertAscending(m: Minute, s: seq<Minute>)
    requires Ascending(s)
    ensures Ascending(Insert(m, s))
  {
    if s == [] || m <= s[0] {
      AscendingCons(m, s);
    } else {
      InsertAscending(m, s[1..]);
      InsertMembers(m, s[1..]);
      forall t | t in Insert(m, s[1..]) ensures s[0] <= t {
        assert t in multiset(Insert(m, s[1..]));
      }
      AscendingCons(s[0], Insert(m, s[1..]));
    }
  }

  lemma {:induction false} SortSorted(s: seq<Minute>)
    ensures Ascending(Sort(s)) && multiset(Sort(s)) == multiset(s) && |Sort(s)| == |s|
  {
    if s != [] {
      SortSorted(s[1..]);
      InsertAscending(s[0], Sort(s[1..]));
      InsertMembers(s[0], Sort(s[1..]));
      assert s == [s[0]] + s[1..];
      assert multiset([s[0]] + s[1..]) == multiset([s[0]]) + multiset(s[1..]);
    }
    assert |multiset(Sort(s))| == |multiset(s)|;
  }

  /** Minutes from each sorted time to the next; the last one wraps to the first. */
  function Gap(s: seq<Minute>, i: int): int
    requires 0 <= i < |s|
  {
    if i + 1 < |s| then s[i + 1] - s[i] else s[0] + MINUTES - s[i]
  }

  function GapSum(s: seq<Minute>, n: int): int
    requires 0 <= n <= |s|
  {
    if n == 0 then 0 else GapSum(s, n - 1) + Gap(s, n - 1)
  }

  ghost predicate IsMaxGap(s: seq<Minute>, g: int) {
    (exists i :: 0 <= i < |s| && g == Gap(s, i)) && forall i :: 0 <= i < |s| ==> Gap(s, i) <= g
  }

  method WarnIfScheduleUnsafe(times: seq<Minute>) returns (maxgap: int, warning: bool)
    ensures times != [] ==> IsMaxGap(Sort(times), maxgap)
    ensures warning <==> times == [] || maxgap >= MINUTES
  {
    var mins := Sort(times);
    SortSorted(times);
    maxgap := 0;
    for i := 0 to |mins|
      invariant maxgap == 0 || exists k :: 0 <= k < i - 1 && maxgap == Gap(mins, k)
      invariant maxgap >= 0 && forall k :: 0 <= k < i - 1 ==> Gap(mins, k) <= maxgap
    {
      if i > 0 {
        var g := mins[i] - mins[i - 1];
        assert g == Gap(mins, i - 1);
        if g > maxgap {
          maxgap := g;
        }
      }
    }
    if |mins| > 0 {
      var g := mins[0] + MINUTES - mins[|mins| - 1];
      assert g == Gap(mins, |mins| - 1);
      if g > maxgap {
        maxgap := g;
      }
    }
    warning := |mins| == 0 || maxgap >= MINUTES;
  }

  /** The gaps of a day add up to the day. */
  lemma {:induction false} GapsFillTheDay(s: seq<Minute>)
    requires s != []
    ensures GapSum(s, |s|) == MINUTES
  {
    GapSumTelescopes(s, |s| - 1);
  }

  lemma {:induction false} GapSumTelescopes(s: seq<Minute>, n: int)
    requires 0 <= n < |s|
    ensures GapSum(s, n) + s[0] == s[n]
  {
    if n > 0 {
      GapSumTelescopes(s, n - 1);
    }
  }

  lemma SameMembers(times: seq<Minute>)
    ensures forall t :: t in times <==> t in Sort(times)
  {
    SortSorted(times);
    assert forall t :: t in times <==> t in multiset(times);
  }

  /** The members of a schedule decide its waits, not their order. */
  lemma SameSchedule(times: seq<Minute>, x: int)
    ensures Scheduled(times, x) <==> Scheduled(Sort(times), x)
  {
    SameMembers(times);
    assert forall i :: 0 <= i < |times| ==> times[i] in Sort(times);
    assert forall i :: 0 <= i < |Sort(times)| ==> Sort(times)[i] in times;
  }

  lemma DayTime(now: int, x: int)
    requires 0 <= x < DAY
    ensures (now - now % DAY + x) % DAY == x && (now - now % DAY + DAY + x) % DAY == x
  {
  }

  /** Some listed time follows every instant within the largest gap. */
  lemma TimeWithinGap(s: seq<Minute>, g: int, now: int) returns (q: int)
    requires s != [] && Ascending(s) && IsMaxGap(s, g)
    ensures now < q <= now + 60 * g && Scheduled(s, q)
  {
    var sec := now % DAY;
    if At(s[|s| - 1]) <= sec {
      q := now - sec + DAY + At(s[0]);
      assert Gap(s, |s| - 1) <= g;
      DayTime(now, At(s[0]));
    } else {
      var i := 0;
      while At(s[i]) <= sec
        invariant 0 <= i < |s| && (i > 0 ==> At(s[i - 1]) <= sec)
        decreases |s| - i
      {
        i := i + 1;
      }
      q := now - sec + At(s[i]);
      assert Gap(s, if i == 0 then |s| - 1 else i - 1) <= g;
      DayTime(now, At(s[i]));
    }
  }

  /** At the start of a gap the wait is the whole gap. */
  lemma WaitAtGapStart(s: seq<Minute>, i: int)
    requires Ascending(s) && 0 <= i < |s| && Gap(s, i) > 0
    ensures IsNext(s, At(s[i]), At(s[i]) + 60 * Gap(s, i))
  {
    var now := At(s[i]);
    var next := now + 60 * Gap(s, i);
    var k := if i + 1 < |s| then i + 1 else 0;
    assert next % DAY == At(s[k]);
    forall x | now < x < next ensures !Scheduled(s, x) {
      forall j | 0 <= j < |s| ensures x % DAY != At(s[j]) {
        NothingInside(s, i, x, j);
      }
    }
  }

  lemma NothingInside(s: seq<Minute>, i: int, x: int, j: int)
    requires Ascending(s) && 0 <= i < |s| && 0 <= j < |s|
    requires At(s[i]) < x < At(s[i]) + 60 * Gap(s, i)
    ensures x % DAY != At(s[j])
  {
    if x < DAY {
      assert j <= i ==> s[j] <= s[i];
      assert j > i ==> s[i + 1] <= s[j];
    } else {
      assert s[0] <= s[j];
      assert x % DAY == x - DAY;
    }
  }

  lemma SortedNext(times: seq<Minute>, now: int, next: int)
    ensures IsNext(times, now, next) <==> IsNext(Sort(times), now, next)
  {
    hide Scheduled, Sort;
    forall x ensures Scheduled(times, x) <==> Scheduled(Sort(times), x) {
      SameSchedule(times, x);
    }
  }

  lemma WaitWithinGap(s: seq<Minute>, g: int, now: int, next: int)
    requires s != [] && Ascending(s) && IsMaxGap(s, g) && IsNext(s, now, next)
    ensures next - now <= 60 * g
  {
    hide Scheduled, Ascending, IsMaxGap;
    var q := TimeWithinGap(s, g, now);
  }

  /** The computed gap is exactly the worst wait: no instant waits longer, and some
      instant waits that long. */
  lemma MaxGapIsWorstWait(times: seq<Minute>, g: int)
    requires times != [] && IsMaxGap(Sort(times), g)
    ensures forall now, next :: IsNext(times, now, next) ==> next - now <= 60 * g
    ensures exists now, next :: IsNext(times, now, next) && next - now == 60 * g
  {
    var s := Sort(times);
    SortSorted(times);
    hide IsNext, Sort, Ascending;
    forall now, next | IsNext(times, now, next) ensures next - now <= 60 * g {
      SortedNext(times, now, next);
      WaitWithinGap(s, g, now, next);
    }
    assert Gap(s, |s| - 1) <= g;
    var i :| 0 <= i < |s| && g == Gap(s, i);
    WaitAtGapStart(s, i);
    SortedNext(times, At(s[i]), At(s[i]) + 60 * g);
  }

  /** The warning is silent exactly when two listed times differ. */
  lemma SilentIffTimesDiffer(times: seq<Minute>, g: int)
    requires times != [] && IsMaxGap(Sort(times), g)
    ensures g < MINUTES <==> exists t, u :: t in times && u in times && t != u
  {
    var s := Sort(times);
    var n := |s|;
    SortSorted(times);
    SameMembers(times);
    if s[0] == s[n - 1] {
      assert Gap(s, n - 1) == MINUTES;
      forall t | t in times ensures t == s[0] {
        var k :| 0 <= k < n && s[k] == t;
      }
    } else {
      assert s[0] in s && s[n - 1] in s;
      var i :| 0 <= i < n && g == Gap(s, i);
      GapBelowDay(s, i);
    }
  }

  lemma GapBelowDay(s: seq<Minute>, i: int)
    requires Ascending(s) && 0 <= i < |s| && s[0] != s[|s| - 1]
    ensures Gap(s, i) < MINUTES
  {
    assert s[0] <= s[|s| - 1];
  }
}
