/** Finite sets of day numbers: the oldest, the newest `n`, and how many fit in a window. */
module DaySets {

  lemma SomeMember<T>(s: set<T>) returns (x: T)
    requires |s| > 0
    ensures x in s
  {
    x :| x in s;
  }

  ghost function Below(days: set<int>, x: int): set<int> { set e | e in days && e < x }

  /** Going down from `x` ends at a least member. */
  lemma {:induction false} LeastBelow(days: set<int>, x: int) returns (d: int)
    requires x in days
    ensures d in days && forall e :: e in days ==> d <= e
    decreases Below(days, x)
  {
    if y :| y in days && y < x {
      assert Below(days, y) <= Below(days, x) && y in Below(days, x) && y !in Below(days, y);
      d := LeastBelow(days, y);
    } else {
      d := x;
    }
  }

  lemma OldestExists(days: set<int>)
    requires |days| > 0
    ensures exists d :: d in days && forall e :: e in days ==> d <= e
  {
    var x := SomeMember(days);
    var d := LeastBelow(days, x);
  }

  ghost function Oldest(days: set<int>): (d: int)
    requires |days| > 0
    ensures d in days && forall e :: e in days ==> d <= e
  {
    OldestExists(days);
    var d :| d in days && forall e :: e in days ==> d <= e;
    d
  }

  /** The newest `n` of some days. */
  ghost function Newest(days: set<int>, n: nat): (r: set<int>)
    ensures r <= days && |r| <= n
    ensures |days| <= n ==> r == days
  {
    if |days| <= n then days else Newest(days - {Oldest(days)}, n)
  }

  /** Pruning keeps a newest part: full, and newer than everything dropped. */
  lemma {:induction false} NewestIsUpper(days: set<int>, n: nat)
    ensures forall d, k :: d in days && d !in Newest(days, n) && k in Newest(days, n) ==> d < k
    ensures Newest(days, n) != days ==> |Newest(days, n)| == n
  {
    if |days| > n {
      var o := Oldest(days);
      NewestIsUpper(days - {o}, n);
    }
  }

  /** At most `hi - lo + 1` days lie between `lo` and `hi`. */
  lemma {:induction false} DaysInWindow(days: set<int>, lo: int, hi: int)
    requires forall d :: d in days ==> lo <= d <= hi
    requires lo <= hi + 1
    ensures |days| <= hi - lo + 1
    decreases hi - lo + 1
  {
    if lo <= hi {
      var rest := days - {hi};
      DaysInWindow(rest, lo, hi - 1);
      assert days <= rest + {hi};
      assert |days| <= |rest| + 1;
    } else {
      if |days| > 0 {
        var d := SomeMember(days);
      }
    }
  }
}
