/** Shared result types and the few string operations the mail scripts lean on. */
module Common {

  datatype Option<+T> = None | Some(value: T)

  /** The exceptions the decoding code can raise. */
  datatype Error = BadBase64 | BadUtf16

  /** A value, or the Python exception raised instead of it. */
  datatype Result<+T> = Ok(value: T) | Err(error: Error) {
    predicate IsFailure() { Err? }

    function PropagateFailure<U>(): Result<U>
      requires Err?
    {
      Err(error)
    }

    function Extract(): T
      requires Ok?
    {
      value
    }
  }

  /** `n` times the length of time `c`. */
  function Times(c: real, n: int): real { c * n as real }

  lemma TimesMore(c: real, n: int)
    ensures Times(c, 0) == 0.0 && Times(c, n + 1) == Times(c, n) + c
  {
  }

  lemma {:induction false} TimesAtLeast(c: real, n: nat)
    requires c >= 0.0 && n >= 1
    ensures Times(c, n) >= c
  {
    if n > 1 {
      TimesAtLeast(c, n - 1);
      TimesMore(c, n - 1);
    }
  }

  /** `xs` in front of a successful result; an error stays an error. */
  function Prepend<T>(xs: seq<T>, r: Result<seq<T>>): Result<seq<T>> {
    match r
    case Ok(ys) => Ok(xs + ys)
    case Err(e) => Err(e)
  }

  lemma PrependAssociative<T>(xs: seq<T>, ys: seq<T>, r: Result<seq<T>>)
    ensures Prepend(xs, Prepend(ys, r)) == Prepend(xs + ys, r)
  {
    if r.Ok? {
      assert xs + (ys + r.value) == xs + ys + r.value;
    }
  }

  lemma PrependNothing<T>(r: Result<seq<T>>)
    ensures Prepend([], r) == r
  {
    if r.Ok? {
      assert [] + r.value == r.value;
    }
  }

  /** First index of `c` in `s`, as `str.find`. */
  function Find<T(==)>(s: seq<T>, c: T): (r: Option<nat>)
    ensures r.Some? ==> r.value < |s| && s[r.value] == c && c !in s[..r.value]
    ensures r.None? <==> c !in s
  {
    if s == [] then None
    else if s[0] == c then Some(0)
    else
      match Find(s[1..], c)
      case None => None
      case Some(k) => Some(k + 1)
  }

  lemma {:induction false} FindAfter<T>(a: seq<T>, c: T, b: seq<T>)
    requires c !in a
    ensures Find(a + [c] + b, c) == Some(|a|)
  {
    var s := a + [c] + b;
    if a != [] {
      assert s[1..] == a[1..] + [c] + b;
      FindAfter(a[1..], c, b);
    }
  }

  /** `s.replace(c, d)` for single characters. */
  function ReplaceChar(s: string, c: char, d: char): (r: string)
    ensures |r| == |s|
    ensures forall i :: 0 <= i < |s| ==> r[i] == if s[i] == c then d else s[i]
  {
    if s == "" then "" else [if s[0] == c then d else s[0]] + ReplaceChar(s[1..], c, d)
  }

  lemma ReplaceCharConcat(a: string, b: string, c: char, d: char)
    ensures ReplaceChar(a + b, c, d) == ReplaceChar(a, c, d) + ReplaceChar(b, c, d)
  {
  }

  lemma ReplaceCharAbsent(s: string, c: char, d: char)
    requires c !in s
    ensures ReplaceChar(s, c, d) == s
  {
  }
}
