/** Local identities and university logins (mail/authcheck.py), for ASCII names. */
module Usernames {

  const PREFIX := "bzedvz\\"

  predicate IsSpace(c: char) { c == ' ' || '\t' <= c <= '\r' || '\U{1C}' <= c <= '\U{1F}' }

  function LowerChar(c: char): char { if 'A' <= c <= 'Z' then (c as int + 32) as char else c }

  function Lower(s: string): (r: string)
    ensures |r| == |s| && forall i :: 0 <= i < |s| ==> r[i] == LowerChar(s[i])
  {
    if s == "" then "" else [LowerChar(s[0])] + Lower(s[1..])
  }

  function StripLeft(s: string): string { if s != "" && IsSpace(s[0]) then StripLeft(s[1..]) else s }

  function StripRight(s: string): string {
    if s != "" && IsSpace(s[|s| - 1]) then StripRight(s[..|s| - 1]) else s
  }

  /** Everything after the first backslash, or all of it. */
  function AfterBackslash(s: string): string { if '\\' in s then CutDomain(s) else s }

  function CutDomain(s: string): string
    requires '\\' in s
  {
    if s[0] == '\\' then s[1..] else CutDomain(s[1..])
  }

  function Normalize(username: string): string { Lower(AfterBackslash(StripRight(StripLeft(username)))) }

  function UpstreamUser(email: string): string { PREFIX + email }

  // ---- Laws -------------------------------------------------------------------------------

  predicate IsCapital(c: char) { 'A' <= c <= 'Z' }

  predicate IsLower(s: string) { forall i :: 0 <= i < |s| ==> !IsCapital(s[i]) }

  predicate IsBlank(s: string) { forall i :: 0 <= i < |s| ==> IsSpace(s[i]) }

  /** The ASCII characters that `str.strip` takes away, one by one. */
  lemma SpacesExact(c: char)
    ensures IsSpace(c) <==> c in " \t\n\r" || c == '\U{0B}' || c == '\U{0C}'
                            || c == '\U{1C}' || c == '\U{1D}' || c == '\U{1E}' || c == '\U{1F}'
  {
  }

  /** `small` is the small letter of the capital `c`. */
  predicate SmallOf(c: char, small: char) { IsCapital(c) && small as int - 'a' as int == c as int - 'A' as int }

  /** The names differ at most in the case of letters. */
  predicate SameLetters(s: string, t: string) {
    |s| == |t| && forall i :: 0 <= i < |s| ==> s[i] == t[i] || SmallOf(s[i], t[i]) || SmallOf(t[i], s[i])
  }

  predicate Trailing(s: string) { s != "" && IsSpace(s[|s| - 1]) }

  predicate Leading(s: string) { s != "" && IsSpace(s[0]) }

  lemma {:induction false} StripRightShorter(s: string)
    ensures |StripRight(s)| <= |s| && (StripRight(s) == s <==> !Trailing(s))
    ensures |StripRight(s)| < |s| <==> Trailing(s)
  {
    if Trailing(s) {
      StripRightShorter(s[..|s| - 1]);
    }
  }

  lemma {:induction false} StripLeftShorter(s: string)
    ensures |StripLeft(s)| <= |s| && (|StripLeft(s)| < |s| <==> Leading(s))
    ensures StripLeft(s) == s <==> !Leading(s)
  {
    if Leading(s) {
      StripLeftShorter(s[1..]);
    }
  }

  lemma {:induction false} CutAfter(d: string, s: string)
    requires '\\' !in d
    ensures '\\' in d + ['\\'] + s && CutDomain(d + ['\\'] + s) == s
  {
    var t := d + ['\\'] + s;
    assert t[|d|] == '\\';
    if d == "" {
      assert t[1..] == s;
    } else {
      assert t[0] == d[0] && t[1..] == d[1..] + ['\\'] + s;
      CutAfter(d[1..], s);
    }
  }

  lemma {:induction false} StripRightBehind(d: string, s: string)
    requires !Trailing(d)
    ensures StripRight(d + s) == d + StripRight(s)
  {
    if s == "" {
      assert d + s == d;
      StripRightShorter(d);
    } else if Trailing(s) {
      assert (d + s)[..|d + s| - 1] == d + s[..|s| - 1];
      StripRightBehind(d, s[..|s| - 1]);
    }
  }

  /** Stripping in front keeps everything from the first backslash on. */
  lemma {:induction false} StripLeftBefore(d: string, s: string) returns (rest: string)
    requires '\\' !in d
    ensures '\\' !in rest && StripLeft(d + ['\\'] + s) == rest + ['\\'] + s
  {
    var t := d + ['\\'] + s;
    if d != "" && IsSpace(d[0]) {
      assert t[1..] == d[1..] + ['\\'] + s;
      rest := StripLeftBefore(d[1..], s);
    } else {
      rest := d;
    }
  }

  lemma {:induction false} StripsCommute(s: string)
    ensures StripRight(StripLeft(s)) == StripLeft(StripRight(s))
  {
    if Leading(s) {
      var t := s[1..];
      StripsCommute(t);
      assert s == [s[0]] + t;
      SpaceBefore(s[0], t);
      assert ([s[0]] + StripRight(t))[1..] == StripRight(t);
    } else if s != "" {
      StripRightFirst(s);
    }
  }

  lemma {:induction false} StripRightFirst(s: string)
    requires s != "" && !IsSpace(s[0])
    ensures StripRight(s) != "" && StripRight(s)[0] == s[0]
  {
    if Trailing(s) {
      StripRightFirst(s[..|s| - 1]);
    }
  }

  /** A space in front goes with the rest or stays in front of what is left. */
  lemma {:induction false} SpaceBefore(c: char, t: string)
    requires IsSpace(c)
    ensures StripRight([c] + t) == if StripRight(t) == "" then "" else [c] + StripRight(t)
  {
    var s := [c] + t;
    if t == "" {
      assert s[..0] == "";
    } else if Trailing(t) {
      assert s[..|s| - 1] == [c] + t[..|t| - 1];
      SpaceBefore(c, t[..|t| - 1]);
    }
  }

  lemma {:induction false} CutShorter(s: string)
    requires '\\' in s
    ensures |CutDomain(s)| < |s|
  {
    if s[0] != '\\' {
      CutShorter(s[1..]);
    }
  }

  lemma {:induction false} StripLeftKeeps(s: string, c: char)
    requires !IsSpace(c)
    ensures c in StripLeft(s) <==> c in s
  {
    if Leading(s) {
      StripLeftKeeps(s[1..], c);
    }
  }

  /** "DOMAIN\name" and "name" are the same local identity iff what is left of the name
      after stripping behind has no backslash and no space in front. */
  lemma BothFormsAgree(domain: string, name: string)
    requires '\\' !in domain
    ensures var n := StripRight(name);
            Normalize(domain + ['\\'] + name) == Normalize(name) <==> '\\' !in n && !Leading(n)
  {
    var n := StripRight(name);
    var rest := StripLeftBefore(domain, name);
    StripRightBehind(rest + ['\\'], name);
    CutAfter(rest, n);
    assert Normalize(domain + ['\\'] + name) == Lower(n);
    StripsCommute(name);
    StripLeftShorter(n);
    StripLeftKeeps(n, '\\');
    var x := StripLeft(n);
    assert Normalize(name) == Lower(AfterBackslash(x));
    if '\\' in x {
      CutShorter(x);
    }
  }

  lemma SameLettersItself(s: string)
    ensures SameLetters(s, s)
  {
  }

  /** A local identity survives the detour over the university's form iff it is lower case
      without trailing space. */
  lemma UpstreamRoundTrip(email: string)
    ensures Normalize(UpstreamUser(email)) == email <==> IsLower(email) && !Trailing(email)
  {
    var d := "bzedvz";
    assert PREFIX == d + ['\\'];
    StripLeftShorter(UpstreamUser(email));
    StripRightBehind(PREFIX, email);
    CutAfter(d, StripRight(email));
    StripRightShorter(email);
    assert Normalize(UpstreamUser(email)) == Lower(StripRight(email));
    LowerExact(StripRight(email), email);
    SameLettersItself(email);
  }

  // ---- One account per person ---------------------------------------------------------------

  lemma {:induction false} SameLettersAt(s: string, t: string, c: char)
    requires SameLetters(s, t) && (IsSpace(c) || c == '\\')
    ensures c in s <==> c in t
    ensures forall i :: 0 <= i < |s| ==> (s[i] == c <==> t[i] == c)
  {
    forall i | 0 <= i < |s| ensures s[i] == c <==> t[i] == c {
    }
    if c in s {
      var i :| 0 <= i < |s| && s[i] == c;
      assert t[i] == c;
    }
    if c in t {
      var i :| 0 <= i < |t| && t[i] == c;
      assert s[i] == c;
    }
  }

  lemma {:induction false} SameLettersStripLeft(s: string, t: string)
    requires SameLetters(s, t)
    ensures SameLetters(StripLeft(s), StripLeft(t))
  {
    if Leading(s) {
      SameLettersStripLeft(s[1..], t[1..]);
    }
  }

  lemma {:induction false} SameLettersStripRight(s: string, t: string)
    requires SameLetters(s, t)
    ensures SameLetters(StripRight(s), StripRight(t))
  {
    if Trailing(s) {
      SameLettersStripRight(s[..|s| - 1], t[..|t| - 1]);
    }
  }

  lemma {:induction false} SameLettersCut(s: string, t: string)
    requires SameLetters(s, t) && '\\' in s && '\\' in t
    ensures SameLetters(CutDomain(s), CutDomain(t))
  {
    if s[0] != '\\' {
      SameLettersCut(s[1..], t[1..]);
    }
  }

  /** The small form is determined by being small and having the same letters. */
  lemma LowerExact(s: string, r: string)
    ensures Lower(s) == r <==> SameLetters(s, r) && IsLower(r)
  {
    if SameLetters(s, r) && IsLower(r) {
      forall i | 0 <= i < |s| ensures Lower(s)[i] == r[i] {
      }
    }
  }

  lemma SmallChar(c: char, d: char)
    requires c == d || SmallOf(c, d) || SmallOf(d, c)
    ensures LowerChar(c) == LowerChar(d)
  {
  }

  lemma SmallForms(s: string, t: string)
    requires SameLetters(s, t)
    ensures Lower(s) == Lower(t)
  {
    hide Lower, LowerChar, SmallOf;
    forall i | 0 <= i < |s| ensures Lower(s)[i] == Lower(t)[i] {
      SmallChar(s[i], t[i]);
    }
  }

  lemma {:induction false} BlankBefore(w: string, u: string)
    requires IsBlank(w)
    ensures StripLeft(w + u) == StripLeft(u)
  {
    if w == "" {
      assert w + u == u;
    } else {
      assert (w + u)[0] == w[0] && (w + u)[1..] == w[1..] + u;
      BlankBefore(w[1..], u);
    }
  }

  lemma {:induction false} BlankBehind(u: string, w: string)
    requires IsBlank(w)
    ensures StripRight(u + w) == StripRight(u)
  {
    if w == "" {
      assert u + w == u;
    } else {
      var n := |w| - 1;
      assert (u + w)[|u| + n] == w[n] && (u + w)[..|u| + n] == u + w[..n];
      BlankBehind(u, w[..n]);
    }
  }

  /** An identity has no capital letter; apart from that it keeps what the stripped name
      has behind its first backslash. */
  lemma IdentityExact(username: string)
    ensures var typed := AfterBackslash(StripRight(StripLeft(username)));
            IsLower(Normalize(username)) && SameLetters(typed, Normalize(username))
  {
    LowerExact(AfterBackslash(StripRight(StripLeft(username))), Normalize(username));
  }

  /** However the same name is typed, with blanks around it or capitals in it, it is one
      identity. */
  lemma OneIdentity(u: string, v: string, before: string, behind: string)
    requires SameLetters(u, v) && IsBlank(before) && IsBlank(behind)
    ensures Normalize(before + u + behind) == Normalize(v)
  {
    assert before + u + behind == before + (u + behind);
    BlankBefore(before, u + behind);
    StripsCommute(u + behind);
    BlankBehind(u, behind);
    StripsCommute(u);
    SameLettersStripLeft(u, v);
    SameLettersStripRight(StripLeft(u), StripLeft(v));
    var x, y := StripRight(StripLeft(u)), StripRight(StripLeft(v));
    SameLettersAt(x, y, '\\');
    if '\\' in x {
      SameLettersCut(x, y);
    }
    SmallForms(AfterBackslash(x), AfterBackslash(y));
  }
}
