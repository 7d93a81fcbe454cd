/** `imap_utf7_decode` of mail/imap_list.py, against the encoder of section 5.1.3 of RFC 3501. */
module ModifiedUtf7 {
  import opened Common
  import Base64
  import Utf16

  // ---- The decoder ----------------------------------------------------------

  /** The text of one shifted run, given what stands between "&" and "-". */
  function DecodeChunk(chunk: string): Result<string> {
    var bytes :- Base64.Decode(Base64.Padded(ReplaceChar(chunk, ',', '/')));
    Utf16.Decode(bytes)
  }

  function Piece(chunk: string): Result<string> {
    if chunk == "" then Ok("&") else DecodeChunk(chunk)
  }

  /** What the loop computes from the unread part of the name. */
  function Decode(s: string): Result<string> {
    if s == "" then Ok("")
    else if s[0] == '&' then
      match Find(s, '-')
      case None => Ok(s)
      case Some(j) =>
        var piece :- Piece(s[1..j]);
        Prepend(piece, Decode(s[j + 1..]))
    else Prepend([s[0]], Decode(s[1..]))
  }

  /** One turn of the loop at index `i`. */
  lemma DecodeAt(s: string, i: nat)
    requires i < |s|
    ensures s[i] != '&' ==> Decode(s[i..]) == Prepend([s[i]], Decode(s[i + 1..]))
    ensures s[i] == '&' ==>
              match Find(s[i..], '-')
              case None => Decode(s[i..]) == Ok(s[i..])
              case Some(j) =>
                && j > 0
                && Decode(s[i..]) == match Piece(s[i + 1..i + j])
                                     case Err(e) => Err(e)
                                     case Ok(piece) => Prepend(piece, Decode(s[i + j + 1..]))
  {
    hide DecodeChunk;
    var t := s[i..];
    assert t[0] == s[i] && t[1..] == s[i + 1..];
    if s[i] == '&' && Find(t, '-').Some? {
      var j := Find(t, '-').value;
      assert t[j] == '-' && t[1..j] == s[i + 1..i + j] && t[j + 1..] == s[i + j + 1..];
    }
  }

  method ImapUtf7Decode(s: string) returns (r: Result<string>)
    ensures r == Decode(s)
  {
    hide Decode, DecodeChunk;
    var out := "";
    var i := 0;
    PrependNothing(Decode(s));
    assert s[0..] == s;
    while i < |s|
      invariant 0 <= i <= |s|
      invariant Decode(s) == Prepend(out, Decode(s[i..]))
    {
      DecodeAt(s, i);
      var c := s[i];
      if c == '&' {
        var j := Find(s[i..], '-');
        if j.None? {
          out := out + s[i..];
          return Ok(out);
        }
        var chunk := s[i + 1..i + j.value];
        var piece := if chunk == "" then Ok("&") else DecodeChunk(chunk);
        if piece.Err? {
          return piece;
        }
        PrependAssociative(out, piece.value, Decode(s[i + j.value + 1..]));
        out := out + piece.value;
        i := i + j.value + 1;
      } else {
        PrependAssociative(out, [c], Decode(s[i + 1..]));
        out := out + [c];
        i := i + 1;
      }
    }
    assert out + "" == out;
    DecodeNothing(s[i..]);
    return Ok(out);
  }

  lemma DecodeNothing(s: string)
    requires s == ""
    ensures Decode(s) == Ok("")
  {
  }

  /** A "&" that no "-" follows opens nothing: text in which every "&" is like that is
      its own decoding. */
  lemma {:induction false} OpenRunIsText(s: string)
    requires forall i :: 0 <= i < |s| && s[i] == '&' ==> '-' !in s[i..]
    ensures Decode(s) == Ok(s)
  {
    if s != "" {
      assert s[0..] == s;
      if s[0] != '&' {
        var t := s[1..];
        forall i | 0 <= i < |t| && t[i] == '&' ensures '-' !in t[i..] {
          assert t[i..] == s[i + 1..];
        }
        OpenRunIsText(t);
        assert [s[0]] + t == s;
      }
    }
  }

  // ---- The encoder of the standard ------------------------------------------

  /** Characters that stand for themselves ("&" is written "&-"). */
  predicate Printable(c: char) { ' ' <= c <= '~' }

  /** Length of the longest prefix that has to be shifted. */
  function RunLength(u: string): (n: nat)
    ensures n <= |u|
    ensures forall i :: 0 <= i < n ==> !Printable(u[i])
    ensures n < |u| ==> Printable(u[n])
  {
    if u == "" || Printable(u[0]) then 0 else 1 + RunLength(u[1..])
  }

  /** Base64 as modified by the standard: "," for "/" and no padding. */
  function Shifted(u: string): string {
    ReplaceChar(Base64.Unpadded(Utf16.Encode(u)), '/', ',')
  }

  function Encode(u: string): string {
    if u == "" then ""
    else if u[0] == '&' then "&-" + Encode(u[1..])
    else if Printable(u[0]) then [u[0]] + Encode(u[1..])
    else
      var n := RunLength(u);
      "&" + Shifted(u[..n]) + "-" + Encode(u[n..])
  }

  /** The alphabet of a shifted run. */
  predicate InShifted(c: char) { c == ',' || (c != '/' && Base64.Value(c).Some?) }

  lemma {:induction false} ShiftedRun(u: string)
    requires u != ""
    ensures Shifted(u) != "" && |Shifted(u)| % 4 != 1
    ensures forall c :: c in Shifted(u) ==> InShifted(c)
    ensures DecodeChunk(Shifted(u)) == Ok(u)
  {
    var b := Utf16.Encode(u);
    var raw := Base64.Unpadded(b);
    Base64.UnpaddedAlphabet(b);
    Base64.RoundTrip(b);
    Utf16.RoundTrip(u);
    assert b != [];
    forall c | c in Shifted(u) ensures InShifted(c) {
      var i :| 0 <= i < |raw| && Shifted(u)[i] == c;
      assert raw[i] in raw;
    }
    forall i | 0 <= i < |raw| ensures raw[i] != ',' {
      assert raw[i] in raw;
    }
    assert ReplaceChar(Shifted(u), ',', '/') == raw;
  }

  /** A shifted run in front of any text is read back whole: the search for "-"
      stops at its end and the padding computed for it is legal. */
  lemma DecodeRun(chunk: string, text: string, rest: string)
    requires '-' !in chunk && Piece(chunk) == Ok(text)
    ensures Decode("&" + chunk + "-" + rest) == Prepend(text, Decode(rest))
  {
    var s := "&" + chunk + "-" + rest;
    assert s == ("&" + chunk) + ['-'] + rest;
    assert '-' !in "&" + chunk;
    FindAfter("&" + chunk, '-', rest);
    assert s[1..1 + |chunk|] == chunk && s[|chunk| + 2..] == rest;
  }

  lemma DecodeDirect(c: char, rest: string)
    requires c != '&'
    ensures Decode([c] + rest) == Prepend([c], Decode(rest))
  {
    assert ([c] + rest)[1..] == rest;
  }

  /** A maximal run at the front of a name. */
  predicate StartsWithRun(run: string, rest: string) {
    && run != "" && (forall i :: 0 <= i < |run| ==> !Printable(run[i]))
    && (rest == "" || Printable(rest[0]))
  }

  lemma RunEnds(run: string, rest: string)
    requires StartsWithRun(run, rest)
    ensures RunLength(run + rest) == |run|
    ensures Encode(run + rest) == "&" + Shifted(run) + "-" + Encode(rest)
  {
    var u := run + rest;
    assert !Printable(u[0]);
    assert rest != "" ==> Printable(u[|run|]);
    assert forall i :: 0 <= i < |run| ==> u[i] == run[i];
    assert u[..|run|] == run && u[|run|..] == rest;
  }

  lemma RoundTripRun(run: string, rest: string)
    requires StartsWithRun(run, rest) && Decode(Encode(rest)) == Ok(rest)
    ensures Decode(Encode(run + rest)) == Ok(run + rest)
  {
    RunEnds(run, rest);
    ShiftedRun(run);
    DecodeRun(Shifted(run), run, Encode(rest));
  }

  lemma RoundTripDirect(c: char, rest: string)
    requires Printable(c) && Decode(Encode(rest)) == Ok(rest)
    ensures Decode(Encode([c] + rest)) == Ok([c] + rest)
  {
    var u := [c] + rest;
    assert u[1..] == rest;
    if c == '&' {
      DecodeRun([], "&", Encode(rest));
      assert "&" + [] + "-" + Encode(rest) == "&-" + Encode(rest);
    } else {
      DecodeDirect(c, Encode(rest));
    }
  }

  /** Decoding undoes encoding, for every sequence of Unicode scalar values. */
  lemma {:induction false} RoundTrip(u: string)
    ensures Decode(Encode(u)) == Ok(u)
    decreases |u|
  {
    if u != "" {
      if Printable(u[0]) {
        RoundTrip(u[1..]);
        RoundTripDirect(u[0], u[1..]);
        assert [u[0]] + u[1..] == u;
      } else {
        var n := RunLength(u);
        RoundTrip(u[n..]);
        RoundTripRun(u[..n], u[n..]);
        assert u[..n] + u[n..] == u;
      }
    }
  }

  /** Two folders never share an encoded name. */
  lemma EncodeInjective(u: string, v: string)
    requires Encode(u) == Encode(v)
    ensures u == v
  {
    RoundTrip(u);
    RoundTrip(v);
  }

  lemma {:induction false} EncodeIsPrintable(u: string)
    ensures forall c :: c in Encode(u) ==> Printable(c)
    decreases |u|
  {
    if u != "" {
      if Printable(u[0]) {
        EncodeIsPrintable(u[1..]);
      } else {
        var n := RunLength(u);
        EncodeIsPrintable(u[n..]);
        ShiftedRun(u[..n]);
        forall c: char | InShifted(c) ensures Printable(c) {
          ShiftedPrints(c);
        }
        hide InShifted, DecodeChunk, Shifted;
      }
    }
  }

  lemma ShiftedPrints(c: char)
    requires InShifted(c)
    ensures Printable(c)
  {
  }

  // ---- Separator translation --------------------------------------------------

  /** Separators that occur in an encoded name only as themselves. */
  predicate SafeSeparator(c: char) { Printable(c) && c != '&' && c != '-' && !InShifted(c) }

  /** Such a character is in an encoded name only if it is in the name. */
  lemma {:induction false} EncodeOrigin(u: string, c: char)
    requires SafeSeparator(c)
    ensures c in Encode(u) ==> c in u
    decreases |u|
  {
    if u == "" {
    } else if Printable(u[0]) {
      EncodeOrigin(u[1..], c);
      if u[0] == '&' {
        assert c in Encode(u) ==> c in "&-" || c in Encode(u[1..]);
      }
    } else {
      var n := RunLength(u);
      EncodeOrigin(u[n..], c);
      ShiftedRun(u[..n]);
      var run := "&" + Shifted(u[..n]) + "-";
      assert c !in run;
      assert Encode(u) == run + Encode(u[n..]);
    }
  }

  /** Translating before or after encoding is the same thing. */
  lemma {:induction false} EncodeTranslated(u: string, c: char)
    requires SafeSeparator(c)
    ensures Encode(ReplaceChar(u, c, '.')) == ReplaceChar(Encode(u), c, '.')
    decreases |u|
  {
    var v := ReplaceChar(u, c, '.');
    if u == "" {
    } else if Printable(u[0]) {
      EncodeTranslated(u[1..], c);
      assert v[1..] == ReplaceChar(u[1..], c, '.');
      if u[0] == '&' {
        ReplaceCharConcat("&-", Encode(u[1..]), c, '.');
        ReplaceCharAbsent("&-", c, '.');
      } else {
        ReplaceCharConcat([u[0]], Encode(u[1..]), c, '.');
      }
    } else {
      var n := RunLength(u);
      TranslatedRun(u, c);
      EncodeTranslated(u[n..], c);
      ShiftedRun(u[..n]);
      var run := "&" + Shifted(u[..n]) + "-";
      ReplaceCharAbsent(run, c, '.');
      ReplaceCharConcat(run, Encode(u[n..]), c, '.');
    }
  }

  /** Translation leaves the maximal shifted run at the front alone. */
  lemma {:induction false} TranslatedRun(u: string, c: char)
    requires Printable(c)
    ensures var v, n := ReplaceChar(u, c, '.'), RunLength(u);
            RunLength(v) == n && v[..n] == u[..n] && v[n..] == ReplaceChar(u[n..], c, '.')
  {
    var v, n := ReplaceChar(u, c, '.'), RunLength(u);
    var m := RunLength(v);
    assert n < |u| ==> Printable(v[n]);
    assert m < |u| ==> Printable(v[m]) && Printable(u[m]);
    assert v[n..] == ReplaceChar(u[n..], c, '.');
  }

  /** One symbol in a run is not enough for a byte. */
  lemma LoneSymbolFails()
    ensures Decode(['&', 'A', '-']).Err?
  {
    var t := ['A'];
    var s := t + ['=', '=', '='];
    assert ReplaceChar(t, ',', '/') == t && Base64.Padded(t) == s;
    assert Base64.Value('A') == Some(0);
    assert s[1..] == ['=', '=', '='] && s[1..][1..] == ['=', '='] && s[1..][1..][1..] == ['='];
    assert Base64.Scan(s, 0, 0, 0) == Base64.Scan(['=', '=', '='], 1, 0, 0) == Base64.Scan(['=', '='], 1, 0, 0)
        == Base64.Scan(['='], 1, 0, 0) == Base64.Scan([], 1, 0, 0) == Err(BadBase64);
    assert DecodeChunk(t).Err?;
    FindAfter(['&', 'A'], '-', []);
    assert ['&', 'A', '-'] == ['&', 'A'] + ['-'] + [] && ['&', 'A', '-'][1..2] == t;
  }
}
