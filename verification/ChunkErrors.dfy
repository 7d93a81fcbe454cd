/** Which mailbox names cannot be decoded (mail/imap_list.py), told from their text. */
module ChunkErrors {
  import opened Common
  import opened ModifiedUtf7
  import ImapList
  import Separators

  // ---- Base64 by position ---------------------------------------------------------------

  /** The bytes across two symbols, by where in a group of four they stand. */
  function Upper(a: Base64.Sextet, b: Base64.Sextet): Base64.Byte {
    var x: int, y: int := a, b;
    x * 4 + y / 16
  }

  function Middle(b: Base64.Sextet, c: Base64.Sextet): Base64.Byte {
    var x: int, y: int := b, c;
    x % 16 * 16 + y / 4
  }

  function Lower(c: Base64.Sextet, d: Base64.Sextet): Base64.Byte {
    var x: int, y: int := c, d;
    x % 4 * 64 + y
  }

  /** Byte `k` of the bit string that the symbols spell. */
  function Octet(v: seq<Base64.Sextet>, k: nat): Base64.Byte
    requires k < |v| * 3 / 4
  {
    var q := k / 3 * 4;
    if k % 3 == 0 then Upper(v[q], v[q + 1])
    else if k % 3 == 1 then Middle(v[q + 1], v[q + 2])
    else Lower(v[q + 2], v[q + 3])
  }

  function Octets(v: seq<Base64.Sextet>): seq<Base64.Byte> {
    seq(|v| * 3 / 4, k requires 0 <= k < |v| * 3 / 4 => Octet(v, k))
  }

  // ---- What the scanner has read -----------------------------------------------------------

  /** The values of the symbols in a text; all other characters are passed over. */
  function Sextets(t: string): (v: seq<Base64.Sextet>)
    ensures |v| <= |t|
  {
    if t == "" then []
    else
      var u := Sextets(t[..|t| - 1]);
      match Base64.Value(t[|t| - 1])
      case None => u
      case Some(x) => u + [x]
  }

  /** Padding characters since the last symbol. */
  function Pads(t: string): nat {
    if t == "" || Base64.Value(t[|t| - 1]).Some? then 0
    else Pads(t[..|t| - 1]) + if t[|t| - 1] == '=' then 1 else 0
  }

  /** Two or three symbols of a group stand before padding that completes it. */
  predicate Closed(t: string) {
    var q := |Sextets(t)| % 4;
    q >= 2 && q + Pads(t) >= 4
  }

  /** The text up to its first completed padding; the decoder reads no further. */
  function Read(t: string): string {
    if t == "" then ""
    else
      var u := Read(t[..|t| - 1]);
      if Closed(u) then u else t
  }

  /** Bits of the last symbol that are in no byte yet. */
  function Left(v: seq<Base64.Sextet>): (n: nat)
    ensures n < Base64.Room(|v| % 4)
  {
    if |v| % 4 == 0 then 0
    else
      var last: int := v[|v| - 1];
      if |v| % 4 == 1 then last else if |v| % 4 == 2 then last % 16 else last % 4
  }

  /** The scanner after the text `t`. */
  function Resume(t: string, rest: string): Result<seq<Base64.Byte>> {
    var v := Sextets(t);
    Base64.Scan(rest, |v| % 4, Left(v), if |v| % 4 < 2 then 0 else Pads(t))
  }

  /** The byte that one more symbol completes. */
  function Next(v: seq<Base64.Sextet>, x: Base64.Sextet): seq<Base64.Byte> {
    if |v| % 4 == 0 then []
    else
      var last := v[|v| - 1];
      if |v| % 4 == 1 then [Upper(last, x)] else if |v| % 4 == 2 then [Middle(last, x)] else [Lower(last, x)]
  }

  lemma OctetsSnoc(v: seq<Base64.Sextet>, x: Base64.Sextet)
    ensures Octets(v + [x]) == Octets(v) + Next(v, x)
  {
    hide Upper, Middle, Lower;
    var w, n := v + [x], |v| * 3 / 4;
    forall k | 0 <= k < n ensures Octet(w, k) == Octet(v, k) {
      assert k / 3 * 4 + k % 3 + 1 < |v|;
    }
    if |v| % 4 != 0 {
      assert |w| * 3 / 4 == n + 1 && n / 3 * 4 + n % 3 + 1 == |v|;
      assert Next(v, x) == [Octet(w, n)];
    }
  }

  lemma OneMore(t: string, c: char)
    ensures Sextets(t + [c]) == Sextets(t) + match Base64.Value(c) case None => [] case Some(x) => [x]
    ensures Pads(t + [c]) == if Base64.Value(c).Some? then 0 else if c == '=' then Pads(t) + 1 else Pads(t)
  {
    hide Base64.Value;
    assert (t + [c])[..|t|] == t && Sextets(t) + [] == Sextets(t);
  }

  lemma ScanChar(c: char, rest: string, quad: nat, left: nat, pads: nat)
    requires quad < 4 && left < Base64.Room(quad)
    ensures Base64.Scan([c] + rest, quad, left, pads) ==
              match Base64.Value(c)
              case None =>
                if c != '=' then Base64.Scan(rest, quad, left, pads)
                else if quad < 2 then Base64.Scan(rest, quad, left, pads)
                else if quad + pads + 1 >= 4 then Ok([])
                else Base64.Scan(rest, quad, left, pads + 1)
              case Some(v) =>
                if quad == 0 then Base64.Scan(rest, 1, v, 0)
                else if quad == 1 then Prepend([left * 4 + v / 16], Base64.Scan(rest, 2, v % 16, 0))
                else if quad == 2 then Prepend([left * 16 + v / 4], Base64.Scan(rest, 3, v % 4, 0))
                else Prepend([left * 64 + v], Base64.Scan(rest, 0, 0, 0))
  {
    assert ([c] + rest)[1..] == rest;
  }

  lemma LeftNext(v: seq<Base64.Sextet>, x: Base64.Sextet)
    ensures var q, n := |v| % 4, Left(v);
            && Next(v, x) == (if q == 0 then [] else if q == 1 then [n * 4 + x / 16]
                              else if q == 2 then [n * 16 + x / 4] else [n * 64 + x])
            && Left(v + [x]) == (if q == 0 then x else if q == 1 then x % 16 else if q == 2 then x % 4 else 0)
  {
  }

  lemma ScanNext(v: seq<Base64.Sextet>, x: Base64.Sextet, c: char, rest: string, pads: nat)
    requires Base64.Value(c) == Some(x)
    ensures Base64.Scan([c] + rest, |v| % 4, Left(v), pads)
         == Prepend(Next(v, x), Base64.Scan(rest, |v + [x]| % 4, Left(v + [x]), 0))
  {
    hide Base64.Scan, Base64.Value, Left, Next;
    var w, q, n := v + [x], |v| % 4, Left(v);
    var q1, n1 := |w| % 4, Left(w);
    LeftNext(v, x);
    ScanChar(c, rest, q, n, pads);
    assert q1 == if q == 3 then 0 else q + 1;
    var more := Base64.Scan(rest, q1, n1, 0);
    PrependNothing(more);
    if q == 3 {
      assert Base64.Scan([c] + rest, q, n, pads) == Prepend([n * 64 + x], more);
    }
  }

  lemma ReadSymbol(t: string, c: char, rest: string)
    requires Base64.Value(c).Some?
    ensures Resume(t, [c] + rest) == Prepend(Next(Sextets(t), Base64.Value(c).value), Resume(t + [c], rest))
  {
    hide Base64.Scan, Base64.Value, Sextets, Pads, Left, Next, Prepend;
    var v := Sextets(t);
    OneMore(t, c);
    ScanNext(v, Base64.Value(c).value, c, rest, if |v| % 4 < 2 then 0 else Pads(t));
  }

  lemma ReadOther(t: string, c: char, rest: string)
    requires Base64.Value(c).None? && !Closed(t + [c])
    ensures Resume(t, [c] + rest) == Resume(t + [c], rest)
  {
    hide Base64.Scan, Base64.Value, Sextets, Pads, Left;
    var v := Sextets(t);
    OneMore(t, c);
    assert Sextets(t + [c]) == v;
    ScanChar(c, rest, |v| % 4, Left(v), if |v| % 4 < 2 then 0 else Pads(t));
  }

  lemma ReadOn(t: string, c: char, rest: string)
    requires !Closed(t + [c])
    ensures Resume(t, [c] + rest)
         == Prepend(match Base64.Value(c) case None => [] case Some(x) => Next(Sextets(t), x), Resume(t + [c], rest))
  {
    hide Base64.Value, Resume, Sextets, Next, Closed;
    if Base64.Value(c).Some? {
      ReadSymbol(t, c, rest);
    } else {
      ReadOther(t, c, rest);
      PrependNothing(Resume(t + [c], rest));
    }
  }

  lemma {:induction false} ScanFrom(t: string, rest: string)
    requires forall k :: 0 <= k <= |t| ==> !Closed(t[..k])
    ensures Base64.Scan(t + rest, 0, 0, 0) == Prepend(Octets(Sextets(t)), Resume(t, rest))
  {
    if t == "" {
      assert t + rest == rest && Octets([]) == [];
      PrependNothing(Resume(t, rest));
    } else {
      var n := |t| - 1;
      var u, c := t[..n], t[n];
      assert t[..n + 1] == t == u + [c] && u + ([c] + rest) == t + rest;
      forall k | 0 <= k <= n ensures !Closed(u[..k]) {
        assert u[..k] == t[..k];
      }
      ScanFrom(u, [c] + rest);
      ReadOn(u, c, rest);
      OctetsNext(u, c);
      hide Base64.Scan, Octets, Resume, Next;
      PrependAssociative(Octets(Sextets(u)), match Base64.Value(c) case None => [] case Some(x) => Next(Sextets(u), x),
                         Resume(t, rest));
    }
  }

  lemma OctetsNext(t: string, c: char)
    ensures Octets(Sextets(t + [c]))
         == Octets(Sextets(t)) + match Base64.Value(c) case None => [] case Some(x) => Next(Sextets(t), x)
  {
    hide Octets, Next;
    assert (t + [c])[..|t|] == t;
    if Base64.Value(c).Some? {
      OctetsSnoc(Sextets(t), Base64.Value(c).value);
    } else {
      assert Octets(Sextets(t)) + [] == Octets(Sextets(t));
    }
  }

  lemma {:induction false} ReadPrefix(t: string)
    ensures |Read(t)| <= |t| && Read(t) == t[..|Read(t)|]
    ensures forall k :: 0 <= k < |Read(t)| ==> !Closed(t[..k])
    ensures !Closed(Read(t)) ==> Read(t) == t
  {
    if t != "" {
      hide Closed;
      var n := |t| - 1;
      ReadPrefix(t[..n]);
      assert forall k :: 0 <= k <= n ==> t[..n][..k] == t[..k];
      assert t[..|t|] == t;
    }
  }

  /** What the scanner makes of any text. */
  lemma ScanExact(t: string)
    ensures Base64.Scan(t, 0, 0, 0)
         == var r := Read(t);
            if Closed(r) || |Sextets(r)| % 4 == 0 then Ok(Octets(Sextets(r))) else Err(BadBase64)
  {
    ReadPrefix(t);
    var r := Read(t);
    if Closed(r) {
      assert r + t[|r|..] == t;
      forall k | 0 <= k < |r| ensures !Closed(r[..k]) {
        assert r[..k] == t[..k];
      }
      ClosedScan(r, t[|r|..]);
    } else {
      assert t[..|t|] == t && t + "" == t;
      ScanFrom(t, "");
      assert Octets(Sextets(t)) + [] == Octets(Sextets(t));
    }
  }

  lemma ClosedScan(r: string, rest: string)
    requires Closed(r) && forall k :: 0 <= k < |r| ==> !Closed(r[..k])
    ensures Base64.Scan(r + rest, 0, 0, 0) == Ok(Octets(Sextets(r)))
  {
    hide Base64.Scan, Octets, Sextets, Pads, Base64.Value;
    assert Sextets("") == [] by {
      assert |Sextets("")| == 0;
    }
    var n := |r| - 1;
    var u, c := r[..n], r[n];
    assert r == u + [c];
    OneMore(u, c);
    assert Sextets(u) + [] == Sextets(u);
    forall k | 0 <= k <= n ensures !Closed(u[..k]) {
      assert u[..k] == r[..k];
    }
    assert u[..n] == u;
    ScanFrom(u, [c] + rest);
    assert u + ([c] + rest) == r + rest;
    ScanChar(c, rest, |Sextets(u)| % 4, Left(Sextets(u)), if |Sextets(u)| % 4 < 2 then 0 else Pads(u));
    assert Octets(Sextets(u)) + [] == Octets(Sextets(u));
  }

  // ---- UTF-16 by position ------------------------------------------------------------------

  function UnitAt(b: seq<Base64.Byte>, k: nat): int
    requires 2 * k + 1 < |b|
  {
    var high: int, low: int := b[2 * k], b[2 * k + 1];
    high * 256 + low
  }

  predicate High(w: int) { Utf16.HIGH_START <= w < Utf16.LOW_START }

  predicate Low(w: int) { Utf16.LOW_START <= w < Utf16.SURROGATE_END }

  /** A high surrogate stands just before a low one and the other way round. */
  predicate PairedAt(b: seq<Base64.Byte>, k: nat)
    requires 2 * k + 1 < |b|
  {
    && (High(UnitAt(b, k)) ==> 2 * k + 3 < |b| && Low(UnitAt(b, k + 1)))
    && (Low(UnitAt(b, k)) ==> k > 0 && High(UnitAt(b, k - 1)))
  }

  /** Whole units, with all surrogates in pairs. */
  ghost predicate WellPaired(b: seq<Base64.Byte>) {
    |b| % 2 == 0 && forall k: nat :: 2 * k + 1 < |b| ==> PairedAt(b, k)
  }

  lemma PairedBehind(b: seq<Base64.Byte>, n: nat, k: nat)
    requires 2 * n <= |b| && 2 * k + 1 < |b[2 * n..]|
    ensures k > 0 ==> (PairedAt(b[2 * n..], k) <==> PairedAt(b, k + n))
    ensures k == 0 && n > 0 && !High(UnitAt(b, n - 1)) ==> (PairedAt(b[2 * n..], 0) <==> PairedAt(b, n))
  {
    var c := b[2 * n..];
    assert UnitAt(c, k) == UnitAt(b, k + n);
    if k > 0 {
      assert UnitAt(c, k - 1) == UnitAt(b, k - 1 + n);
    }
    if 2 * k + 3 < |c| {
      assert UnitAt(c, k + 1) == UnitAt(b, k + 1 + n);
    }
  }

  /** Units in front that are paired among themselves do not matter to the rest. */
  lemma WellPairedBehind(b: seq<Base64.Byte>, n: nat)
    requires 0 < n && 2 * n <= |b| && !High(UnitAt(b, n - 1))
    requires forall k: nat :: k < n ==> PairedAt(b, k)
    ensures WellPaired(b) <==> WellPaired(b[2 * n..])
  {
    hide PairedAt;
    var c := b[2 * n..];
    if WellPaired(c) {
      forall k: nat | 2 * k + 1 < |b| ensures PairedAt(b, k) {
        if k >= n {
          PairedBehind(b, n, k - n);
          assert PairedAt(c, k - n);
        }
      }
    }
    if WellPaired(b) {
      forall k: nat | 2 * k + 1 < |c| ensures PairedAt(c, k) {
        PairedBehind(b, n, k);
        assert PairedAt(b, k + n);
      }
    }
  }

  lemma {:induction false} Utf16Exact(b: seq<Base64.Byte>)
    ensures Utf16.Decode(b).Ok? <==> WellPaired(b)
  {
    if |b| >= 2 {
      var w := UnitAt(b, 0);
      assert w == Utf16.Unit(b);
      assert WellPaired(b) ==> PairedAt(b, 0);
      if High(w) {
        if |b| >= 4 && Low(UnitAt(b, 1)) {
          assert Utf16.Unit(b[2..]) == UnitAt(b, 1);
          WellPairedBehind(b, 2);
          Utf16Exact(b[4..]);
        } else if |b| >= 4 {
          assert Utf16.Unit(b[2..]) == UnitAt(b, 1);
        }
      } else if !Low(w) {
        WellPairedBehind(b, 1);
        Utf16Exact(b[2..]);
      }
    }
  }

  // ---- Chunks -------------------------------------------------------------------------------

  /** The chunk in the alphabet of Base64. */
  function Plain(chunk: string): string { ReplaceChar(chunk, ',', '/') }

  /** The last group has one symbol, or the padding of the chunk and the characters that
      bring its length to a multiple of 4 do not complete it. */
  predicate Unfinished(chunk: string) {
    var q := |Sextets(Plain(chunk))| % 4;
    && !Closed(Read(Plain(chunk)))
    && (q == 1 || (q >= 2 && q + Pads(Plain(chunk)) + (-|chunk|) % 4 < 4))
  }

  /** The bytes a chunk spells, if it is not unfinished. */
  function BytesOf(chunk: string): seq<Base64.Byte> { Octets(Sextets(Read(Plain(chunk)))) }

  ghost predicate Broken(chunk: string) {
    (exists c :: c in chunk && c >= 128 as char) || Unfinished(chunk) || !WellPaired(BytesOf(chunk))
  }

  lemma {:induction false} PadsOnly(c: string, n: nat)
    ensures var t := c + Base64.Padding(n);
            Sextets(t) == Sextets(c) && Pads(t) == Pads(c) + n
  {
    var t := c + Base64.Padding(n);
    if n == 0 {
      assert t == c;
    } else {
      assert t[..|t| - 1] == c + Base64.Padding(n - 1) && t[|t| - 1] == '=';
      PadsOnly(c, n - 1);
    }
  }

  lemma ReadMore(t: string, c: char)
    ensures Read(t + [c]) == if Closed(Read(t)) then Read(t) else t + [c]
  {
    hide Closed;
    assert (t + [c])[..|t|] == t;
  }

  /** Padding at the end adds no symbol, and is read until it completes the last group. */
  lemma {:induction false} ReadPadded(c: string, n: nat)
    ensures var r := Read(c + Base64.Padding(n));
            && Sextets(r) == Sextets(Read(c))
            && (Closed(r) <==> Closed(Read(c)) || (|Sextets(c)| % 4 >= 2 && |Sextets(c)| % 4 + Pads(c) + n >= 4))
  {
    hide Sextets, Pads, Read;
    ReadPrefix(c);
    if n == 0 {
      assert c + Base64.Padding(n) == c;
      NotYetClosed(c);
    } else {
      var u := c + Base64.Padding(n - 1);
      assert c + Base64.Padding(n) == u + ['='];
      ReadPadded(c, n - 1);
      ReadMore(u, '=');
      PadsOnly(c, n);
    }
  }

  lemma NotYetClosed(c: string)
    ensures !Closed(Read(c)) ==> !(|Sextets(c)| % 4 >= 2 && |Sextets(c)| % 4 + Pads(c) >= 4)
  {
    ReadPrefix(c);
    hide Read, Sextets, Pads;
  }

  lemma BytesExact(chunk: string)
    ensures Base64.Decode(Base64.Padded(Plain(chunk)))
         == if (exists c :: c in chunk && c >= 128 as char) || Unfinished(chunk) then Err(BadBase64) else Ok(BytesOf(chunk))
  {
    hide Base64.Scan, Octets, Sextets, Pads, Read;
    var c := Plain(chunk);
    PaddedAscii(chunk);
    ScanExact(Base64.Padded(c));
    ReadPadded(c, (-|chunk|) % 4);
    ReadPrefix(c);
  }

  /** A chunk, whatever characters it has, cannot be decoded iff one of them is not ASCII, or
      its last group is unfinished, or its bytes are not UTF-16. */
  lemma ChunkExact(chunk: string)
    ensures DecodeChunk(chunk).Err? <==> Broken(chunk)
    ensures !Broken(chunk) ==> DecodeChunk(chunk) == Utf16.Decode(BytesOf(chunk))
  {
    hide Base64.Decode, Base64.Padded, Utf16.Decode, WellPaired, BytesOf, Unfinished;
    BytesExact(chunk);
    Utf16Exact(BytesOf(chunk));
  }

  lemma PaddedAscii(chunk: string)
    ensures (exists c :: c in Base64.Padded(Plain(chunk)) && c >= 128 as char) <==> exists c :: c in chunk && c >= 128 as char
  {
    var s := Base64.Padded(Plain(chunk));
    forall i | 0 <= i < |s| && s[i] >= 128 as char ensures s[i] in chunk {
      assert i < |chunk| ==> chunk[i] == s[i];
    }
    forall i | 0 <= i < |chunk| && chunk[i] >= 128 as char ensures chunk[i] in s {
      assert s[i] == chunk[i];
    }
  }

  ghost predicate InAlphabet(chunk: string) { forall i :: 0 <= i < |chunk| ==> InShifted(chunk[i]) }

  function SextetsOf(chunk: string): seq<Base64.Sextet>
    requires InAlphabet(chunk)
  {
    seq(|chunk|, i requires 0 <= i < |chunk| => Separators.SextetOf(chunk[i]))
  }

  /** A chunk over its own alphabet cannot be decoded iff its length is 1 mod 4 or its bytes
      are not UTF-16. */
  lemma AlphabetExact(chunk: string)
    requires InAlphabet(chunk)
    ensures DecodeChunk(chunk).Err? <==> |chunk| % 4 == 1 || !WellPaired(Octets(SextetsOf(chunk)))
  {
    hide DecodeChunk, WellPaired, Octets, Sextets, Pads, Read, InShifted, Base64.Value;
    ChunkExact(chunk);
    AlphabetRead(chunk);
    AlphabetAscii(chunk);
  }

  lemma AlphabetAscii(chunk: string)
    requires InAlphabet(chunk)
    ensures forall c :: c in chunk ==> c < 128 as char
  {
    forall i | 0 <= i < |chunk| ensures chunk[i] < 128 as char {
      assert InShifted(chunk[i]);
    }
  }

  lemma {:induction false} AlphabetRead(chunk: string)
    requires InAlphabet(chunk)
    ensures var t := Plain(chunk);
            Sextets(t) == SextetsOf(chunk) && Pads(t) == 0 && Read(t) == t && !Closed(t)
  {
    if chunk != "" {
      var n := |chunk| - 1;
      var u, c := chunk[..n], Plain(chunk)[n];
      assert Plain(chunk) == Plain(u) + [c];
      AlphabetRead(u);
      OneMore(Plain(u), c);
      ReadMore(Plain(u), c);
      assert Base64.Value(c) == Some(Separators.SextetOf(chunk[n]));
      hide Base64.Value, Sextets, Pads, Read, InShifted, Separators.SextetOf;
      assert SextetsOf(chunk) == SextetsOf(u) + [Separators.SextetOf(chunk[n])];
    }
  }

  // ---- Names ----------------------------------------------------------------------------------

  /** The non-empty chunks the decoder comes to. */
  function Chunks(s: string): seq<string> {
    if s == "" then []
    else if s[0] == '&' then
      match Find(s, '-')
      case None => []
      case Some(j) => (if j == 1 then [] else [s[1..j]]) + Chunks(s[j + 1..])
    else Chunks(s[1..])
  }

  lemma {:induction false} NameExact(s: string)
    ensures Decode(s).Err? <==> exists chunk :: chunk in Chunks(s) && DecodeChunk(chunk).Err?
    decreases |s|
  {
    hide DecodeChunk;
    if s == "" {
    } else if s[0] == '&' {
      var j := Find(s, '-');
      if j.Some? {
        var rest := s[j.value + 1..];
        NameExact(rest);
        assert Chunks(s) == (if j.value == 1 then [] else [s[1..j.value]]) + Chunks(rest);
        assert j.value > 1 ==> s[1..j.value] in Chunks(s);
        assert forall chunk :: chunk in Chunks(rest) ==> chunk in Chunks(s);
      }
    } else {
      NameExact(s[1..]);
    }
  }

  // ---- Listings ---------------------------------------------------------------------------------

  /** The chunks in the name of a line, if the line matches. */
  function ChunksOf(line: ImapList.Line): seq<string> {
    if line.None? || line.value == "" then []
    else
      match ImapList.MatchOf(line.value)
      case None => []
      case Some(m) => Chunks(ImapList.Ascii(ImapList.Unquoted(ImapList.Strip(m.name))))
  }

  lemma LineExact(line: ImapList.Line)
    ensures ImapList.Undecodable(line) <==> exists chunk :: chunk in ChunksOf(line) && DecodeChunk(chunk).Err?
  {
    hide DecodeChunk, Chunks, Decode, ImapList.MatchOf, ImapList.Words, ImapList.Strip, ImapList.Ascii;
    if line.Some? && line.value != "" && ImapList.MatchOf(line.value).Some? {
      NameExact(ImapList.Ascii(ImapList.Unquoted(ImapList.Strip(ImapList.MatchOf(line.value).value.name))));
    }
  }

  /** A listing fails iff some name in it has a broken chunk. */
  lemma BrokenChunkFails(lines: seq<ImapList.Line>)
    ensures ImapList.Parse(lines).Err? <==>
            exists i, chunk :: 0 <= i < |lines| && chunk in ChunksOf(lines[i]) && Broken(chunk)
  {
    hide DecodeChunk, ChunksOf, Broken, ImapList.Undecodable, ImapList.Parse;
    ImapList.ListFailsExactly(lines);
    forall i | 0 <= i < |lines|
      ensures ImapList.Undecodable(lines[i]) <==> exists chunk :: chunk in ChunksOf(lines[i]) && Broken(chunk)
    {
      LineExact(lines[i]);
      forall chunk | chunk in ChunksOf(lines[i]) ensures DecodeChunk(chunk).Err? <==> Broken(chunk) {
        ChunkExact(chunk);
      }
    }
  }
}
