/** Base64 (section 4 of RFC 4648) and the decoder Python's `base64.b64decode` runs:
    characters outside the alphabet are discarded, then the padding is checked. */
module Base64 {
  import opened Common

  type Byte = b: int | 0 <= b < 256
  type Sextet = v: int | 0 <= v < 64

  function Symbol(v: Sextet): (c: char) {
    if v < 26 then (v + 65) as char
    else if v < 52 then (v + 71) as char
    else if v < 62 then (v - 4) as char
    else if v == 62 then '+'
    else '/'
  }

  function Value(c: char): (r: Option<Sextet>) {
    if 'A' <= c <= 'Z' then Some(c as int - 65)
    else if 'a' <= c <= 'z' then Some(c as int - 71)
    else if '0' <= c <= '9' then Some(c as int + 4)
    else if c == '+' then Some(62)
    else if c == '/' then Some(63)
    else None
  }

  /** Table 1 of RFC 4648: its corners, and consecutive characters between them. */
  lemma SymbolsExact(v: Sextet)
    ensures Symbol(0) == 'A' && Symbol(25) == 'Z' && Symbol(26) == 'a' && Symbol(51) == 'z'
    ensures Symbol(52) == '0' && Symbol(61) == '9' && Symbol(62) == '+' && Symbol(63) == '/'
    ensures v !in {25, 51, 61, 62, 63} ==> Symbol(v + 1) as int == Symbol(v) as int + 1
  {
  }

  lemma ValueOfSymbol(v: Sextet)
    ensures Value(Symbol(v)) == Some(v)
    ensures Symbol(v) !in "=,-&." && Symbol(v) < 128 as char
  {
  }

  /** The encoding without its padding characters. */
  function Unpadded(b: seq<Byte>): (s: string)
    ensures |s| % 4 != 1
  {
    if b == [] then ""
    else if |b| == 1 then [Symbol(b[0] / 4), Symbol(b[0] % 4 * 16)]
    else if |b| == 2 then
      [Symbol(b[0] / 4), Symbol(b[0] % 4 * 16 + b[1] / 16), Symbol(b[1] % 16 * 4)]
    else
      Group(b[0], b[1], b[2]) + Unpadded(b[3..])
  }

  /** Three bytes in four symbols. */
  function Group(x: Byte, y: Byte, z: Byte): (s: string)
    ensures |s| == 4
  {
    [Symbol(x / 4), Symbol(x % 4 * 16 + y / 16), Symbol(y % 16 * 4 + z / 64), Symbol(z % 64)]
  }

  lemma {:induction false} UnpaddedAlphabet(b: seq<Byte>)
    ensures forall c :: c in Unpadded(b) ==> Value(c).Some? && c < 128 as char && c !in "=,-&."
  {
    forall v: Sextet ensures Value(Symbol(v)).Some? && Symbol(v) < 128 as char && Symbol(v) !in "=,-&." {
      ValueOfSymbol(v);
    }
    if |b| >= 3 {
      UnpaddedAlphabet(b[3..]);
    }
  }

  function Padding(n: nat): (s: string)
    ensures |s| == n && forall c :: c in s ==> c == '='
  {
    seq(n, i => '=')
  }

  /** `s + "=" * (-len(s) % 4)` */
  function Padded(s: string): string { s + Padding((-|s|) % 4) }

  /** Values the bits carried over from the last symbol can take. */
  function Room(quad: nat): nat {
    if quad == 1 then 64 else if quad == 2 then 16 else if quad == 3 then 4 else 1
  }

  /** The symbol-by-symbol decoder: `quad` symbols of the current group of four
      are consumed, `left` holds the bits they have not yet delivered. */
  function Scan(s: string, quad: nat, left: nat, pads: nat): Result<seq<Byte>>
    requires quad < 4 && left < Room(quad)
  {
    if s == "" then
      if quad == 0 then Ok([]) else Err(BadBase64)
    else if s[0] == '=' then
      if quad < 2 then Scan(s[1..], quad, left, pads)
      else if quad + pads + 1 >= 4 then Ok([])
      else Scan(s[1..], quad, left, pads + 1)
    else
      match Value(s[0])
      case None => Scan(s[1..], quad, left, pads)
      case Some(v) =>
        if quad == 0 then Scan(s[1..], 1, v, 0)
        else if quad == 1 then Prepend([left * 4 + v / 16], Scan(s[1..], 2, v % 16, 0))
        else if quad == 2 then Prepend([left * 16 + v / 4], Scan(s[1..], 3, v % 4, 0))
        else Prepend([left * 64 + v], Scan(s[1..], 0, 0, 0))
  }

  /** `base64.b64decode(s)` */
  function Decode(s: string): Result<seq<Byte>> {
    if exists c :: c in s && c >= 128 as char then Err(BadBase64) else Scan(s, 0, 0, 0)
  }

  lemma ScanSymbol(v: Sextet, rest: string, quad: nat, left: nat)
    requires quad < 4 && left < Room(quad)
    ensures Scan([Symbol(v)] + rest, quad, left, 0) ==
      if quad == 0 then Scan(rest, 1, v, 0)
      else if quad == 1 then Prepend([left * 4 + v / 16], Scan(rest, 2, v % 16, 0))
      else if quad == 2 then Prepend([left * 16 + v / 4], Scan(rest, 3, v % 4, 0))
      else Prepend([left * 64 + v], Scan(rest, 0, 0, 0))
  {
    ValueOfSymbol(v);
    assert ([Symbol(v)] + rest)[1..] == rest;
  }

  /** The bits of the first two bytes, however the group ends. */
  lemma ScanTwo(x: Byte, y: int, rest: string)
    requires 0 <= y < 16
    ensures Scan([Symbol(x / 4), Symbol(x % 4 * 16 + y)] + rest, 0, 0, 0) == Prepend([x], Scan(rest, 2, y, 0))
  {
    var p, q := x / 4, x % 4 * 16 + y;
    assert [Symbol(p), Symbol(q)] + rest == [Symbol(p)] + ([Symbol(q)] + rest);
    ScanSymbol(p, [Symbol(q)] + rest, 0, 0);
    ScanSymbol(q, rest, 1, p);
    assert q / 16 == x % 4 && q % 16 == y;
  }

  lemma ScanThree(x: Byte, y: Byte, z: int, rest: string)
    requires 0 <= z < 4
    ensures Scan([Symbol(x / 4), Symbol(x % 4 * 16 + y / 16), Symbol(y % 16 * 4 + z)] + rest, 0, 0, 0)
         == Prepend([x, y], Scan(rest, 3, z, 0))
  {
    var r := y % 16 * 4 + z;
    assert [Symbol(x / 4), Symbol(x % 4 * 16 + y / 16), Symbol(r)] + rest
        == [Symbol(x / 4), Symbol(x % 4 * 16 + y / 16)] + ([Symbol(r)] + rest);
    ScanTwo(x, y / 16, [Symbol(r)] + rest);
    ScanSymbol(r, rest, 2, y / 16);
    assert r / 4 == y % 16 && r % 4 == z;
    PrependAssociative([x], [y], Scan(rest, 3, z, 0));
    assert [x] + [y] == [x, y];
  }

  /** One complete group of four symbols decodes to its three bytes. */
  lemma ScanGroup(x: Byte, y: Byte, z: Byte, rest: string)
    ensures Scan([Symbol(x / 4), Symbol(x % 4 * 16 + y / 16), Symbol(y % 16 * 4 + z / 64), Symbol(z % 64)] + rest, 0, 0, 0)
         == Prepend([x, y, z], Scan(rest, 0, 0, 0))
  {
    assert [Symbol(x / 4), Symbol(x % 4 * 16 + y / 16), Symbol(y % 16 * 4 + z / 64), Symbol(z % 64)] + rest
        == [Symbol(x / 4), Symbol(x % 4 * 16 + y / 16), Symbol(y % 16 * 4 + z / 64)] + ([Symbol(z % 64)] + rest);
    ScanThree(x, y, z / 64, [Symbol(z % 64)] + rest);
    ScanSymbol(z % 64, rest, 3, z / 64);
    PrependAssociative([x, y], [z], Scan(rest, 0, 0, 0));
    assert [x, y] + [z] == [x, y, z];
  }

  /** The final group, of two or of three symbols, is completed by its padding. */
  lemma ScanOneByte(x: Byte)
    ensures Scan([Symbol(x / 4), Symbol(x % 4 * 16 + 0)] + Padding(2), 0, 0, 0) == Ok([x])
  {
    assert Padding(2)[1..] == Padding(1);
    assert Scan(Padding(1), 2, 0, 1) == Ok([]);
    assert Scan(Padding(2), 2, 0, 0) == Ok([]);
    ScanTwo(x, 0, Padding(2));
    assert [x] + [] == [x];
  }

  lemma ScanTwoBytes(x: Byte, y: Byte)
    ensures Scan([Symbol(x / 4), Symbol(x % 4 * 16 + y / 16), Symbol(y % 16 * 4 + 0)] + Padding(1), 0, 0, 0) == Ok([x, y])
  {
    assert Scan(Padding(1), 3, 0, 0) == Ok([]);
    ScanThree(x, y, 0, Padding(1));
    assert [x, y] + [] == [x, y];
  }

  lemma PaddedGroup(head: string, tail: string)
    requires |head| == 4
    ensures Padded(head + tail) == head + Padded(tail)
  {
    assert (-|head + tail|) % 4 == (-|tail|) % 4;
  }

  lemma {:induction false} RoundTrip(b: seq<Byte>)
    ensures Decode(Padded(Unpadded(b))) == Ok(b)
  {
    UnpaddedAlphabet(b);
    ScanRoundTrip(b);
  }

  lemma RoundTripOne(x: Byte)
    ensures Scan(Padded(Unpadded([x])), 0, 0, 0) == Ok([x])
  {
    ScanOneByte(x);
    assert Unpadded([x]) == [Symbol(x / 4), Symbol(x % 4 * 16 + 0)];
  }

  lemma RoundTripTwo(x: Byte, y: Byte)
    ensures Scan(Padded(Unpadded([x, y])), 0, 0, 0) == Ok([x, y])
  {
    ScanTwoBytes(x, y);
    assert Unpadded([x, y]) == [Symbol(x / 4), Symbol(x % 4 * 16 + y / 16), Symbol(y % 16 * 4 + 0)];
  }

  lemma ScanMore(x: Byte, y: Byte, z: Byte, rest: seq<Byte>)
    requires Scan(Padded(Unpadded(rest)), 0, 0, 0) == Ok(rest)
    ensures Scan(Padded(Unpadded([x, y, z] + rest)), 0, 0, 0) == Ok([x, y, z] + rest)
  {
    var head := [Symbol(x / 4), Symbol(x % 4 * 16 + y / 16), Symbol(y % 16 * 4 + z / 64), Symbol(z % 64)];
    assert ([x, y, z] + rest)[3..] == rest;
    assert Unpadded([x, y, z] + rest) == head + Unpadded(rest);
    PaddedGroup(head, Unpadded(rest));
    ScanGroup(x, y, z, Padded(Unpadded(rest)));
  }

  lemma {:induction false} ScanRoundTrip(b: seq<Byte>)
    ensures Scan(Padded(Unpadded(b)), 0, 0, 0) == Ok(b)
  {
    if b == [] {
      assert Padded(Unpadded(b)) == [];
    } else if |b| == 1 {
      assert b == [b[0]];
      RoundTripOne(b[0]);
    } else if |b| == 2 {
      assert b == [b[0], b[1]];
      RoundTripTwo(b[0], b[1]);
    } else {
      ScanRoundTrip(b[3..]);
      ScanMore(b[0], b[1], b[2], b[3..]);
      assert [b[0], b[1], b[2]] + b[3..] == b;
    }
  }
}
