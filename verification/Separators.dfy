/** When translating the hierarchy separator before decoding a mailbox name gives the same
    as translating it after (mail/sync.py). */
module Separators {
  import opened Common
  import opened ModifiedUtf7

  /** The far side decodes and then translates; the local side decodes a name
      already translated on disk. */
  ghost predicate Commutes(u: string, c: char) {
    Decode(ReplaceChar(Encode(u), c, '.')) == Ok(ReplaceChar(u, c, '.'))
  }

  lemma UnprintableSeparator(c: char)
    requires !Printable(c)
    ensures !Commutes([c], c)
  {
    EncodeIsPrintable([c]);
    ReplaceCharAbsent(Encode([c]), c, '.');
    RoundTrip([c]);
    assert ReplaceChar([c], c, '.')[0] == '.';
  }

  /** A name of one shifted character whose run contains the symbol of `v`. */
  function Witness(v: Base64.Sextet): char { (0x4000 + 16 * v) as char }

  function ShiftedSymbol(v: Base64.Sextet): char { if v == 63 then ',' else Base64.Symbol(v) }

  lemma WitnessNumbers(v: int)
    requires 0 <= v < 64
    ensures var n, x, y := 0x4000 + 16 * v, 64 + v / 16, v % 16 * 16;
            && n / 256 == x && n % 256 == y && x < 256
            && x / 4 == 16 && x % 4 * 16 + y / 16 == v && y % 16 * 4 == 0
  {
  }

  lemma WitnessBytes(v: Base64.Sextet)
    ensures var n := 0x4000 + 16 * v;
            0 <= n / 256 < 256 && Base64.Unpadded([n / 256, n % 256]) == ['Q', Base64.Symbol(v), 'A']
  {
    var x, y: Base64.Byte := 64 + v / 16, v % 16 * 16;
    WitnessNumbers(v);
    assert Base64.Unpadded([x, y]) == [Base64.Symbol(x / 4), Base64.Symbol(x % 4 * 16 + y / 16), Base64.Symbol(y % 16 * 4)];
  }

  lemma WitnessRun(v: Base64.Sextet)
    ensures Encode([Witness(v)]) == ['&', 'Q', ShiftedSymbol(v), 'A', '-']
  {
    var u := [Witness(v)];
    var n := 0x4000 + 16 * v;
    var bytes := Utf16.Encode(u);
    assert RunLength(u) == 1 && u[..1] == u && u[1..] == "";
    assert Utf16.EncodeChar(u[0]) == [n / 256, n % 256];
    assert bytes == [n / 256, n % 256] by { assert Utf16.Encode("") == []; }
    hide Utf16.Encode;
    WitnessBytes(v);
    assert Shifted(u) == ['Q', ShiftedSymbol(v), 'A'];
  }

  /** The dash that ends the run is translated away, so the run is never found. */
  lemma DashSeparator()
    ensures !Commutes([Witness(0)], '-')
  {
    WitnessRun(0);
    var s := ReplaceChar(Encode([Witness(0)]), '-', '.');
    assert s == "&QAA.";
    assert Decode(s) == Ok(s);
  }

  // ---- A separator in the shifted alphabet -------------------------------------------------

  /** The first symbol of the run of `Pair(v)`, other than the symbol of `v`. */
  function Head(v: Base64.Sextet): Base64.Sextet { if v == 16 then 32 else 16 }

  /** A name whose run holds the symbol of `v` three times out of six: without them it is
      still legal, and decodes to something else. */
  function Pair(v: Base64.Sextet): string {
    if v == 0 then [0x4000 as char, 0x4001 as char] else [(1024 * Head(v) + 16 * v) as char, (260 * v) as char]
  }

  function PairRun(v: Base64.Sextet): string {
    if v == 0 then ['Q', 'A', 'B', 'A', 'A', 'Q']
    else [Base64.Symbol(Head(v)), ShiftedSymbol(v), 'A', ShiftedSymbol(v), ShiftedSymbol(v), 'A']
  }

  lemma TwoUnits(m: int, n: int)
    requires 0 <= m < 0xD800 && 0 <= n < 0xD800
    ensures Utf16.Encode([m as char, n as char]) == [m / 256, m % 256, n / 256, n % 256]
  {
    var u := [m as char, n as char];
    assert u[1..] == [n as char] && u[1..][1..] == "" && Utf16.Encode("") == [];
    assert Utf16.EncodeChar(m as char) == [m / 256, m % 256] && Utf16.EncodeChar(n as char) == [n / 256, n % 256];
  }

  lemma FourBytes(a: Base64.Byte, b: Base64.Byte, c: Base64.Byte, d: Base64.Byte)
    ensures Base64.Unpadded([a, b, c, d]) ==
            [Base64.Symbol(a / 4), Base64.Symbol(a % 4 * 16 + b / 16), Base64.Symbol(b % 16 * 4 + c / 64),
             Base64.Symbol(c % 64), Base64.Symbol(d / 4), Base64.Symbol(d % 4 * 16)]
  {
    assert [a, b, c, d][3..] == [d];
  }

  lemma PairNumbers(v: int, h: int)
    requires 0 < v < 64 && (h == 16 || h == 32)
    ensures var m, n := 1024 * h + 16 * v, 260 * v;
            && m / 256 == 4 * h + v / 16 && m % 256 == v % 16 * 16 && n / 256 == v && n % 256 == 4 * v
  {
  }

  lemma SixNumbers(v: int, h: int)
    requires 0 < v < 64 && (h == 16 || h == 32)
    ensures var a, b, c, d := 4 * h + v / 16, v % 16 * 16, v, 4 * v;
            && a / 4 == h && a % 4 * 16 + b / 16 == v && b % 16 * 4 + c / 64 == 0
            && c % 64 == v && d / 4 == v && d % 4 * 16 == 0
  {
  }

  lemma PairSymbols(v: Base64.Sextet)
    requires v > 0
    ensures Base64.Unpadded(Utf16.Encode(Pair(v))) ==
            [Base64.Symbol(Head(v)), Base64.Symbol(v), 'A', Base64.Symbol(v), Base64.Symbol(v), 'A']
  {
    hide Base64.Unpadded, Utf16.Encode;
    assert Base64.Symbol(0) == 'A';
    hide Base64.Symbol;
    var h: int, w: int := Head(v), v;
    PairNumbers(w, h);
    TwoUnits(1024 * h + 16 * w, 260 * w);
    SixNumbers(w, h);
    FourBytes(4 * h + w / 16, w % 16 * 16, w, 4 * w);
  }

  lemma ZeroSymbols()
    ensures Base64.Unpadded(Utf16.Encode(Pair(0))) == ['Q', 'A', 'B', 'A', 'A', 'Q']
  {
    hide Base64.Unpadded, Utf16.Encode;
    assert Base64.Symbol(0) == 'A' && Base64.Symbol(1) == 'B' && Base64.Symbol(16) == 'Q';
    TwoUnits(0x4000, 0x4001);
    FourBytes(64, 0, 64, 1);
  }

  lemma PairEncodes(v: Base64.Sextet)
    ensures Encode(Pair(v)) == ['&'] + PairRun(v) + ['-']
  {
    hide Base64.Unpadded, Utf16.Encode;
    var u := Pair(v);
    if v == 0 {
      ZeroSymbols();
    } else {
      PairSymbols(v);
    }
    assert Shifted(u) == PairRun(v);
    assert RunLength(u) == 2 by {
      assert !Printable(u[0]) && !Printable(u[1]);
      assert u[1..] == [u[1]] && u[1..][1..] == "";
    }
    assert u[..2] == u && u[2..] == "" && Encode("") == "";
  }

  lemma ScanDot(rest: string, quad: nat, left: nat)
    requires quad < 4 && left < Base64.Room(quad)
    ensures Base64.Scan(['.'] + rest, quad, left, 0) == Base64.Scan(rest, quad, left, 0)
  {
    assert (['.'] + rest)[1..] == rest && Base64.Value('.') == None;
  }

  /** The last of three symbols, behind two dots, and its padding. */
  lemma ScanLast(z: Base64.Sextet, left: nat)
    requires left < 16
    ensures Base64.Scan(['.'] + (['.'] + ([Base64.Symbol(z)] + ['=', '='])), 2, left, 0) == Ok([left * 16 + z / 4])
  {
    var end := ['=', '='];
    assert Base64.Scan(end, 3, z % 4, 0) == Ok([]);
    hide Base64.Scan, Base64.Symbol;
    ScanDot(['.'] + ([Base64.Symbol(z)] + end), 2, left);
    ScanDot([Base64.Symbol(z)] + end, 2, left);
    Base64.ScanSymbol(z, end, 2, left);
    var b: Base64.Byte := left * 16 + z / 4;
    assert [b] + [] == [b];
  }

  /** Three symbols with dots between them and the padding of six. */
  lemma ScanThreeLeft(x: Base64.Sextet, y: Base64.Sextet, z: Base64.Sextet)
    ensures Base64.Scan([Base64.Symbol(x)] + (['.'] + ([Base64.Symbol(y)] + (['.'] + (['.'] + ([Base64.Symbol(z)] + ['=', '=']))))),
                        0, 0, 0)
         == Ok([4 * x + y / 16, y % 16 * 16 + z / 4])
  {
    hide Base64.Scan, Base64.Symbol;
    var e := ['.'] + (['.'] + ([Base64.Symbol(z)] + ['=', '=']));
    Base64.ScanSymbol(x, ['.'] + ([Base64.Symbol(y)] + e), 0, 0);
    ScanDot([Base64.Symbol(y)] + e, 1, x);
    Base64.ScanSymbol(y, e, 1, x);
    ScanLast(z, y % 16);
    var a: Base64.Byte, b: Base64.Byte := 4 * x + y / 16, y % 16 * 16 + z / 4;
    assert [a] + [b] == [a, b];
  }

  lemma PaddedSix(t: string)
    requires |t| == 6
    ensures Base64.Padded(t) == t + ['=', '=']
  {
  }

  /** A run that lost three symbols out of six: its padding is legal for the other three. */
  lemma ThreeLeft(x: Base64.Sextet, y: Base64.Sextet, z: Base64.Sextet)
    ensures DecodeChunk([Base64.Symbol(x), '.', Base64.Symbol(y), '.', '.', Base64.Symbol(z)])
         == Utf16.Decode([4 * x + y / 16, y % 16 * 16 + z / 4])
  {
    hide Base64.Scan, Utf16.Decode;
    var p, q, r := Base64.Symbol(x), Base64.Symbol(y), Base64.Symbol(z);
    var t := [p, '.', q, '.', '.', r];
    Base64.ValueOfSymbol(x);
    Base64.ValueOfSymbol(y);
    Base64.ValueOfSymbol(z);
    hide Base64.Symbol, Base64.Value, Base64.Padded;
    assert ReplaceChar(t, ',', '/') == t;
    PaddedSix(t);
    SixAndPadding(p, q, r);
    ScanThreeLeft(x, y, z);
  }

  lemma SixAndPadding(p: char, q: char, r: char)
    requires p < 128 as char && q < 128 as char && r < 128 as char
    ensures var s := [p, '.', q, '.', '.', r] + ['=', '='];
            && s == [p] + (['.'] + ([q] + (['.'] + (['.'] + ([r] + ['=', '='])))))
            && forall c :: c in s ==> c < 128 as char
  {
  }

  lemma OneUnit(x: int, y: int)
    requires 0 <= x < 0xD8 && 0 <= y < 256
    ensures Utf16.Decode([x, y]).Ok? && |Utf16.Decode([x, y]).value| == 1
  {
    assert [x, y][2..] == [] && Utf16.Decode([]) == Ok("");
  }

  lemma DottedPair(h: char, c: char)
    requires c != h && c != 'A' && c != '&' && c != '-' && h != '-'
    ensures ReplaceChar(['&'] + [h, c, 'A', c, c, 'A'] + ['-'], c, '.') == ['&'] + [h, '.', 'A', '.', '.', 'A'] + ['-'] + []
  {
  }

  lemma DottedZero()
    ensures ReplaceChar(['&'] + PairRun(0) + ['-'], ShiftedSymbol(0), '.')
         == ['&'] + ['Q', '.', 'B', '.', '.', 'Q'] + ['-'] + []
  {
    assert PairRun(0) == ['Q', 'A', 'B', 'A', 'A', 'Q'];
  }

  /** What is left of the run when its separators are dots. */
  lemma PairMisread(v: Base64.Sextet) returns (run: string)
    ensures ReplaceChar(['&'] + PairRun(v) + ['-'], ShiftedSymbol(v), '.') == ['&'] + run + ['-'] + []
    ensures '-' !in run && run != "" && DecodeChunk(run).Ok? && |DecodeChunk(run).value| == 1
  {
    hide DecodeChunk;
    assert Base64.Symbol(0) == 'A' && Base64.Symbol(1) == 'B' && Base64.Symbol(16) == 'Q' && Base64.Symbol(32) == 'g';
    if v == 0 {
      run := ['Q', '.', 'B', '.', '.', 'Q'];
      DottedZero();
      ThreeLeft(16, 1, 16);
      OneUnit(64, 20);
    } else {
      var h: int := Head(v);
      run := [Base64.Symbol(h), '.', 'A', '.', '.', 'A'];
      DottedPair(Base64.Symbol(h), ShiftedSymbol(v));
      ThreeLeft(h, 0, 0);
      OneUnit(4 * h, 0);
    }
  }

  /** A separator in the shifted alphabet changes the name without making it illegal. */
  lemma AlphabetMisreads(v: Base64.Sextet)
    ensures ReplaceChar(Pair(v), ShiftedSymbol(v), '.') == Pair(v)
    ensures var r := Decode(ReplaceChar(Encode(Pair(v)), ShiftedSymbol(v), '.')); r.Ok? && |r.value| == 1
  {
    hide DecodeChunk, Decode, Encode;
    PairEncodes(v);
    var run := PairMisread(v);
    DecodeRun(run, DecodeChunk(run).value, []);
    DecodeNothing([]);
    assert ['&'] + run + ['-'] + [] == "&" + run + "-" + [];
    assert ShiftedSymbol(v) < 128 as char;
  }

  lemma AlphabetSeparator(c: char)
    requires InShifted(c)
    ensures exists u :: !Commutes(u, c)
  {
    var v := SextetOf(c);
    AlphabetMisreads(v);
    assert |Pair(v)| == 2 && !Commutes(Pair(v), c);
  }

  function SextetOf(c: char): (v: Base64.Sextet)
    requires InShifted(c)
    ensures ShiftedSymbol(v) == c
  {
    if c == ',' then 63 else Base64.Value(c).value
  }

  /** The two orders agree on every name exactly for the safe separators. */
  lemma SeparatorCommutes(c: char)
    ensures (forall u :: Commutes(u, c)) <==> SafeSeparator(c)
  {
    if SafeSeparator(c) {
      forall u ensures Commutes(u, c) {
        EncodeTranslated(u, c);
        RoundTrip(ReplaceChar(u, c, '.'));
      }
    } else if !Printable(c) {
      UnprintableSeparator(c);
    } else if c == '&' {
      assert ReplaceChar(Encode("&"), c, '.') == ".-";
      DecodeDirect('.', "-");
      DecodeDirect('-', "");
      assert !Commutes("&", c);
    } else if c == '-' {
      DashSeparator();
    } else {
      AlphabetSeparator(c);
    }
  }
}
