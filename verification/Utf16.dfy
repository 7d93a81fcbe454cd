/** UTF-16, big-endian (section 2 of RFC 2781). Dafny's `char` is a Unicode scalar value. */
module Utf16 {
  import opened Common
  import opened Base64

  const BMP_END := 0x1_0000
  const HIGH_START := 0xD800
  const LOW_START := 0xDC00
  const SURROGATE_END := 0xE000

  function UnitBytes(w: int): seq<Byte>
    requires 0 <= w < BMP_END
  {
    [w / 256, w % 256]
  }

  function Unit(b: seq<Byte>): (w: int)
    requires |b| >= 2
    ensures 0 <= w < BMP_END
  {
    var high: int, low: int := b[0], b[1];
    high * 256 + low
  }

  function EncodeChar(c: char): (b: seq<Byte>)
    ensures |b| == 2 || |b| == 4
  {
    var n := c as int;
    if n < BMP_END then UnitBytes(n)
    else UnitBytes(HIGH_START + (n - BMP_END) / 1024) + UnitBytes(LOW_START + (n - BMP_END) % 1024)
  }

  function Encode(u: string): seq<Byte> {
    if u == "" then [] else EncodeChar(u[0]) + Encode(u[1..])
  }

  /** `bytes.decode("utf-16-be")`, which rejects lone surrogates and odd lengths. */
  function Decode(b: seq<Byte>): Result<string> {
    if b == [] then Ok("")
    else if |b| == 1 then Err(BadUtf16)
    else
      var w := Unit(b);
      if w < HIGH_START || SURROGATE_END <= w then
        Prepend([w as char], Decode(b[2..]))
      else if LOW_START <= w || |b| < 4 then Err(BadUtf16)
      else
        var low := Unit(b[2..]);
        if LOW_START <= low < SURROGATE_END then
          Prepend([(BMP_END + (w - HIGH_START) * 1024 + (low - LOW_START)) as char], Decode(b[4..]))
        else Err(BadUtf16)
  }

  lemma DecodeFirst(c: char, rest: seq<Byte>)
    ensures Decode(EncodeChar(c) + rest) == Prepend([c], Decode(rest))
  {
    var b := EncodeChar(c) + rest;
    assert b[|EncodeChar(c)|..] == rest;
    if c as int >= BMP_END {
      var v := c as int - BMP_END;
      assert Unit(b) == HIGH_START + v / 1024;
      assert Unit(b[2..]) == LOW_START + v % 1024;
    }
  }

  lemma {:induction false} RoundTrip(u: string)
    ensures Decode(Encode(u)) == Ok(u)
  {
    if u != "" {
      DecodeFirst(u[0], Encode(u[1..]));
      RoundTrip(u[1..]);
      assert [u[0]] + u[1..] == u;
    }
  }
}
