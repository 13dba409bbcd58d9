/** Unpadded base64url, section 5 of RFC 4648, as encoding/base64's RawURLEncoding:
    the decoder skips line breaks and ignores the unused bits of a final group. */
module Base64Url {
  import opened Wrappers

  type byte = n: int | 0 <= n < 256

  function Symbol(n: nat): char
    requires n < 64
  {
    if n < 26 then ('A' as int + n) as char
    else if n < 52 then ('a' as int + n - 26) as char
    else if n < 62 then ('0' as int + n - 52) as char
    else if n == 62 then '-' else '_'
  }

  function Digit(c: char): (d: Option<nat>)
    ensures d.Some? ==> d.value < 64 && Symbol(d.value) == c
  {
    if 'A' <= c <= 'Z' then Some(c as int - 'A' as int)
    else if 'a' <= c <= 'z' then Some(c as int - 'a' as int + 26)
    else if '0' <= c <= '9' then Some(c as int - '0' as int + 52)
    else if c == '-' then Some(62)
    else if c == '_' then Some(63)
    else None
  }

  lemma DigitOfSymbol(n: nat)
    requires n < 64
    ensures Digit(Symbol(n)) == Some(n) && Symbol(n) !in "\r\n"
  {
  }

  function Encode(b: seq<byte>): string {
    if |b| == 0 then ""
    else if |b| == 1 then [Symbol(b[0] / 4), Symbol(b[0] % 4 * 16)]
    else if |b| == 2 then [Symbol(b[0] / 4), Symbol(b[0] % 4 * 16 + b[1] / 16), Symbol(b[1] % 16 * 4)]
    else
      [Symbol(b[0] / 4), Symbol(b[0] % 4 * 16 + b[1] / 16), Symbol(b[1] % 16 * 4 + b[2] / 64), Symbol(b[2] % 64)]
      + Encode(b[3..])
  }

  function WithoutBreaks(s: string): string {
    if s == "" then ""
    else (if s[0] in "\r\n" then "" else [s[0]]) + WithoutBreaks(s[1..])
  }

  function DecodeDigits(s: string): Option<seq<byte>> {
    if s == "" then Some([])
    else if |s| == 1 then None
    else
      var d0, d1 := Digit(s[0]), Digit(s[1]);
      if d0.None? || d1.None? then None
      else
        var b0: byte := d0.value * 4 + d1.value / 16;
        if |s| == 2 then Some([b0])
        else
          var d2 := Digit(s[2]);
          if d2.None? then None
          else
            var b1: byte := d1.value % 16 * 16 + d2.value / 4;
            if |s| == 3 then Some([b0, b1])
            else
              var d3 := Digit(s[3]);
              if d3.None? then None
              else
                var b2: byte := d2.value % 4 * 64 + d3.value;
                match DecodeDigits(s[4..])
                case None => None
                case Some(rest) => Some([b0, b1, b2] + rest)
  }

  function Decode(s: string): Option<seq<byte>> {
    DecodeDigits(WithoutBreaks(s))
  }

  lemma {:induction false} EncodedSymbols(b: seq<byte>)
    ensures forall i :: 0 <= i < |Encode(b)| ==> Encode(b)[i] !in "\r\n"
  {
    forall n: nat | n < 64
      ensures Symbol(n) !in "\r\n"
    {
      DigitOfSymbol(n);
    }
    if |b| >= 3 {
      EncodedSymbols(b[3..]);
    }
  }

  lemma {:induction false} NothingToSkip(s: string)
    requires forall i :: 0 <= i < |s| ==> s[i] !in "\r\n"
    ensures WithoutBreaks(s) == s
  {
    if s != "" {
      NothingToSkip(s[1..]);
    }
  }

  /** Every key survives being stored. */
  lemma DecodeEncode(b: seq<byte>)
    ensures Decode(Encode(b)) == Some(b)
  {
    EncodedSymbols(b);
    NothingToSkip(Encode(b));
    DigitsRoundTrip(b);
  }

  lemma FullGroup(d0: nat, d1: nat, d2: nat, d3: nat, rest: string)
    requires d0 < 64 && d1 < 64 && d2 < 64 && d3 < 64
    ensures var s := [Symbol(d0), Symbol(d1), Symbol(d2), Symbol(d3)] + rest;
      DecodeDigits(s) ==
        match DecodeDigits(rest)
        case None => None
        case Some(bytes) => Some([d0 * 4 + d1 / 16, d1 % 16 * 16 + d2 / 4, d2 % 4 * 64 + d3] + bytes)
  {
    DigitOfSymbol(d0);
    DigitOfSymbol(d1);
    DigitOfSymbol(d2);
    DigitOfSymbol(d3);
    assert ([Symbol(d0), Symbol(d1), Symbol(d2), Symbol(d3)] + rest)[4..] == rest;
  }

  lemma OneByteGroup(b0: byte)
    ensures DecodeDigits(Encode([b0])) == Some([b0])
  {
    DigitOfSymbol(b0 / 4);
    DigitOfSymbol(b0 % 4 * 16);
  }

  lemma TwoByteGroup(b0: byte, b1: byte)
    ensures DecodeDigits(Encode([b0, b1])) == Some([b0, b1])
  {
    DigitOfSymbol(b0 / 4);
    DigitOfSymbol(b0 % 4 * 16 + b1 / 16);
    DigitOfSymbol(b1 % 16 * 4);
  }

  lemma ThreeByteGroup(b0: byte, b1: byte, b2: byte, rest: seq<byte>)
    requires DecodeDigits(Encode(rest)) == Some(rest)
    ensures DecodeDigits(Encode([b0, b1, b2] + rest)) == Some([b0, b1, b2] + rest)
  {
    var d0, d1, d2, d3 := b0 / 4, b0 % 4 * 16 + b1 / 16, b1 % 16 * 4 + b2 / 64, b2 % 64;
    FullGroup(d0, d1, d2, d3, Encode(rest));
    assert d0 * 4 + d1 / 16 == b0 && d1 % 16 * 16 + d2 / 4 == b1 && d2 % 4 * 64 + d3 == b2;
    assert ([b0, b1, b2] + rest)[3..] == rest;
    assert Encode([b0, b1, b2] + rest) == [Symbol(d0), Symbol(d1), Symbol(d2), Symbol(d3)] + Encode(rest);
  }

  lemma {:induction false} DigitsRoundTrip(b: seq<byte>)
    ensures DecodeDigits(Encode(b)) == Some(b)
  {
    if |b| == 0 {
    } else if |b| == 1 {
      OneByteGroup(b[0]);
      assert b == [b[0]];
    } else if |b| == 2 {
      TwoByteGroup(b[0], b[1]);
      assert b == [b[0], b[1]];
    } else {
      DigitsRoundTrip(b[3..]);
      ThreeByteGroup(b[0], b[1], b[2], b[3..]);
      assert b == [b[0], b[1], b[2]] + b[3..];
    }
  }

  lemma EncodeInjective(a: seq<byte>, b: seq<byte>)
    requires Encode(a) == Encode(b)
    ensures a == b
  {
    DecodeEncode(a);
    DecodeEncode(b);
  }
}
