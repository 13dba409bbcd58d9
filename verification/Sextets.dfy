/** Base64url, bit by bit: the alphabet and the grouping of sections 4 and 5 of RFC 4648. */
module Sextets {
  import opened Base64Url
  import opened PairingCodes

  const CAPITALS := "ABCDEFGHIJKLMNOPQRSTUVWXYZ"
  const LETTERS := "abcdefghijklmnopqrstuvwxyz"
  const BASE64URL := CAPITALS + LETTERS + "0123456789-_"

  /** Bits 6j to 6j + 5, zero past the end. */
  function SixBits(b: seq<byte>, j: nat): nat {
    32 * Bit(b, 6 * j) + 16 * Bit(b, 6 * j + 1) + 8 * Bit(b, 6 * j + 2)
    + 4 * Bit(b, 6 * j + 3) + 2 * Bit(b, 6 * j + 4) + Bit(b, 6 * j + 5)
  }

  lemma CapitalSymbol(n: nat)
    requires n < 26
    ensures |CAPITALS| == 26 && Symbol(n) == CAPITALS[n]
  {
  }

  lemma LetterSymbol(n: nat)
    requires 26 <= n < 52
    ensures |LETTERS| == 26 && Symbol(n) == LETTERS[n - 26]
  {
  }

  lemma SymbolInAlphabet(n: nat)
    requires n < 64
    ensures |BASE64URL| == 64 && Symbol(n) == BASE64URL[n]
  {
    if n < 26 {
      CapitalSymbol(n);
    } else if n < 52 {
      LetterSymbol(n);
    } else {
      assert Symbol(n) == "0123456789-_"[n - 52];
    }
  }

  lemma ByteSlices(x: byte)
    ensures x / 4 == 32 * ByteBit(x, 0) + 16 * ByteBit(x, 1) + 8 * ByteBit(x, 2) + 4 * ByteBit(x, 3) + 2 * ByteBit(x, 4) + ByteBit(x, 5)
    ensures x % 64 == 32 * ByteBit(x, 2) + 16 * ByteBit(x, 3) + 8 * ByteBit(x, 4) + 4 * ByteBit(x, 5) + 2 * ByteBit(x, 6) + ByteBit(x, 7)
  {
    ByteIsItsBits(x);
  }

  /** The four symbols of a block of three bytes. */
  function Sextet(b0: byte, b1: byte, b2: byte, j: nat): nat
    requires j < 4
  {
    match j
    case 0 => b0 / 4
    case 1 => b0 % 4 * 16 + b1 / 16
    case 2 => b1 % 16 * 4 + b2 / 64
    case 3 => b2 % 64
  }

  lemma SixBitsOfBlock(b0: byte, b1: byte, b2: byte, j: nat)
    requires j < 4
    ensures SixBits([b0, b1, b2], j) ==
      match j
      case 0 => 32 * ByteBit(b0, 0) + 16 * ByteBit(b0, 1) + 8 * ByteBit(b0, 2) + 4 * ByteBit(b0, 3) + 2 * ByteBit(b0, 4) + ByteBit(b0, 5)
      case 1 => 32 * ByteBit(b0, 6) + 16 * ByteBit(b0, 7) + 8 * ByteBit(b1, 0) + 4 * ByteBit(b1, 1) + 2 * ByteBit(b1, 2) + ByteBit(b1, 3)
      case 2 => 32 * ByteBit(b1, 4) + 16 * ByteBit(b1, 5) + 8 * ByteBit(b1, 6) + 4 * ByteBit(b1, 7) + 2 * ByteBit(b2, 0) + ByteBit(b2, 1)
      case 3 => 32 * ByteBit(b2, 2) + 16 * ByteBit(b2, 3) + 8 * ByteBit(b2, 4) + 4 * ByteBit(b2, 5) + 2 * ByteBit(b2, 6) + ByteBit(b2, 7)
  {
  }

  lemma SextetIsSixBits(b0: byte, b1: byte, b2: byte, j: nat)
    requires j < 4
    ensures Sextet(b0, b1, b2, j) == SixBits([b0, b1, b2], j) < 64
  {
    SixBitsOfBlock(b0, b1, b2, j);
    if j == 0 {
      ByteSlices(b0);
    } else if j == 1 {
      Slices(b0);
      Slices(b1);
    } else if j == 2 {
      Slices(b1);
      Slices(b2);
    } else {
      ByteSlices(b2);
    }
  }

  lemma BitOfPadded(b: seq<byte>, c: seq<byte>, i: nat)
    requires |c| == 3 && i < 24
    requires forall k :: 0 <= k < 3 ==> c[k] == if k < |b| then b[k] else 0
    ensures Bit(b, i) == Bit(c, i)
  {
    ByteIsItsBits(0);
  }

  lemma BlockSixBits(b: seq<byte>, c: seq<byte>, j: nat)
    requires |c| == 3 && j < 4
    requires forall k :: 0 <= k < 3 ==> c[k] == if k < |b| then b[k] else 0
    ensures SixBits(b, j) == SixBits(c, j)
  {
    BitOfPadded(b, c, 6 * j);
    BitOfPadded(b, c, 6 * j + 1);
    BitOfPadded(b, c, 6 * j + 2);
    BitOfPadded(b, c, 6 * j + 3);
    BitOfPadded(b, c, 6 * j + 4);
    BitOfPadded(b, c, 6 * j + 5);
  }

  lemma BitOfRest(b: seq<byte>, i: nat)
    requires |b| >= 3
    ensures Bit(b, 24 + i) == Bit(b[3..], i)
  {
  }

  lemma SixBitsFrom(b: seq<byte>, rest: seq<byte>, p: nat, j: nat)
    requires |b| >= 3 && rest == b[3..] && j >= 4 && 6 * j == p + 24
    ensures SixBits(b, j) == 32 * Bit(rest, p) + 16 * Bit(rest, p + 1) + 8 * Bit(rest, p + 2)
                             + 4 * Bit(rest, p + 3) + 2 * Bit(rest, p + 4) + Bit(rest, p + 5)
  {
    BitOfRest(b, p);
    BitOfRest(b, p + 1);
    BitOfRest(b, p + 2);
    BitOfRest(b, p + 3);
    BitOfRest(b, p + 4);
    BitOfRest(b, p + 5);
  }

  lemma TailSixBits(b: seq<byte>, j: nat)
    requires |b| >= 3 && j >= 4
    ensures SixBits(b, j) == SixBits(b[3..], j - 4)
  {
    SixBitsFrom(b, b[3..], 6 * (j - 4), j);
  }

  lemma FirstSymbols(b: seq<byte>, z: seq<byte>, j: nat)
    requires z == b + [0, 0, 0] && j < 4 && j < |Encode(b)|
    ensures Sextet(z[0], z[1], z[2], j) < 64 && Encode(b)[j] == Symbol(Sextet(z[0], z[1], z[2], j))
  {
  }

  lemma LaterSymbols(b: seq<byte>, j: nat)
    requires j >= 4 && j < |Encode(b)|
    ensures |b| >= 3 && j - 4 < |Encode(b[3..])| && Encode(b)[j] == Encode(b[3..])[j - 4]
  {
  }

  /** Symbol j of an encoding stands for bits 6j to 6j + 5, zero-filled at the end; there are
      as many symbols as the bits need. */
  lemma {:induction false} EncodeIsSixBits(b: seq<byte>, j: nat)
    requires j < |Encode(b)|
    ensures SixBits(b, j) < 64 == |BASE64URL| && Encode(b)[j] == BASE64URL[SixBits(b, j)]
    ensures |Encode(b)| == (8 * |b| + 5) / 6
    decreases |b|
  {
    EncodeLength(b);
    if j < 4 {
      var z := b + [0, 0, 0];
      FirstSymbols(b, z, j);
      SextetIsSixBits(z[0], z[1], z[2], j);
      BlockSixBits(b, [z[0], z[1], z[2]], j);
      SymbolInAlphabet(SixBits(b, j));
    } else {
      LaterSymbols(b, j);
      TailSixBits(b, j);
      EncodeIsSixBits(b[3..], j - 4);
    }
  }

  lemma {:induction false} EncodeLength(b: seq<byte>)
    ensures |Encode(b)| == (8 * |b| + 5) / 6
  {
    if |b| >= 3 {
      EncodeLength(b[3..]);
    }
  }
}
