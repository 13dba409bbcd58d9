/** Generating a pairing code: Crockford base32 over 16 random bytes, cut to 25
    characters and hyphen-grouped. */
module PairingCodes {
  import opened Wrappers
  import opened Base64Url
  import opened Strings

  const CROCKFORD := "0123456789ABCDEFGHJKMNPQRSTVWXYZ"
  const PREFIX := "mcp-"
  const DRAW_BYTES := 16

  /** The 5-bit regrouping of one 40-bit block, section 6 of RFC 4648. */
  function Group(b0: byte, b1: byte, b2: byte, b3: byte, b4: byte): (d: seq<nat>)
    ensures |d| == 8 && forall i :: 0 <= i < 8 ==> d[i] < 32
  {
    [b0 / 8, b0 % 8 * 4 + b1 / 64, b1 / 2 % 32, b1 % 2 * 16 + b2 / 16,
     b2 % 16 * 2 + b3 / 128, b3 / 4 % 32, b3 % 4 * 8 + b4 / 32, b4 % 32]
  }

  /** Base32 digits of any byte string: a short last block is zero-filled and only
      the digits it reaches are kept. */
  function Digits(b: seq<byte>): (d: seq<nat>)
    ensures |d| == (8 * |b| + 4) / 5 && forall i :: 0 <= i < |d| ==> d[i] < 32
  {
    if b == [] then []
    else if |b| < 5 then
      var z := b + [0, 0, 0, 0];
      Group(z[0], z[1], z[2], z[3], z[4])[..(8 * |b| + 4) / 5]
    else Group(b[0], b[1], b[2], b[3], b[4]) + Digits(b[5..])
  }

  function EncodeToString(b: seq<byte>): (s: string)
    ensures |s| == (8 * |b| + 4) / 5
  {
    seq(|Digits(b)|, i requires 0 <= i < |Digits(b)| => CROCKFORD[Digits(b)[i]])
  }

  /** The 25 characters of a code, without prefix and hyphens. */
  function Body(b: seq<byte>): (s: string)
    requires |b| == DRAW_BYTES
    ensures |s| == 25
  {
    EncodeToString(b)[..25]
  }

  function Groups(s: string): (g: seq<string>)
    requires |s| == 25
    ensures |g| == 5 && forall i :: 0 <= i < 5 ==> |g[i]| == 5 && g[i] == s[5 * i..5 * i + 5]
  {
    [s[0..5], s[5..10], s[10..15], s[15..20], s[20..25]]
  }

  function CodeOf(b: seq<byte>): string
    requires |b| == DRAW_BYTES
  {
    var s := Body(b);
    PREFIX + Join(Groups(s), "-")
  }

  /** The grouping loop. */
  method GroupByFive(s: string) returns (groups: seq<string>)
    requires |s| == 25
    ensures groups == Groups(s)
  {
    groups := [];
    var i := 0;
    while i < |s|
      invariant i == 5 * |groups| && |groups| <= 5
      invariant forall k :: 0 <= k < |groups| ==> groups[k] == s[5 * k..5 * k + 5]
    {
      groups := groups + [s[i..i + 5]];
      i := i + 5;
    }
  }

  /** generatePairingCode; the draw is absent when the random source fails. */
  method GeneratePairingCode(draw: Option<seq<byte>>) returns (r: Result<string>)
    requires draw.Some? ==> |draw.value| == DRAW_BYTES
    ensures r == match draw case None => Failed case Some(b) => Ok(CodeOf(b))
  {
    if draw.None? {
      return Failed;
    }
    var groups := GroupByFive(EncodeToString(draw.value)[..25]);
    return Ok(PREFIX + Join(groups, "-"));
  }

  // The bits a code depends on.

  /** Bit i of a byte string, most significant first; zero past the end. */
  function Bit(b: seq<byte>, i: nat): nat {
    if i / 8 < |b| then ByteBit(b[i / 8], i % 8) else 0
  }

  /** Bit i of a byte: the parity after shifting right by 7 - i. */
  function ByteBit(x: byte, i: nat): nat
    requires i < 8
  {
    Shifted(x, 7 - i) % 2
  }

  function Shifted(x: nat, n: nat): nat {
    if n == 0 then x else Shifted(x, n - 1) / 2
  }

  /** Digit j is bits 5j to 5j + 4. */
  function FiveBits(b: seq<byte>, j: nat): nat {
    16 * Bit(b, 5 * j) + 8 * Bit(b, 5 * j + 1) + 4 * Bit(b, 5 * j + 2) + 2 * Bit(b, 5 * j + 3) + Bit(b, 5 * j + 4)
  }

  lemma ByteIsItsBits(x: byte)
    ensures x == 128 * ByteBit(x, 0) + 64 * ByteBit(x, 1) + 32 * ByteBit(x, 2) + 16 * ByteBit(x, 3)
              + 8 * ByteBit(x, 4) + 4 * ByteBit(x, 5) + 2 * ByteBit(x, 6) + ByteBit(x, 7)
  {
    var h1, h2, h3, h4, h5, h6, h7 := Shifted(x, 1), Shifted(x, 2), Shifted(x, 3), Shifted(x, 4),
                                      Shifted(x, 5), Shifted(x, 6), Shifted(x, 7);
    assert Shifted(x, 0) == x;
    assert h1 == x / 2 && h2 == h1 / 2 && h3 == h2 / 2 && h4 == h3 / 2 && h5 == h4 / 2 && h6 == h5 / 2 && h7 == h6 / 2;
  }

  // The slices of a byte that the regrouping takes, from its bits.

  lemma HighSlices(x: byte, c0: nat, c1: nat, c2: nat, c3: nat, c4: nat, c5: nat, c6: nat, c7: nat)
    requires x == 128 * c0 + 64 * c1 + 32 * c2 + 16 * c3 + 8 * c4 + 4 * c5 + 2 * c6 + c7
    requires c0 < 2 && c1 < 2 && c2 < 2 && c3 < 2 && c4 < 2 && c5 < 2 && c6 < 2 && c7 < 2
    ensures x / 128 == c0 && x / 64 == 2 * c0 + c1
    ensures x / 32 == 4 * c0 + 2 * c1 + c2
    ensures x / 16 == 8 * c0 + 4 * c1 + 2 * c2 + c3
    ensures x / 8 == 16 * c0 + 8 * c1 + 4 * c2 + 2 * c3 + c4
  {
  }

  lemma MiddleSlices(x: byte, c0: nat, c1: nat, c2: nat, c3: nat, c4: nat, c5: nat, c6: nat, c7: nat)
    requires x == 128 * c0 + 64 * c1 + 32 * c2 + 16 * c3 + 8 * c4 + 4 * c5 + 2 * c6 + c7
    requires c0 < 2 && c1 < 2 && c2 < 2 && c3 < 2 && c4 < 2 && c5 < 2 && c6 < 2 && c7 < 2
    ensures x / 4 % 32 == 16 * c1 + 8 * c2 + 4 * c3 + 2 * c4 + c5
    ensures x / 2 % 32 == 16 * c2 + 8 * c3 + 4 * c4 + 2 * c5 + c6
    ensures x % 32 == 16 * c3 + 8 * c4 + 4 * c5 + 2 * c6 + c7
  {
    assert x / 4 == 32 * c0 + 16 * c1 + 8 * c2 + 4 * c3 + 2 * c4 + c5;
    assert x / 2 == 64 * c0 + 32 * c1 + 16 * c2 + 8 * c3 + 4 * c4 + 2 * c5 + c6;
  }

  lemma LowSlices(x: byte, c0: nat, c1: nat, c2: nat, c3: nat, c4: nat, c5: nat, c6: nat, c7: nat)
    requires x == 128 * c0 + 64 * c1 + 32 * c2 + 16 * c3 + 8 * c4 + 4 * c5 + 2 * c6 + c7
    requires c0 < 2 && c1 < 2 && c2 < 2 && c3 < 2 && c4 < 2 && c5 < 2 && c6 < 2 && c7 < 2
    ensures x % 16 == 8 * c4 + 4 * c5 + 2 * c6 + c7
    ensures x % 8 == 4 * c5 + 2 * c6 + c7
    ensures x % 4 == 2 * c6 + c7 && x % 2 == c7
  {
  }

  lemma Slices(x: byte)
    ensures x / 128 == ByteBit(x, 0) && x / 64 == 2 * ByteBit(x, 0) + ByteBit(x, 1)
    ensures x / 32 == 4 * ByteBit(x, 0) + 2 * ByteBit(x, 1) + ByteBit(x, 2)
    ensures x / 16 == 8 * ByteBit(x, 0) + 4 * ByteBit(x, 1) + 2 * ByteBit(x, 2) + ByteBit(x, 3)
    ensures x / 8 == 16 * ByteBit(x, 0) + 8 * ByteBit(x, 1) + 4 * ByteBit(x, 2) + 2 * ByteBit(x, 3) + ByteBit(x, 4)
    ensures x / 4 % 32 == 16 * ByteBit(x, 1) + 8 * ByteBit(x, 2) + 4 * ByteBit(x, 3) + 2 * ByteBit(x, 4) + ByteBit(x, 5)
    ensures x / 2 % 32 == 16 * ByteBit(x, 2) + 8 * ByteBit(x, 3) + 4 * ByteBit(x, 4) + 2 * ByteBit(x, 5) + ByteBit(x, 6)
    ensures x % 32 == 16 * ByteBit(x, 3) + 8 * ByteBit(x, 4) + 4 * ByteBit(x, 5) + 2 * ByteBit(x, 6) + ByteBit(x, 7)
    ensures x % 16 == 8 * ByteBit(x, 4) + 4 * ByteBit(x, 5) + 2 * ByteBit(x, 6) + ByteBit(x, 7)
    ensures x % 8 == 4 * ByteBit(x, 5) + 2 * ByteBit(x, 6) + ByteBit(x, 7)
    ensures x % 4 == 2 * ByteBit(x, 6) + ByteBit(x, 7) && x % 2 == ByteBit(x, 7)
  {
    ByteIsItsBits(x);
    var c0, c1, c2, c3 := ByteBit(x, 0), ByteBit(x, 1), ByteBit(x, 2), ByteBit(x, 3);
    var c4, c5, c6, c7 := ByteBit(x, 4), ByteBit(x, 5), ByteBit(x, 6), ByteBit(x, 7);
    HighSlices(x, c0, c1, c2, c3, c4, c5, c6, c7);
    MiddleSlices(x, c0, c1, c2, c3, c4, c5, c6, c7);
    LowSlices(x, c0, c1, c2, c3, c4, c5, c6, c7);
  }

  /** The bits of a block, byte by byte. */
  lemma FiveBitsOfGroup(b0: byte, b1: byte, b2: byte, b3: byte, b4: byte, j: nat)
    requires j < 8
    ensures FiveBits([b0, b1, b2, b3, b4], j) ==
      match j
      case 0 => 16 * ByteBit(b0, 0) + 8 * ByteBit(b0, 1) + 4 * ByteBit(b0, 2) + 2 * ByteBit(b0, 3) + ByteBit(b0, 4)
      case 1 => 16 * ByteBit(b0, 5) + 8 * ByteBit(b0, 6) + 4 * ByteBit(b0, 7) + 2 * ByteBit(b1, 0) + ByteBit(b1, 1)
      case 2 => 16 * ByteBit(b1, 2) + 8 * ByteBit(b1, 3) + 4 * ByteBit(b1, 4) + 2 * ByteBit(b1, 5) + ByteBit(b1, 6)
      case 3 => 16 * ByteBit(b1, 7) + 8 * ByteBit(b2, 0) + 4 * ByteBit(b2, 1) + 2 * ByteBit(b2, 2) + ByteBit(b2, 3)
      case 4 => 16 * ByteBit(b2, 4) + 8 * ByteBit(b2, 5) + 4 * ByteBit(b2, 6) + 2 * ByteBit(b2, 7) + ByteBit(b3, 0)
      case 5 => 16 * ByteBit(b3, 1) + 8 * ByteBit(b3, 2) + 4 * ByteBit(b3, 3) + 2 * ByteBit(b3, 4) + ByteBit(b3, 5)
      case 6 => 16 * ByteBit(b3, 6) + 8 * ByteBit(b3, 7) + 4 * ByteBit(b4, 0) + 2 * ByteBit(b4, 1) + ByteBit(b4, 2)
      case 7 => 16 * ByteBit(b4, 3) + 8 * ByteBit(b4, 4) + 4 * ByteBit(b4, 5) + 2 * ByteBit(b4, 6) + ByteBit(b4, 7)
  {
  }

  lemma GroupBitsLow(b0: byte, b1: byte, b2: byte, b3: byte, b4: byte, j: nat)
    requires 0 <= j < 4
    ensures Group(b0, b1, b2, b3, b4)[j] == FiveBits([b0, b1, b2, b3, b4], j)
  {
    FiveBitsOfGroup(b0, b1, b2, b3, b4, j);
    Slices(b0);
    Slices(b1);
    Slices(b2);
  }

  lemma GroupBitsMiddle(b0: byte, b1: byte, b2: byte, b3: byte, b4: byte, j: nat)
    requires 4 <= j < 6
    ensures Group(b0, b1, b2, b3, b4)[j] == FiveBits([b0, b1, b2, b3, b4], j)
  {
    FiveBitsOfGroup(b0, b1, b2, b3, b4, j);
    Slices(b2);
    Slices(b3);
  }

  lemma GroupBitsHigh(b0: byte, b1: byte, b2: byte, b3: byte, b4: byte, j: nat)
    requires 6 <= j < 8
    ensures Group(b0, b1, b2, b3, b4)[j] == FiveBits([b0, b1, b2, b3, b4], j)
  {
    FiveBitsOfGroup(b0, b1, b2, b3, b4, j);
    Slices(b3);
    Slices(b4);
  }

  lemma GroupBits(b0: byte, b1: byte, b2: byte, b3: byte, b4: byte, j: nat)
    requires j < 8
    ensures Group(b0, b1, b2, b3, b4)[j] == FiveBits([b0, b1, b2, b3, b4], j)
  {
    if j < 4 {
      GroupBitsLow(b0, b1, b2, b3, b4, j);
    } else if j < 6 {
      GroupBitsMiddle(b0, b1, b2, b3, b4, j);
    } else {
      GroupBitsHigh(b0, b1, b2, b3, b4, j);
    }
  }

  lemma BitAgrees(b: seq<byte>, c: seq<byte>, i: nat)
    requires |c| == 5 && i < 40
    requires forall k :: 0 <= k < 5 ==> c[k] == if k < |b| then b[k] else 0
    ensures Bit(b, i) == Bit(c, i)
  {
    ByteIsItsBits(0);
  }

  lemma BlockAgrees(b: seq<byte>, c: seq<byte>, j: nat)
    requires |c| == 5 && j < 8
    requires forall k :: 0 <= k < 5 ==> c[k] == if k < |b| then b[k] else 0
    ensures FiveBits(b, j) == FiveBits(c, j)
  {
    BitAgrees(b, c, 5 * j);
    BitAgrees(b, c, 5 * j + 1);
    BitAgrees(b, c, 5 * j + 2);
    BitAgrees(b, c, 5 * j + 3);
    BitAgrees(b, c, 5 * j + 4);
  }

  lemma BitOfTail(b: seq<byte>, i: nat)
    requires |b| >= 5
    ensures Bit(b, 40 + i) == Bit(b[5..], i)
  {
  }

  lemma {:induction false} DigitIsFiveBits(b: seq<byte>, j: nat)
    requires j < |Digits(b)|
    ensures Digits(b)[j] == FiveBits(b, j)
  {
    if |b| < 5 || j < 8 {
      var z := b + [0, 0, 0, 0];
      GroupBits(z[0], z[1], z[2], z[3], z[4], j);
      BlockAgrees(b, [z[0], z[1], z[2], z[3], z[4]], j);
    } else {
      DigitIsFiveBits(b[5..], j - 8);
      TailAgrees(b, j);
    }
  }

  lemma TailAgrees(b: seq<byte>, j: nat)
    requires |b| >= 5 && j >= 8
    ensures FiveBits(b, j) == FiveBits(b[5..], j - 8)
  {
    BitOfTail(b, 5 * j - 40);
    BitOfTail(b, 5 * j - 39);
    BitOfTail(b, 5 * j - 38);
    BitOfTail(b, 5 * j - 37);
    BitOfTail(b, 5 * j - 36);
  }

  /** Which digit a letter is, as an offset from its character code. */
  function Offset(c: char): nat {
    if c <= '9' then 48 else if c <= 'H' then 55 else if c <= 'K' then 56 else if c <= 'N' then 57 else if c <= 'T' then 58 else 59
  }

  lemma CrockfordChars(i: nat)
    requires i < |CROCKFORD|
    ensures var c := CROCKFORD[i];
      ('0' <= c <= '9' || ('A' <= c <= 'Z' && c != 'I' && c != 'L' && c != 'O' && c != 'U')) && c as int == i + Offset(c)
  {
  }

  lemma CrockfordHas(c: char)
    requires '0' <= c <= '9' || ('A' <= c <= 'Z' && c != 'I' && c != 'L' && c != 'O' && c != 'U')
    ensures 0 <= c as int - Offset(c) < |CROCKFORD| && CROCKFORD[c as int - Offset(c)] == c
  {
  }

  /** The alphabet is the digits and the capital letters but I, L, O and U, in order. */
  lemma CrockfordExactly()
    ensures forall c :: c in CROCKFORD <==>
      '0' <= c <= '9' || ('A' <= c <= 'Z' && c != 'I' && c != 'L' && c != 'O' && c != 'U')
    ensures |CROCKFORD| == 32 && forall i, j :: 0 <= i < j < 32 ==> CROCKFORD[i] < CROCKFORD[j]
  {
    forall i, j | 0 <= i < j < 32
      ensures CROCKFORD[i] < CROCKFORD[j]
    {
      AlphabetAscending(i, j);
    }
    forall c
      ensures c in CROCKFORD <==>
              '0' <= c <= '9' || ('A' <= c <= 'Z' && c != 'I' && c != 'L' && c != 'O' && c != 'U')
    {
      if c in CROCKFORD {
        var i :| 0 <= i < |CROCKFORD| && CROCKFORD[i] == c;
        CrockfordChars(i);
      } else if '0' <= c <= '9' || ('A' <= c <= 'Z' && c != 'I' && c != 'L' && c != 'O' && c != 'U') {
        CrockfordHas(c);
      }
    }
  }

  /** A code, character by character: mcp, and five groups of five, each after a hyphen, in
      which the alphabet shows the draw's first 125 bits, five to a character. */
  lemma CodeCharacters(b: seq<byte>)
    requires |b| == DRAW_BYTES
    ensures |CodeOf(b)| == 33 && CodeOf(b)[..3] == "mcp"
    ensures forall g :: 0 <= g < 5 ==> CodeOf(b)[3 + 6 * g] == '-'
    ensures forall j :: 0 <= j < 25 ==>
      FiveBits(b, j) < 32 == |CROCKFORD| && CodeOf(b)[4 + 6 * (j / 5) + j % 5] == CROCKFORD[FiveBits(b, j)]
  {
    var g := Groups(Body(b));
    JoinFive(g);
    forall j: nat | j < 25
      ensures FiveBits(b, j) < 32 == |CROCKFORD| && CodeOf(b)[4 + 6 * (j / 5) + j % 5] == CROCKFORD[FiveBits(b, j)]
    {
      CodeCharacter(b, j);
    }
  }

  lemma CodeCharacter(b: seq<byte>, j: nat)
    requires |b| == DRAW_BYTES && j < 25
    ensures |CodeOf(b)| == 33 && FiveBits(b, j) < 32 == |CROCKFORD|
    ensures CodeOf(b)[4 + 6 * (j / 5) + j % 5] == CROCKFORD[FiveBits(b, j)]
  {
    var g := Groups(Body(b));
    BodyAt(b, j);
    GroupedAt(g, j / 5, j % 5);
    assert g[j / 5][j % 5] == Body(b)[j];
  }

  lemma GroupedAt(g: seq<string>, k: nat, i: nat)
    requires |g| == 5 && (forall k :: 0 <= k < 5 ==> |g[k]| == 5) && k < 5 && i < 5
    ensures |PREFIX + Join(g, "-")| == 33 && (PREFIX + Join(g, "-"))[4 + 6 * k + i] == g[k][i]
  {
    JoinFive(g);
  }

  lemma JoinFive(g: seq<string>)
    requires |g| == 5 && forall i :: 0 <= i < 5 ==> |g[i]| == 5
    ensures Join(g, "-") == g[0] + "-" + g[1] + "-" + g[2] + "-" + g[3] + "-" + g[4]
  {
    assert Join(g[4..], "-") == g[4];
    assert Join(g[3..], "-") == g[3] + "-" + g[4] by {
      assert g[3..][1..] == g[4..];
    }
    assert Join(g[2..], "-") == g[2] + "-" + (g[3] + "-" + g[4]) by {
      assert g[2..][1..] == g[3..];
    }
    assert Join(g[1..], "-") == g[1] + "-" + (g[2] + "-" + (g[3] + "-" + g[4])) by {
      assert g[1..][1..] == g[2..];
    }
  }

  // Which draws share a code.

  lemma AlphabetInjective()
    ensures |CROCKFORD| == 32
    ensures forall i, j :: 0 <= i < j < 32 ==> CROCKFORD[i] != CROCKFORD[j]
  {
    forall i, j | 0 <= i < j < 32
      ensures CROCKFORD[i] < CROCKFORD[j]
    {
      AlphabetAscending(i, j);
    }
  }

  lemma {:induction false} AlphabetAscending(i: nat, j: nat)
    requires i < j < 32
    ensures CROCKFORD[i] < CROCKFORD[j]
    decreases j - i
  {
    assert forall k :: 0 <= k < 31 ==> CROCKFORD[k] < CROCKFORD[k + 1];
    if i + 1 < j {
      AlphabetAscending(i + 1, j);
    }
  }

  predicate AgreeOn125Bits(a: seq<byte>, b: seq<byte>) {
    forall i :: 0 <= i < 125 ==> Bit(a, i) == Bit(b, i)
  }

  lemma FiveBitsInjective(a0: nat, a1: nat, a2: nat, a3: nat, a4: nat, b0: nat, b1: nat, b2: nat, b3: nat, b4: nat)
    requires a1 < 2 && a2 < 2 && a3 < 2 && a4 < 2 && b1 < 2 && b2 < 2 && b3 < 2 && b4 < 2
    requires 16 * a0 + 8 * a1 + 4 * a2 + 2 * a3 + a4 == 16 * b0 + 8 * b1 + 4 * b2 + 2 * b3 + b4
    ensures a0 == b0 && a1 == b1 && a2 == b2 && a3 == b3 && a4 == b4
  {
  }

  lemma FiveBitsDetermineBits(a: seq<byte>, b: seq<byte>, j: nat)
    ensures FiveBits(a, j) == FiveBits(b, j)
      <==> forall i :: 5 * j <= i < 5 * j + 5 ==> Bit(a, i) == Bit(b, i)
  {
    var p := 5 * j;
    if FiveBits(a, j) == FiveBits(b, j) {
      FiveBitsInjective(Bit(a, p), Bit(a, p + 1), Bit(a, p + 2), Bit(a, p + 3), Bit(a, p + 4),
                        Bit(b, p), Bit(b, p + 1), Bit(b, p + 2), Bit(b, p + 3), Bit(b, p + 4));
    }
  }

  lemma BodyAt(b: seq<byte>, j: nat)
    requires |b| == DRAW_BYTES && j < 25
    ensures FiveBits(b, j) < 32 == |CROCKFORD| && Body(b)[j] == CROCKFORD[FiveBits(b, j)]
  {
    DigitIsFiveBits(b, j);
    AlphabetInjective();
  }

  /** Hyphens and prefix hide nothing. */
  lemma CodeShowsBody(a: seq<byte>, b: seq<byte>)
    requires |a| == |b| == DRAW_BYTES && CodeOf(a) == CodeOf(b)
    ensures Body(a) == Body(b)
  {
    var g, h := Groups(Body(a)), Groups(Body(b));
    assert CodeOf(a)[4..] == Join(g, "-") && CodeOf(b)[4..] == Join(h, "-");
    JoinInjective(g, h, "-");
    forall j | 0 <= j < 25
      ensures Body(a)[j] == Body(b)[j]
    {
      assert g[j / 5][j % 5] == h[j / 5][j % 5];
    }
  }

  /** Two draws give the same pairing code exactly when they agree on their first 125 bits. */
  lemma CodeInjectivity(a: seq<byte>, b: seq<byte>)
    requires |a| == |b| == DRAW_BYTES
    ensures CodeOf(a) == CodeOf(b) <==> AgreeOn125Bits(a, b)
    ensures Body(a) == Body(b) <==> AgreeOn125Bits(a, b)
  {
    AlphabetInjective();
    forall j: nat | j < 25
      ensures Body(a)[j] == Body(b)[j] <==> FiveBits(a, j) == FiveBits(b, j)
      ensures FiveBits(a, j) == FiveBits(b, j)
        <==> forall i :: 5 * j <= i < 5 * j + 5 ==> Bit(a, i) == Bit(b, i)
    {
      BodyAt(a, j);
      BodyAt(b, j);
      FiveBitsDetermineBits(a, b, j);
    }
    if Body(a) == Body(b) {
      forall i: nat | i < 125
        ensures Bit(a, i) == Bit(b, i)
      {
        assert Body(a)[i / 5] == Body(b)[i / 5];
        assert FiveBits(a, i / 5) == FiveBits(b, i / 5);
      }
    }
    if CodeOf(a) == CodeOf(b) {
      CodeShowsBody(a, b);
    }
  }
}
