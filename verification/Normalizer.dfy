/** normalizePairing, and exactly which inputs it takes to a generated code's body. */
module Normalizer {
  import opened Base64Url
  import opened Strings
  import opened PairingCodes

  predicate IsSeparator(c: char) {
    c == '-' || c == ' '
  }

  function Strip(s: string): string {
    if s == "" then ""
    else (if IsSeparator(s[0]) then "" else [s[0]]) + Strip(s[1..])
  }

  /** Crockford's confusable letters, in lower case. */
  function Fold(c: char): char {
    if c == 'o' then '0' else if c == 'i' || c == 'l' then '1' else c
  }

  const BARE_PREFIX := "mcp"

  function NormalizePairing(s: string): string {
    var lowered := ToLower(TrimSpace(s));
    var stripped := Strip(lowered);
    var unprefixed := TrimPrefix(stripped, BARE_PREFIX);
    ToUpper(MapChars(Fold, unprefixed))
  }

  // What a person may type for a code.

  /** The typed character stands for the code's character: the same letter in either
      case, or one of O, I, L for 0, 1, 1. */
  predicate StandsFor(typed: char, c: char) {
    || typed == c
    || ('A' <= c <= 'Z' && typed as int == c as int + 32)
    || ('a' <= c <= 'z' && typed as int + 32 == c as int)
    || (c == '0' && typed in "oO")
    || (c == '1' && typed in "iIlL")
  }

  /** `typed` re-spells `t`: hyphens and spaces anywhere, the rest letter for letter. */
  predicate Spells(typed: string, t: string) {
    if typed == "" then t == ""
    else if typed[0] in "- " then Spells(typed[1..], t)
    else t != "" && StandsFor(typed[0], t[0]) && Spells(typed[1..], t[1..])
  }

  function Glyph(c: char): char {
    UpperChar(Fold(LowerChar(c)))
  }

  lemma {:induction false} SpellsByLetter(typed: string, t: string)
    ensures Spells(typed, t) <==>
      |Strip(typed)| == |t| && forall i :: 0 <= i < |t| ==> StandsFor(Strip(typed)[i], t[i])
  {
    if typed != "" {
      var rest := Strip(typed[1..]);
      if IsSeparator(typed[0]) {
        SpellsByLetter(typed[1..], t);
      } else if t != "" {
        SpellsByLetter(typed[1..], t[1..]);
        if |Strip(typed)| == |t| && forall i :: 0 <= i < |t| ==> StandsFor(Strip(typed)[i], t[i]) {
          forall i | 0 <= i < |t[1..]|
            ensures StandsFor(rest[i], t[1..][i])
          {
            assert StandsFor(Strip(typed)[i + 1], t[i + 1]);
          }
        }
      }
    }
  }

  lemma {:induction false} StripAppend(a: string, b: string)
    ensures Strip(a + b) == Strip(a) + Strip(b)
  {
    if a == "" {
      assert a + b == b;
    } else {
      assert (a + b)[1..] == a[1..] + b;
      StripAppend(a[1..], b);
    }
  }

  lemma {:induction false} StripLower(s: string)
    ensures Strip(ToLower(s)) == ToLower(Strip(s))
  {
    if s != "" {
      StripLower(s[1..]);
      assert ToLower(s)[1..] == ToLower(s[1..]);
    }
  }

  lemma {:induction false} StripTrimLeft(s: string)
    requires forall i :: 0 <= i < |s| && IsSpace(s[i]) ==> s[i] == ' '
    ensures Strip(TrimLeft(s)) == Strip(s)
    ensures forall i :: 0 <= i < |TrimLeft(s)| && IsSpace(TrimLeft(s)[i]) ==> TrimLeft(s)[i] == ' '
  {
    if s != "" && IsSpace(s[0]) {
      StripTrimLeft(s[1..]);
    }
  }

  lemma {:induction false} StripTrimRight(s: string)
    requires forall i :: 0 <= i < |s| && IsSpace(s[i]) ==> s[i] == ' '
    ensures Strip(TrimRight(s)) == Strip(s)
    decreases |s|
  {
    if s != "" && IsSpace(s[|s| - 1]) {
      StripTrimRight(s[..|s| - 1]);
      StripAppend(s[..|s| - 1], " ");
      assert s == s[..|s| - 1] + " ";
    }
  }

  /** No character that stands for a printable one is a space other than ' '. */
  lemma {:induction false} SpellingSpaces(typed: string, t: string)
    requires Spells(typed, t) && forall i :: 0 <= i < |t| ==> !IsSpace(t[i])
    ensures forall i :: 0 <= i < |typed| && IsSpace(typed[i]) ==> typed[i] == ' '
  {
    if typed != "" {
      SpellingSpaces(typed[1..], if IsSeparator(typed[0]) then t else t[1..]);
    }
  }

  /** Trimming a spelling removes only separators. */
  lemma TrimKeepsSpelling(typed: string, t: string)
    requires Spells(typed, t) && forall i :: 0 <= i < |t| ==> !IsSpace(t[i])
    ensures Strip(TrimSpace(typed)) == Strip(typed)
  {
    SpellingSpaces(typed, t);
    StripTrimLeft(typed);
    StripTrimRight(TrimLeft(typed));
  }

  /** What the normalizer makes of a trimmed and stripped input, letter by letter. */
  function Reading(t: string): string {
    MapChars(Glyph, if HasPrefix(ToLower(t), BARE_PREFIX) then t[3..] else t)
  }

  lemma NormalizeReads(s: string)
    ensures NormalizePairing(s) == Reading(Strip(TrimSpace(s)))
  {
    StripLower(TrimSpace(s));
  }

  // The Crockford alphabet.

  predicate InAlphabet(c: char) {
    '0' <= c <= '9' || ('A' <= c <= 'Z' && c != 'I' && c != 'L' && c != 'O' && c != 'U')
  }

  lemma AlphabetChars()
    ensures |CROCKFORD| == 32 && forall i :: 0 <= i < 32 ==> InAlphabet(CROCKFORD[i])
  {
  }

  lemma BodyInAlphabet(b: seq<byte>)
    requires |b| == DRAW_BYTES
    ensures forall j :: 0 <= j < 25 ==> InAlphabet(Body(b)[j])
  {
    forall j | 0 <= j < 25
      ensures InAlphabet(Body(b)[j])
    {
      BodyAt(b, j);
      AlphabetChars();
    }
  }

  lemma GlyphStandsFor(typed: char, c: char)
    requires InAlphabet(c)
    ensures Glyph(typed) == c <==> StandsFor(typed, c)
  {
  }

  lemma PrefixLetters(t: string)
    ensures HasPrefix(ToLower(t), BARE_PREFIX)
      <==> |t| >= 3 && LowerChar(t[0]) == 'm' && LowerChar(t[1]) == 'c' && LowerChar(t[2]) == 'p'
  {
    if |t| >= 3 {
      assert ToLower(t)[..3] == [LowerChar(t[0]), LowerChar(t[1]), LowerChar(t[2])];
    }
  }

  ghost predicate GeneratedBody(body: string) {
    |body| == 25 && forall j :: 0 <= j < 25 ==> InAlphabet(body[j])
  }

  predicate StartsWithMcp(body: string) {
    HasPrefix(body, "MCP")
  }

  lemma GlyphsSpell(t: string, body: string)
    requires GeneratedBody(body)
    ensures MapChars(Glyph, t) == body
      <==> |t| == 25 && forall i :: 0 <= i < 25 ==> StandsFor(t[i], body[i])
  {
    forall i | 0 <= i < |t| && i < 25
      ensures Glyph(t[i]) == body[i] <==> StandsFor(t[i], body[i])
    {
      GlyphStandsFor(t[i], body[i]);
    }
    if MapChars(Glyph, t) == body {
      assert forall i :: 0 <= i < 25 ==> Glyph(t[i]) == MapChars(Glyph, t)[i];
    }
  }

  lemma McpLetters(body: string)
    requires |body| >= 3
    ensures StartsWithMcp(body) <==> body[0] == 'M' && body[1] == 'C' && body[2] == 'P'
  {
    assert body[..3] == [body[0], body[1], body[2]];
  }

  ghost predicate LettersStandFor(t: string, u: string) {
    |t| == |u| && forall i :: 0 <= i < |u| ==> StandsFor(t[i], u[i])
  }

  lemma LettersOfPrefixed(t: string, body: string)
    ensures LettersStandFor(t, BARE_PREFIX + body)
      <==> HasPrefix(ToLower(t), BARE_PREFIX) && LettersStandFor(t[3..], body)
  {
    var full := BARE_PREFIX + body;
    PrefixLetters(t);
    if LettersStandFor(t, full) {
      assert StandsFor(t[0], full[0]) && StandsFor(t[1], full[1]) && StandsFor(t[2], full[2]);
      forall i | 0 <= i < |body|
        ensures StandsFor(t[3..][i], body[i])
      {
        assert StandsFor(t[i + 3], full[i + 3]);
      }
    }
    if HasPrefix(ToLower(t), BARE_PREFIX) && LettersStandFor(t[3..], body) {
      forall i | 0 <= i < |full|
        ensures StandsFor(t[i], full[i])
      {
        if i >= 3 {
          assert StandsFor(t[3..][i - 3], body[i - 3]);
        }
      }
    }
  }

  lemma LettersOfMcp(t: string, body: string)
    requires GeneratedBody(body) && LettersStandFor(t, body)
    ensures HasPrefix(ToLower(t), BARE_PREFIX) <==> StartsWithMcp(body)
  {
    PrefixLetters(t);
    McpLetters(body);
    assert StandsFor(t[0], body[0]) && StandsFor(t[1], body[1]) && StandsFor(t[2], body[2]);
  }

  /** Exactly the letterings that read as a generated body. */
  lemma ReadsAs(t: string, body: string)
    requires GeneratedBody(body)
    ensures Reading(t) == body <==>
      LettersStandFor(t, BARE_PREFIX + body) || (LettersStandFor(t, body) && !StartsWithMcp(body))
    ensures LettersStandFor(t, body) ==> (HasPrefix(ToLower(t), BARE_PREFIX) <==> StartsWithMcp(body))
  {
    LettersOfPrefixed(t, body);
    GlyphsSpell(t, body);
    if HasPrefix(ToLower(t), BARE_PREFIX) {
      GlyphsSpell(t[3..], body);
    }
    if LettersStandFor(t, body) {
      LettersOfMcp(t, body);
    }
  }

  /** Every re-spelling of a code with its prefix normalizes to the body. */
  lemma PrefixedSpelling(typed: string, body: string)
    requires GeneratedBody(body) && Spells(typed, BARE_PREFIX + body)
    ensures NormalizePairing(typed) == body
  {
    TrimKeepsSpelling(typed, BARE_PREFIX + body);
    SpellsByLetter(typed, BARE_PREFIX + body);
    NormalizeReads(typed);
    ReadsAs(Strip(typed), body);
  }

  /** A re-spelling without the prefix does so exactly when the body does not itself
      start with MCP. */
  lemma UnprefixedSpelling(typed: string, body: string)
    requires GeneratedBody(body) && Spells(typed, body)
    ensures NormalizePairing(typed) == body <==> !StartsWithMcp(body)
  {
    TrimKeepsSpelling(typed, body);
    SpellsByLetter(typed, body);
    NormalizeReads(typed);
    ReadsAs(Strip(typed), body);
  }

  /** The inputs that normalize to a generated body, completely. */
  lemma NormalizeExactly(typed: string, body: string)
    requires GeneratedBody(body)
    ensures NormalizePairing(typed) == body <==>
      || Spells(TrimSpace(typed), BARE_PREFIX + body)
      || (Spells(TrimSpace(typed), body) && !StartsWithMcp(body))
  {
    var trimmed := TrimSpace(typed);
    SpellsByLetter(trimmed, BARE_PREFIX + body);
    SpellsByLetter(trimmed, body);
    NormalizeReads(typed);
    ReadsAs(Strip(trimmed), body);
  }

  // Stored codes.

  lemma {:induction false} StripJoin(parts: seq<string>)
    requires forall i :: 0 <= i < |parts| ==> Strip(parts[i]) == parts[i]
    ensures Strip(Join(parts, "-")) == Join(parts, "")
  {
    if |parts| > 1 {
      StripJoin(parts[1..]);
      StripAppend(parts[0] + "-", Join(parts[1..], "-"));
      StripAppend(parts[0], "-");
    }
  }

  lemma {:induction false} NothingToStrip(s: string)
    requires forall i :: 0 <= i < |s| ==> !IsSeparator(s[i])
    ensures Strip(s) == s
  {
    if s != "" {
      NothingToStrip(s[1..]);
    }
  }

  lemma JoinGroups(s: string)
    requires |s| == 25
    ensures Join(Groups(s), "") == s
  {
    var g := Groups(s);
    assert Join(g[4..], "") == s[20..];
    assert Join(g[3..], "") == s[15..] by {
      assert g[3..][1..] == g[4..];
    }
    assert Join(g[2..], "") == s[10..] by {
      assert g[2..][1..] == g[3..];
    }
    assert Join(g[1..], "") == s[5..] by {
      assert g[1..][1..] == g[2..];
    }
  }

  /** A generated code spells its own body with the prefix. */
  lemma CodeSpellsBody(b: seq<byte>)
    requires |b| == DRAW_BYTES
    ensures GeneratedBody(Body(b)) && Spells(CodeOf(b), BARE_PREFIX + Body(b))
  {
    var body := Body(b);
    var full, g := BARE_PREFIX + body, Groups(body);
    BodyInAlphabet(b);
    forall i | 0 <= i < 5
      ensures Strip(g[i]) == g[i]
    {
      NothingToStrip(g[i]);
    }
    StripJoin(g);
    JoinGroups(body);
    assert PREFIX == BARE_PREFIX + "-";
    NothingToStrip(BARE_PREFIX);
    StripAppend(BARE_PREFIX, "-");
    StripAppend(PREFIX, Join(g, "-"));
    assert Strip(CodeOf(b)) == full;
    SpellsByLetter(CodeOf(b), full);
  }

  /** So a stored code always normalizes to its body, MCP or not. */
  lemma CodeNormalizes(b: seq<byte>)
    requires |b| == DRAW_BYTES
    ensures NormalizePairing(CodeOf(b)) == Body(b)
  {
    CodeSpellsBody(b);
    PrefixedSpelling(CodeOf(b), Body(b));
  }

  lemma McpDigits(b: seq<byte>)
    requires |b| == DRAW_BYTES && b[0] == 0xA3 && b[1] == 0x2C
    ensures Digits(b)[0] == 20 && Digits(b)[1] == 12 && Digits(b)[2] == 22
  {
    var g := Group(b[0], b[1], b[2], b[3], b[4]);
    assert g[0] == 20 && g[1] == 12 && g[2] == 22;
    assert Digits(b) == g + Digits(b[5..]);
  }

  lemma McpBody(b: seq<byte>)
    requires |b| == DRAW_BYTES && b[0] == 0xA3 && b[1] == 0x2C
    ensures StartsWithMcp(Body(b))
  {
    McpDigits(b);
    AlphabetInjective();
    var body := Body(b);
    assert body[0] == CROCKFORD[20] && body[1] == CROCKFORD[12] && body[2] == CROCKFORD[22];
    McpLetters(body);
  }

  /** A body can start with MCP, and then the code is not accepted without its prefix. */
  lemma McpBodyExists(b: seq<byte>)
    requires |b| == DRAW_BYTES && b[0] == 0xA3 && b[1] == 0x2C
    ensures StartsWithMcp(Body(b))
    ensures NormalizePairing(Body(b)) != NormalizePairing(CodeOf(b))
  {
    McpBody(b);
    CodeNormalizes(b);
    BodyInAlphabet(b);
    SpellsSelf(Body(b));
    UnprefixedSpelling(Body(b), Body(b));
  }

  lemma {:induction false} SpellsSelf(s: string)
    requires forall i :: 0 <= i < |s| ==> !IsSeparator(s[i])
    ensures Spells(s, s)
  {
    if s != "" {
      SpellsSelf(s[1..]);
    }
  }
}
