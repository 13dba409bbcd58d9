/** The string operations the source takes from package strings, on ASCII text. */
module Strings {
  predicate HasPrefix(s: string, p: string) {
    p <= s
  }

  predicate Contains(s: string, sub: string) {
    exists i | 0 <= i <= |s| :: sub <= s[i..]
  }

  function TrimPrefix(s: string, p: string): string {
    if HasPrefix(s, p) then s[|p|..] else s
  }

  function LowerChar(c: char): char {
    if 'A' <= c <= 'Z' then (c as int - 'A' as int + 'a' as int) as char else c
  }

  function UpperChar(c: char): char {
    if 'a' <= c <= 'z' then (c as int - 'a' as int + 'A' as int) as char else c
  }

  function MapChars(f: char -> char, s: string): (r: string)
    ensures |r| == |s| && forall i :: 0 <= i < |s| ==> r[i] == f(s[i])
  {
    seq(|s|, i requires 0 <= i < |s| => f(s[i]))
  }

  function ToLower(s: string): string {
    MapChars(LowerChar, s)
  }

  function ToUpper(s: string): string {
    MapChars(UpperChar, s)
  }

  predicate IsSpace(c: char) {
    c == ' ' || '\t' <= c <= '\r' || c as int == 0x85 || c as int == 0xA0
  }

  function TrimLeft(s: string): string {
    if s != "" && IsSpace(s[0]) then TrimLeft(s[1..]) else s
  }

  function TrimRight(s: string): string {
    if s != "" && IsSpace(s[|s| - 1]) then TrimRight(s[..|s| - 1]) else s
  }

  function TrimSpace(s: string): string {
    TrimRight(TrimLeft(s))
  }

  /** Space, tab, line feed, vertical tab, form feed, carriage return, next line, no-break space. */
  predicate BlankChar(c: char) {
    c as int in {0x20, 0x09, 0x0A, 0x0B, 0x0C, 0x0D, 0x85, 0xA0}
  }

  predicate Blank(s: string) {
    forall i | 0 <= i < |s| :: BlankChar(s[i])
  }

  lemma {:induction false} TrimLeftExactly(s: string) returns (k: nat)
    ensures k <= |s| && TrimLeft(s) == s[k..] && Blank(s[..k]) && (k < |s| ==> !BlankChar(s[k]))
  {
    k := 0;
    if s != "" && IsSpace(s[0]) {
      k := TrimLeftExactly(s[1..]);
      assert s[1..][k..] == s[k + 1..];
      assert s[..k + 1] == [s[0]] + s[1..][..k];
      k := k + 1;
    }
  }

  lemma {:induction false} TrimRightExactly(s: string) returns (n: nat)
    ensures n <= |s| && TrimRight(s) == s[..n] && Blank(s[n..]) && (n > 0 ==> !BlankChar(s[n - 1]))
  {
    n := |s|;
    if s != "" && IsSpace(s[|s| - 1]) {
      var front := s[..|s| - 1];
      n := TrimRightExactly(front);
      assert front[..n] == s[..n];
      assert s[n..] == front[n..] + [s[|s| - 1]];
    }
  }

  /** What is left of a text is its middle: only blanks go, and no blank is left at either end. */
  lemma TrimSpaceExactly(s: string) returns (i: nat, j: nat)
    ensures i <= j <= |s| && TrimSpace(s) == s[i..j] && Blank(s[..i]) && Blank(s[j..])
    ensures i < j ==> !BlankChar(s[i]) && !BlankChar(s[j - 1])
  {
    i := TrimLeftExactly(s);
    var n := TrimRightExactly(s[i..]);
    j := i + n;
    assert s[i..][..n] == s[i..j] && s[i..][n..] == s[j..];
  }

  function Join(parts: seq<string>, sep: string): string {
    if parts == [] then ""
    else if |parts| == 1 then parts[0]
    else parts[0] + sep + Join(parts[1..], sep)
  }

  /** The pieces between occurrences of a single separator byte. */
  function Split(s: string, sep: char): (parts: seq<string>)
    ensures |parts| > 0
  {
    if s == "" then [""]
    else
      var rest := Split(s[1..], sep);
      if s[0] == sep then [""] + rest
      else [[s[0]] + rest[0]] + rest[1..]
  }

  lemma {:induction false} SplitPiece(s: string, sep: char)
    requires sep !in s
    ensures Split(s, sep) == [s]
  {
    if s != "" {
      SplitPiece(s[1..], sep);
      assert s == [s[0]] + s[1..];
    }
  }

  lemma {:induction false} SplitFirst(a: string, b: string, sep: char)
    requires sep !in a
    ensures Split(a + [sep] + b, sep) == [a] + Split(b, sep)
  {
    if a == "" {
      assert (a + [sep] + b)[1..] == b;
    } else {
      assert (a + [sep] + b)[1..] == a[1..] + [sep] + b;
      SplitFirst(a[1..], b, sep);
      assert a == [a[0]] + a[1..];
    }
  }

  lemma PrependAppend(c: char, sep: char, p: seq<string>, q: seq<string>)
    requires p != []
    ensures [""] + (p + q) == [""] + p + q
    ensures [[c] + (p + q)[0]] + (p + q)[1..] == [[c] + p[0]] + p[1..] + q
  {
    assert (p + q)[1..] == p[1..] + q;
  }

  lemma {:induction false} SplitAppend(a: string, b: string, sep: char)
    ensures Split(a + [sep] + b, sep) == Split(a, sep) + Split(b, sep)
  {
    var all := a + [sep] + b;
    if a == "" {
      assert all[1..] == b;
    } else {
      assert all[1..] == a[1..] + [sep] + b && all[0] == a[0];
      SplitAppend(a[1..], b, sep);
      PrependAppend(a[0], sep, Split(a[1..], sep), Split(b, sep));
    }
  }

  /** Splitting undoes joining pieces that are free of the separator. */
  lemma {:induction false} SplitJoin(parts: seq<string>, sep: char)
    requires parts != [] && forall i :: 0 <= i < |parts| ==> sep !in parts[i]
    ensures Split(Join(parts, [sep]), sep) == parts
  {
    if |parts| == 1 {
      SplitPiece(parts[0], sep);
    } else {
      var rest := Join(parts[1..], [sep]);
      SplitJoin(parts[1..], sep);
      SplitFirst(parts[0], rest, sep);
      assert Join(parts, [sep]) == parts[0] + [sep] + rest;
      assert parts == [parts[0]] + parts[1..];
    }
  }

  lemma {:induction false} JoinSplit(s: string, sep: char)
    ensures Join(Split(s, sep), [sep]) == s
    ensures forall i :: 0 <= i < |Split(s, sep)| ==> sep !in Split(s, sep)[i]
  {
    if s != "" {
      JoinSplit(s[1..], sep);
      var rest := Split(s[1..], sep);
      var all := Split(s, sep);
      if s[0] == sep {
        assert all[1..] == rest;
      } else {
        assert all[1..] == rest[1..];
      }
    }
  }

  lemma {:induction false} JoinInjective(p: seq<string>, q: seq<string>, sep: string)
    requires |p| == |q| && forall i :: 0 <= i < |p| ==> |p[i]| == |q[i]|
    requires Join(p, sep) == Join(q, sep)
    ensures p == q
  {
    if |p| > 1 {
      SameCut(p[0] + sep, Join(p[1..], sep), q[0] + sep, Join(q[1..], sep));
      SameCut(p[0], sep, q[0], sep);
      JoinInjective(p[1..], q[1..], sep);
      assert p == [p[0]] + p[1..] && q == [q[0]] + q[1..];
    }
  }

  lemma SameCut(a: string, b: string, c: string, d: string)
    requires |a| == |c| && a + b == c + d
    ensures a == c && b == d
  {
    assert a == (a + b)[..|a|] && c == (c + d)[..|a|];
    assert b == (a + b)[|a|..] && d == (c + d)[|a|..];
  }

  lemma ContainedChars(s: string, sub: string, c: char)
    requires Contains(s, sub) && c !in s
    ensures c !in sub
  {
    var i :| 0 <= i <= |s| && sub <= s[i..];
    assert forall j :: 0 <= j < |sub| ==> sub[j] == s[i + j];
  }

  lemma ContainsInside(a: string, b: string, c: string, sub: string)
    requires Contains(b, sub)
    ensures Contains(a + b + c, sub)
  {
    var i :| 0 <= i <= |b| && sub <= b[i..];
    var s := a + b + c;
    assert s[|a| + i..|a| + i + |sub|] == b[i..i + |sub|] == sub;
    assert sub <= s[|a| + i..];
  }

  /** A text free of the separator occurs in a joined pair only inside one of the two. */
  lemma ContainsPair(a: string, b: string, sep: char, sub: string)
    requires sub != "" && sep !in sub
    ensures Contains(a + [sep] + b, sub) <==> Contains(a, sub) || Contains(b, sub)
  {
    var s := a + [sep] + b;
    if Contains(a, sub) {
      ContainsInside("", a, [sep] + b, sub);
      assert "" + a + ([sep] + b) == s;
    }
    if Contains(b, sub) {
      ContainsInside(a + [sep], b, "", sub);
      assert a + [sep] + b + "" == s;
    }
    if Contains(s, sub) {
      var i :| 0 <= i <= |s| && sub <= s[i..];
      assert s[i..i + |sub|] == sub;
      OneSide(a, b, sep, sub, i);
    }
  }

  lemma OneSide(a: string, b: string, sep: char, sub: string, i: nat)
    requires sub != "" && sep !in sub && i + |sub| <= |a + [sep] + b| && (a + [sep] + b)[i..i + |sub|] == sub
    ensures Contains(a, sub) || Contains(b, sub)
  {
    var s := a + [sep] + b;
    assert forall j :: 0 <= j < |sub| ==> sub[j] == s[i + j];
    if i + |sub| <= |a| {
      assert a[i..i + |sub|] == sub;
      assert sub <= a[i..];
    } else {
      assert s[|a|] == sep && forall j :: i <= j < i + |sub| ==> s[j] == sub[j - i] != sep;
      assert b[i - |a| - 1..i - |a| - 1 + |sub|] == sub;
      assert sub <= b[i - |a| - 1..];
    }
  }

  /** And in joined parts only inside one of the parts. */
  lemma {:induction false} ContainsJoin(parts: seq<string>, sep: char, sub: string)
    requires sub != "" && sep !in sub
    ensures Contains(Join(parts, [sep]), sub) <==> exists i :: 0 <= i < |parts| && Contains(parts[i], sub)
  {
    if |parts| > 1 {
      ContainsPair(parts[0], Join(parts[1..], [sep]), sep, sub);
      ContainsJoin(parts[1..], sep, sub);
      assert forall i :: 0 <= i < |parts| - 1 ==> parts[1..][i] == parts[i + 1];
      assert forall i :: 0 < i < |parts| ==> parts[i] == parts[1..][i - 1];
    }
  }
}
