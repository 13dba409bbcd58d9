/** Tool names and the index calls are looked up in. */
module ToolNames {
  import opened Strings
  import opened CommandTrees
  import opened Surfaces
  import opened Dispatch

  // Paths as words.

  /** Where the first word of s ends. */
  function WordEnd(s: string): (n: nat)
    ensures n <= |s| && (n < |s| ==> IsSpace(s[n]))
    ensures forall i :: 0 <= i < n ==> !IsSpace(s[i])
  {
    if s == "" || IsSpace(s[0]) then 0 else 1 + WordEnd(s[1..])
  }

  lemma {:induction false} TrimLeftShorter(s: string)
    ensures |TrimLeft(s)| <= |s| && (TrimLeft(s) == "" || !IsSpace(TrimLeft(s)[0]))
  {
    if s != "" && IsSpace(s[0]) {
      TrimLeftShorter(s[1..]);
    }
  }

  /** strings.Fields. */
  function Fields(s: string): seq<string>
    decreases |s|
  {
    TrimLeftShorter(s);
    var t := TrimLeft(s);
    if t == "" then []
    else [t[..WordEnd(t)]] + Fields(t[WordEnd(t)..])
  }

  predicate Word(w: string) {
    w != "" && forall i :: 0 <= i < |w| ==> !IsSpace(w[i])
  }

  lemma FieldsFirst(w: string, rest: string)
    requires Word(w) && (rest == "" || IsSpace(rest[0]))
    ensures Fields(w + rest) == [w] + Fields(rest)
  {
    var s := w + rest;
    assert TrimLeft(s) == s by {
      assert s[0] == w[0];
    }
    var n := WordEnd(s);
    assert n >= |w| by {
      assert forall i :: 0 <= i < |w| ==> !IsSpace(s[i]);
    }
    assert n <= |w| by {
      assert rest != "" ==> s[|w|] == rest[0];
    }
  }

  lemma FieldsAfterSpace(rest: string)
    ensures Fields(" " + rest) == Fields(rest)
  {
    assert (" " + rest)[1..] == rest;
    assert TrimLeft(" " + rest) == TrimLeft(rest);
  }

  lemma {:induction false} FieldsJoin(words: seq<string>)
    requires forall i :: 0 <= i < |words| ==> Word(words[i])
    ensures Fields(Join(words, " ")) == words
  {
    if |words| == 1 {
      FieldsFirst(words[0], "");
      assert words[0] + "" == words[0] && Fields("") == [];
    } else if |words| > 1 {
      var rest := Join(words[1..], " ");
      FieldsJoin(words[1..]);
      FieldsFirst(words[0], " " + rest);
      FieldsAfterSpace(rest);
      assert Join(words, " ") == words[0] + (" " + rest);
      assert words == [words[0]] + words[1..];
    }
  }

  /** The names from the root on, joined by spaces, split again, and the first dropped. */
  function PathParts(root: Command, p: Place): seq<string>
    requires IsPlace(root, p)
  {
    var parts := Fields(Join([root.name] + NamesTo(root, p), " "));
    if parts == [] then [] else parts[1..]
  }

  lemma PathPartsAreNames(root: Command, p: Place)
    requires IsPlace(root, p) && Word(root.name)
    requires forall i :: 0 <= i < |p| ==> Word(NamesTo(root, p)[i])
    ensures PathParts(root, p) == NamesTo(root, p)
  {
    FieldsJoin([root.name] + NamesTo(root, p));
  }

  function ToolName(root: Command, p: Place, sep: string): string
    requires IsPlace(root, p)
  {
    Join(PathParts(root, p), sep)
  }

  // When joined names determine the path.

  /** Some proper non-empty beginning of s is also its end. */
  predicate Bordered(s: string) {
    exists k | 0 < k < |s| :: s[..k] == s[|s| - k..]
  }

  predicate FreeOf(names: seq<string>, sep: string) {
    names != [] && forall i | 0 <= i < |names| :: names[i] != "" && !Contains(names[i], sep)
  }

  predicate OccursAt(s: string, sub: string, i: nat) {
    i <= |s| && sub <= s[i..]
  }

  /** A separator found inside a joined name before the first part ends lies within that
      part, or overlaps the real one. */
  lemma EarlierSeparator(name: string, sep: string, rest: string, i: nat)
    requires i < |name| && OccursAt(name + sep + rest, sep, i)
    ensures Contains(name, sep) || Bordered(sep)
  {
    var s := name + sep + rest;
    assert s[i..i + |sep|] == sep;
    if i + |sep| <= |name| {
      assert name[i..i + |sep|] == s[i..i + |sep|];
      assert sep <= name[i..];
    } else {
      var k := i + |sep| - |name|;
      assert s[|name|..|name| + k] == sep[..k];
      assert s[i..i + |sep|][|sep| - k..] == s[|name|..|name| + k];
      assert sep[..k] == sep[|sep| - k..];
    }
  }

  lemma SeparatorOccurs(name: string, sep: string, rest: string)
    ensures OccursAt(name + sep + rest, sep, |name|)
  {
    assert (name + sep + rest)[|name|..] == sep + rest;
  }

  lemma SameFirst(a: string, b: string, sep: string, x: string, y: string)
    requires sep != "" && !Bordered(sep) && !Contains(a, sep) && !Contains(b, sep)
    requires a + sep + x == b + sep + y
    ensures a == b && x == y
  {
    SeparatorOccurs(a, sep, x);
    SeparatorOccurs(b, sep, y);
    if |a| < |b| {
      EarlierSeparator(b, sep, y, |a|);
    } else if |b| < |a| {
      EarlierSeparator(a, sep, x, |b|);
    }
    SameCut(a + sep, x, b + sep, y);
    SameCut(a, sep, b, sep);
  }

  lemma OneIsNotTwo(a: string, sep: string, b: string, rest: string)
    requires !Contains(a, sep)
    ensures a != b + sep + rest
  {
    SeparatorOccurs(b, sep, rest);
  }

  lemma {:induction false} JoinedNamesDiffer(a: seq<string>, b: seq<string>, sep: string)
    requires sep != "" && !Bordered(sep) && FreeOf(a, sep) && FreeOf(b, sep) && Join(a, sep) == Join(b, sep)
    ensures a == b
  {
    if |a| == 1 && |b| > 1 {
      OneIsNotTwo(a[0], sep, b[0], Join(b[1..], sep));
    } else if |b| == 1 && |a| > 1 {
      OneIsNotTwo(b[0], sep, a[0], Join(a[1..], sep));
    } else if |a| > 1 {
      SameFirst(a[0], b[0], sep, Join(a[1..], sep), Join(b[1..], sep));
      JoinedNamesDiffer(a[1..], b[1..], sep);
      assert a == [a[0]] + a[1..] && b == [b[0]] + b[1..];
    }
  }

  lemma ShortContains(name: string, sep: string)
    ensures |name| <= |sep| && Contains(name, sep) ==> name == sep
  {
    if |name| <= |sep| && Contains(name, sep) {
      var i :| 0 <= i <= |name| && sep <= name[i..];
      assert i == 0 && name[0..] == name;
    }
  }

  function Other(c: char): (d: char)
    ensures d != c && d in {'x', 'y'}
  {
    if c == 'x' then 'y' else 'x'
  }

  lemma MarkedIsFree(x: string, head: string, sep: string)
    requires |sep| > 1 && |x| == 1 && x[0] != sep[0] && |head| < |sep|
    ensures !Contains(x + head, sep)
  {
    ShortContains(x + head, sep);
    assert (x + head)[0] == x[0];
  }

  lemma EndMarkedIsFree(tail: string, y: string, sep: string)
    requires |sep| > 1 && |y| == 1 && y[0] != sep[|sep| - 1] && |tail| < |sep|
    ensures !Contains(tail + y, sep)
  {
    ShortContains(tail + y, sep);
    assert (tail + y)[|tail|] == y[0];
  }

  lemma Rejoin(x: string, sep: string, tail: string, head: string, y: string)
    requires sep + tail == head + sep
    ensures Join([x, tail + y], sep) == Join([x + head, y], sep)
  {
    assert [x, tail + y][1..] == [tail + y] && [x + head, y][1..] == [y];
    assert x + sep + (tail + y) == x + (sep + tail) + y;
    assert (x + head) + sep + y == x + (head + sep) + y;
  }

  lemma Overlap(sep: string, k: nat)
    requires k <= |sep| && sep[..k] == sep[|sep| - k..]
    ensures sep + sep[k..] == sep[..|sep| - k] + sep
  {
    var head, tail := sep[..|sep| - k], sep[k..];
    assert sep == sep[..k] + tail && sep == head + sep[|sep| - k..];
    assert head + (sep[..k] + tail) == (head + sep[..k]) + tail;
  }

  /** A bordered separator joins two different lists of names to the same. */
  lemma BorderedCollides(sep: string) returns (a: seq<string>, b: seq<string>)
    requires Bordered(sep)
    ensures FreeOf(a, sep) && FreeOf(b, sep) && a != b && Join(a, sep) == Join(b, sep)
  {
    var k :| 0 < k < |sep| && sep[..k] == sep[|sep| - k..];
    var head, tail := sep[..|sep| - k], sep[k..];
    var x, y := [Other(sep[0])], [Other(sep[|sep| - 1])];
    Overlap(sep, k);
    a, b := [x, tail + y], [x + head, y];
    Rejoin(x, sep, tail, head, y);
    MarkedIsFree(x, head, sep);
    MarkedIsFree(x, [], sep);
    assert x + [] == x;
    EndMarkedIsFree(tail, y, sep);
    EndMarkedIsFree([], y, sep);
    assert [] + y == y;
    assert a[0] != b[0];
  }

  /** Joining is injective on names free of the separator exactly when no proper beginning
      of the separator is also its end: so for the default "_", not for "aba". */
  lemma JoinInjectiveExactly(sep: string)
    requires sep != ""
    ensures (forall a, b :: FreeOf(a, sep) && FreeOf(b, sep) && Join(a, sep) == Join(b, sep) ==> a == b) <==> !Bordered(sep)
  {
    if Bordered(sep) {
      var a, b := BorderedCollides(sep);
    } else {
      forall a, b | FreeOf(a, sep) && FreeOf(b, sep) && Join(a, sep) == Join(b, sep)
        ensures a == b
      {
        JoinedNamesDiffer(a, b, sep);
      }
    }
  }

  // The index.

  function Index(names: seq<string>): map<string, nat> {
    if names == [] then map[] else Index(names[..|names| - 1])[names[|names| - 1] := |names| - 1]
  }

  method BuildIndex(names: seq<string>) returns (index: map<string, nat>)
    ensures index == Index(names)
  {
    index := map[];
    for i := 0 to |names|
      invariant index == Index(names[..i])
    {
      assert names[..i + 1][..i] == names[..i];
      index := index[names[i] := i];
    }
    assert names[..|names|] == names;
  }

  /** Each name leads to the last tool of that name, and no other name to any. */
  lemma {:induction false} IndexLast(names: seq<string>, n: string)
    ensures n in Index(names) <==> n in names
    ensures n in Index(names) ==>
      Index(names)[n] < |names| && names[Index(names)[n]] == n && forall j :: Index(names)[n] < j < |names| ==> names[j] != n
  {
    if names != [] {
      IndexLast(names[..|names| - 1], n);
      assert names == names[..|names| - 1] + [names[|names| - 1]];
    }
  }

  /** Every name on the way to every tool can be typed, and leads there. */
  ghost predicate WellNamed(root: Command, tools: seq<Tool>, sep: string) {
    && Word(root.name)
    && forall i :: 0 <= i < |tools| ==>
         && IsPlace(root, tools[i].place) && tools[i].place != [] && FirstOfItsName(root, tools[i].place)
         && FreeOf(NamesTo(root, tools[i].place), sep)
         && forall j :: 0 <= j < |tools[i].place| ==> Word(NamesTo(root, tools[i].place)[j])
  }

  function NamesOf(root: Command, tools: seq<Tool>, sep: string, native: seq<string>): (names: seq<string>)
    requires forall i :: 0 <= i < |tools| ==> IsPlace(root, tools[i].place)
    ensures |names| == |tools| + |native|
    ensures forall i :: 0 <= i < |tools| ==> names[i] == ToolName(root, tools[i].place, sep)
  {
    seq(|tools|, i requires 0 <= i < |tools| => ToolName(root, tools[i].place, sep)) + native
  }

  lemma NamesDetermineTool(root: Command, tools: seq<Tool>, sep: string, i: nat, j: nat)
    requires sep != "" && !Bordered(sep) && WellNamed(root, tools, sep) && i < |tools| && j < |tools|
    requires ToolName(root, tools[i].place, sep) == ToolName(root, tools[j].place, sep)
    ensures tools[i].place == tools[j].place
  {
    var p, q := tools[i].place, tools[j].place;
    PathPartsAreNames(root, p);
    PathPartsAreNames(root, q);
    JoinedNamesDiffer(NamesTo(root, p), NamesTo(root, q), sep);
    FindByNames(root, p, []);
    FindByNames(root, q, []);
    assert NamesTo(root, p) + [] == NamesTo(root, q) + [];
    assert Find(At(root, p), []) == [] && Find(At(root, q), []) == [];
    assert p + [] == p && q + [] == q;
  }

  /** The index serves every command tool under its name, for well-named commands, an
      unbordered separator and native tools named otherwise. */
  lemma IndexServesAll(root: Command, sep: string, native: seq<string>, i: nat)
    requires sep != "" && !Bordered(sep) && WellNamed(root, BuildTools(root), sep) && i < |BuildTools(root)|
    requires ToolName(root, BuildTools(root)[i].place, sep) !in native
    ensures var tools := BuildTools(root);
      var index := Index(NamesOf(root, tools, sep, native));
      ToolName(root, tools[i].place, sep) in index && index[ToolName(root, tools[i].place, sep)] == i
  {
    var tools := BuildTools(root);
    SurfaceExactly(root);
    OnlyUnderItsName(root, tools, sep, native, i);
    var names := NamesOf(root, tools, sep, native);
    IndexLast(names, names[i]);
    assert names[i] in names;
  }

  lemma OnlyUnderItsName(root: Command, tools: seq<Tool>, sep: string, native: seq<string>, i: nat)
    requires sep != "" && !Bordered(sep) && WellNamed(root, tools, sep) && i < |tools| && DistinctPlaces(tools)
    requires ToolName(root, tools[i].place, sep) !in native
    ensures var names := NamesOf(root, tools, sep, native); forall k :: 0 <= k < |names| && names[k] == names[i] ==> k == i
  {
    var names := NamesOf(root, tools, sep, native);
    assert forall k :: |tools| <= k < |names| ==> names[k] == native[k - |tools|];
    forall k | 0 <= k < |tools| && names[k] == names[i]
      ensures k == i
    {
      NamesDetermineTool(root, tools, sep, i, k);
    }
  }
}
