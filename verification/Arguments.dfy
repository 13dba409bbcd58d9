/** The child process's arguments: path, options, positionals, confirmation, format. */
module Arguments {
  import opened Wrappers
  import opened Strings
  import opened Names

  /** An option value as decoded from JSON; scalars other than bool as their printed form. */
  datatype Value = Nil | Flag(b: bool) | Scalar(text: string) | List(items: seq<string>)

  const CONFIRM := "--yes"
  const FORMAT := ["--format", "jsonl"]

  /** The printed values an option is given, in order. */
  function Texts(v: Value): seq<string> {
    match v
    case Nil => []
    case Flag(b) => [if b then "true" else "false"]
    case Scalar(text) => [text]
    case List(items) => items
  }

  function Token(name: string, text: string): string {
    "--" + name + "=" + text
  }

  function RenderFlag(name: string, v: Value): (r: seq<string>)
    ensures |r| == |Texts(v)| && forall i :: 0 <= i < |r| ==> r[i] == Token(name, Texts(v)[i])
  {
    match v
    case Nil => []
    case Flag(b) => [Token(name, if b then "true" else "false")]
    case Scalar(text) => [Token(name, text)]
    case List(items) => seq(|items|, i requires 0 <= i < |items| => Token(name, items[i]))
  }

  function RenderAll(opts: map<string, Value>, names: seq<string>): seq<string>
    requires forall i :: 0 <= i < |names| ==> names[i] in opts
  {
    if names == [] then []
    else RenderAll(opts, names[..|names| - 1]) + RenderFlag(names[|names| - 1], opts[names[|names| - 1]])
  }

  /** Positionals, and --yes if confirmed. */
  function Tail(args: seq<string>, confirm: bool): seq<string> {
    args + (if confirm then [CONFIRM] else [])
  }

  function Options(opts: map<string, Value>): seq<string> {
    SortedMembers(opts.Keys);
    RenderAll(opts, Sorted(opts.Keys))
  }

  function Argv(path: seq<string>, args: seq<string>, opts: map<string, Value>, confirm: bool): seq<string> {
    path + (Options(opts) + Tail(args, confirm)) + FORMAT
  }

  lemma Reassociate(a: seq<string>, b: seq<string>, c: seq<string>)
    ensures (a + b) + c == a + (b + c)
  {
  }

  /** The option loop. */
  method AppendOptions(path: seq<string>, opts: map<string, Value>, names: seq<string>) returns (argv: seq<string>)
    requires forall i :: 0 <= i < |names| ==> names[i] in opts
    ensures argv == path + RenderAll(opts, names)
  {
    argv := path;
    for i := 0 to |names|
      invariant argv == path + RenderAll(opts, names[..i])
    {
      assert names[..i + 1][..i] == names[..i];
      Reassociate(path, RenderAll(opts, names[..i]), RenderFlag(names[i], opts[names[i]]));
      argv := argv + RenderFlag(names[i], opts[names[i]]);
    }
    assert names[..|names|] == names;
  }

  /** buildArgv; names is the option keys in increasing order, of which there is one list. */
  method BuildArgv(path: seq<string>, args: seq<string>, opts: map<string, Value>, names: seq<string>, confirm: bool) returns (argv: seq<string>)
    requires Increasing(names) && forall k :: k in names <==> k in opts.Keys
    ensures argv == Argv(path, args, opts, confirm)
  {
    SortedUnique(opts.Keys, names);
    SortedMembers(opts.Keys);
    argv := AppendOptions(path, opts, names);
    Reassociate(path, Options(opts), Tail(args, confirm));
    Reassociate(path + Options(opts), args, if confirm then [CONFIRM] else []);
    argv := argv + args;
    if confirm {
      argv := argv + [CONFIRM];
    }
    argv := argv + FORMAT;
  }

  // Reading it back.

  datatype Binding = Binding(name: string, text: string)

  function Given(name: string, texts: seq<string>): (bs: seq<Binding>)
    ensures |bs| == |texts| && forall i :: 0 <= i < |texts| ==> bs[i] == Binding(name, texts[i])
  {
    seq(|texts|, i requires 0 <= i < |texts| => Binding(name, texts[i]))
  }

  /** What an option map binds: every rendered value, by key in sorted order, in list order. */
  function BindingsOf(opts: map<string, Value>, names: seq<string>): seq<Binding>
    requires forall i :: 0 <= i < |names| ==> names[i] in opts
  {
    if names == [] then []
    else BindingsOf(opts, names[..|names| - 1]) + Given(names[|names| - 1], Texts(opts[names[|names| - 1]]))
  }

  predicate IsOption(token: string) {
    HasPrefix(token, "--") && '=' in token
  }

  /** The text before the first '=', and after it. */
  function ParseOption(token: string): Binding
    requires IsOption(token)
  {
    var body := token[2..];
    assert token == token[..2] + body;
    var i := FirstEquals(body);
    Binding(body[..i], body[i + 1..])
  }

  function FirstEquals(s: string): (i: nat)
    requires '=' in s
    ensures i < |s| && s[i] == '=' && forall j :: 0 <= j < i ==> s[j] != '='
  {
    if s[0] == '=' then 0 else 1 + FirstEquals(s[1..])
  }

  datatype Decoded = Decoded(bindings: seq<Binding>, args: seq<string>, confirm: bool)

  function LeadingOptions(tokens: seq<string>): (n: nat)
    ensures n <= |tokens| && (forall i :: 0 <= i < n ==> IsOption(tokens[i])) && (n < |tokens| ==> !IsOption(tokens[n]))
  {
    if tokens == [] || !IsOption(tokens[0]) then 0 else 1 + LeadingOptions(tokens[1..])
  }

  function Parse(tokens: seq<string>): (bs: seq<Binding>)
    requires forall i :: 0 <= i < |tokens| ==> IsOption(tokens[i])
    ensures |bs| == |tokens| && forall i :: 0 <= i < |tokens| ==> bs[i] == ParseOption(tokens[i])
  {
    seq(|tokens|, i requires 0 <= i < |tokens| => ParseOption(tokens[i]))
  }

  /** Positionals, and the --yes after them. */
  function ReadTail(bindings: seq<Binding>, rest: seq<string>): Decoded {
    var confirm := rest != [] && rest[|rest| - 1] == CONFIRM;
    Decoded(bindings, if confirm then rest[..|rest| - 1] else rest, confirm)
  }

  /** The options up to the first token that is none, then the rest. */
  function ReadTokens(tokens: seq<string>): Decoded {
    var n := LeadingOptions(tokens);
    ReadTail(Parse(tokens[..n]), tokens[n..])
  }

  function Decode(argv: seq<string>, path: nat): Option<Decoded> {
    if |argv| < path + 2 || argv[|argv| - 2..] != FORMAT then None
    else Some(ReadTokens(argv[path..|argv| - 2]))
  }

  predicate NoEquals(s: string) {
    '=' !in s
  }

  lemma TokenIsOption(name: string, text: string)
    ensures IsOption(Token(name, text))
  {
    assert Token(name, text)[|name| + 2] == '=';
  }

  lemma TokenParses(name: string, text: string)
    requires NoEquals(name)
    ensures IsOption(Token(name, text)) && ParseOption(Token(name, text)) == Binding(name, text)
  {
    TokenIsOption(name, text);
    var token := Token(name, text);
    var body := token[2..];
    assert token == "--" + body && body == name + "=" + text;
    assert body[|name|] == '=';
    assert forall j :: 0 <= j < |name| ==> body[j] == name[j];
    assert FirstEquals(body) == |name|;
    assert body[..|name|] == name && body[|name| + 1..] == text;
  }

  /** A name read back never holds an equals sign. */
  lemma ParsedName(token: string)
    requires IsOption(token)
    ensures NoEquals(ParseOption(token).name)
  {
  }

  lemma FlagParses(name: string, v: Value)
    requires Texts(v) != [] ==> NoEquals(name)
    ensures forall i :: 0 <= i < |RenderFlag(name, v)| ==> IsOption(RenderFlag(name, v)[i])
    ensures Parse(RenderFlag(name, v)) == Given(name, Texts(v))
  {
    forall i | 0 <= i < |Texts(v)|
      ensures IsOption(RenderFlag(name, v)[i]) && ParseOption(RenderFlag(name, v)[i]) == Binding(name, Texts(v)[i])
    {
      TokenParses(name, Texts(v)[i]);
    }
  }

  lemma ParseAppend(a: seq<string>, b: seq<string>)
    requires forall i :: 0 <= i < |a| ==> IsOption(a[i])
    requires forall i :: 0 <= i < |b| ==> IsOption(b[i])
    ensures forall i :: 0 <= i < |a + b| ==> IsOption((a + b)[i])
    ensures Parse(a + b) == Parse(a) + Parse(b)
  {
  }

  /** Whatever the keys, rendered options read as options, as many as there are bindings. */
  lemma {:induction false} RenderedOptions(opts: map<string, Value>, names: seq<string>)
    requires forall i :: 0 <= i < |names| ==> names[i] in opts
    ensures forall i :: 0 <= i < |RenderAll(opts, names)| ==> IsOption(RenderAll(opts, names)[i])
    ensures |RenderAll(opts, names)| == |BindingsOf(opts, names)|
  {
    if names != [] {
      var n := names[|names| - 1];
      RenderedOptions(opts, names[..|names| - 1]);
      forall i | 0 <= i < |Texts(opts[n])|
        ensures IsOption(RenderFlag(n, opts[n])[i])
      {
        TokenIsOption(n, Texts(opts[n])[i]);
      }
    }
  }

  lemma {:induction false} RenderedParses(opts: map<string, Value>, names: seq<string>)
    requires forall i :: 0 <= i < |names| ==> names[i] in opts && (Texts(opts[names[i]]) != [] ==> NoEquals(names[i]))
    ensures forall i :: 0 <= i < |RenderAll(opts, names)| ==> IsOption(RenderAll(opts, names)[i])
    ensures Parse(RenderAll(opts, names)) == BindingsOf(opts, names)
  {
    if names != [] {
      var front, n := names[..|names| - 1], names[|names| - 1];
      RenderedParses(opts, front);
      FlagParses(n, opts[n]);
      ParseAppend(RenderAll(opts, front), RenderFlag(n, opts[n]));
    }
  }

  /** A key with a value is bound somewhere. */
  lemma {:induction false} BoundSomewhere(opts: map<string, Value>, names: seq<string>, k: string) returns (i: nat)
    requires forall i :: 0 <= i < |names| ==> names[i] in opts
    requires k in names && Texts(opts[k]) != []
    ensures i < |BindingsOf(opts, names)| && BindingsOf(opts, names)[i].name == k
  {
    var front, n := names[..|names| - 1], names[|names| - 1];
    if k == n {
      i := |BindingsOf(opts, front)|;
    } else {
      assert names == front + [n];
      i := BoundSomewhere(opts, front, k);
    }
  }

  lemma {:induction false} LeadingAppend(options: seq<string>, rest: seq<string>)
    requires forall i :: 0 <= i < |options| ==> IsOption(options[i])
    ensures LeadingOptions(options + rest) == |options| + LeadingOptions(rest)
  {
    if options == [] {
      assert options + rest == rest;
    } else {
      assert (options + rest)[1..] == options[1..] + rest;
      LeadingAppend(options[1..], rest);
    }
  }

  lemma Slices(path: seq<string>, middle: seq<string>)
    ensures var argv := path + middle + FORMAT;
      |argv| == |path| + |middle| + 2 && argv[|path|..|argv| - 2] == middle && argv[|argv| - 2..] == FORMAT
  {
  }

  lemma SplitOptions(options: seq<string>, rest: seq<string>, l: nat)
    requires l <= |rest|
    ensures (options + rest)[..|options| + l] == options + rest[..l] && (options + rest)[|options| + l..] == rest[l..]
  {
  }

  lemma ReadSplit(options: seq<string>, rest: seq<string>)
    requires forall i :: 0 <= i < |options| ==> IsOption(options[i])
    ensures var l := LeadingOptions(rest);
      ReadTokens(options + rest) == ReadTail(Parse(options) + Parse(rest[..l]), rest[l..])
  {
    var l, tokens := LeadingOptions(rest), options + rest;
    var n := LeadingOptions(tokens);
    assert n == |options| + l by {
      LeadingAppend(options, rest);
    }
    assert tokens[..n] == options + rest[..l] && tokens[n..] == rest[l..] by {
      SplitOptions(options, rest, l);
    }
    ParseAppend(options, rest[..l]);
  }

  /** What decoding gives back for any call: leading positionals that look like options join
      the bindings. */
  lemma DecodeArgv(path: seq<string>, args: seq<string>, opts: map<string, Value>, confirm: bool)
    ensures forall i :: 0 <= i < |Options(opts)| ==> IsOption(Options(opts)[i])
    ensures var rest := Tail(args, confirm);
      var l := LeadingOptions(rest);
      Decode(Argv(path, args, opts, confirm), |path|) == Some(ReadTail(Parse(Options(opts)) + Parse(rest[..l]), rest[l..]))
  {
    SortedMembers(opts.Keys);
    RenderedOptions(opts, Sorted(opts.Keys));
    ReadSplit(Options(opts), Tail(args, confirm));
    Slices(path, Options(opts) + Tail(args, confirm));
  }

  /** No key that is given a value, null and the empty list apart, holds an equals sign. */
  predicate PlainKeys(opts: map<string, Value>) {
    forall k | k in opts && opts[k] != Nil && opts[k] != List([]) :: NoEquals(k)
  }

  /** The positionals do not start with what reads as an option. */
  predicate StartsPlain(args: seq<string>) {
    args != [] ==> !IsOption(args[0])
  }

  /** Unconfirmed, they do not end with --yes. */
  predicate EndsPlain(args: seq<string>, confirm: bool) {
    args != [] && args[|args| - 1] == CONFIRM ==> confirm
  }

  lemma TailLeads(args: seq<string>, confirm: bool)
    ensures LeadingOptions(Tail(args, confirm)) == 0 <==> StartsPlain(args)
  {
    assert '=' !in CONFIRM;
  }

  lemma TailEnds(own: seq<Binding>, expected: seq<Binding>, args: seq<string>, confirm: bool)
    ensures ReadTail(own, Tail(args, confirm)) == Decoded(expected, args, confirm) <==> own == expected && EndsPlain(args, confirm)
  {
    var rest := Tail(args, confirm);
    if confirm {
      assert rest[|rest| - 1] == CONFIRM && rest[..|rest| - 1] == args;
    } else {
      assert rest == args;
    }
  }

  /** Positionals that start like an option leave more bindings than there are values. */
  lemma TailMisread(own: seq<Binding>, expected: seq<Binding>, args: seq<string>, confirm: bool)
    requires |own| == |expected|
    ensures var rest := Tail(args, confirm);
      var l := LeadingOptions(rest);
      ReadTail(own + Parse(rest[..l]), rest[l..]) == Decoded(expected, args, confirm) <==>
        own == expected && StartsPlain(args) && EndsPlain(args, confirm)
  {
    var rest := Tail(args, confirm);
    var l := LeadingOptions(rest);
    TailLeads(args, confirm);
    if l == 0 {
      assert own + Parse(rest[..l]) == own && rest[l..] == rest;
      TailEnds(own, expected, args, confirm);
    } else {
      assert |own + Parse(rest[..l])| > |expected|;
    }
  }

  /** Rendered options read back as their bindings exactly when the keys are plain. */
  lemma OptionsReadBack(opts: map<string, Value>)
    ensures forall i :: 0 <= i < |Options(opts)| ==> IsOption(Options(opts)[i])
    ensures forall i :: 0 <= i < |Sorted(opts.Keys)| ==> Sorted(opts.Keys)[i] in opts
    ensures |Options(opts)| == |BindingsOf(opts, Sorted(opts.Keys))|
    ensures Parse(Options(opts)) == BindingsOf(opts, Sorted(opts.Keys)) <==> PlainKeys(opts)
  {
    var names := Sorted(opts.Keys);
    SortedMembers(opts.Keys);
    SortedIsSorted(opts.Keys);
    RenderedOptions(opts, names);
    if PlainKeys(opts) {
      RenderedParses(opts, names);
    } else {
      var k :| k in opts && Texts(opts[k]) != [] && !NoEquals(k);
      assert k in names;
      var i := BoundSomewhere(opts, names, k);
      ParsedName(Options(opts)[i]);
    }
  }

  /** Argv faithfulness: whatever the order of the option map, decoding the argument vector
      gives back every rendered binding in list order, the positionals and the confirmation
      exactly when no key with a value holds an equals sign, the first positional does not
      read as an option, and the last is not --yes unless the call is confirmed. */
  lemma ArgvRoundTrip(path: seq<string>, args: seq<string>, opts: map<string, Value>, confirm: bool)
    ensures forall i :: 0 <= i < |Sorted(opts.Keys)| ==> Sorted(opts.Keys)[i] in opts
    ensures Decode(Argv(path, args, opts, confirm), |path|) == Some(Decoded(BindingsOf(opts, Sorted(opts.Keys)), args, confirm)) <==>
            PlainKeys(opts) && StartsPlain(args) && EndsPlain(args, confirm)
  {
    OptionsReadBack(opts);
    DecodeArgv(path, args, opts, confirm);
    TailMisread(Parse(Options(opts)), BindingsOf(opts, Sorted(opts.Keys)), args, confirm);
  }

  /** What an option was given is what is bound under its name, in order. */
  function Bound(bs: seq<Binding>, name: string): seq<string> {
    if bs == [] then []
    else Bound(bs[..|bs| - 1], name) + (if bs[|bs| - 1].name == name then [bs[|bs| - 1].text] else [])
  }

  lemma {:induction false} BoundAppend(a: seq<Binding>, b: seq<Binding>, name: string)
    ensures Bound(a + b, name) == Bound(a, name) + Bound(b, name)
    decreases |b|
  {
    if b == [] {
      assert a + b == a;
    } else {
      assert (a + b)[..|a + b| - 1] == a + b[..|b| - 1];
      BoundAppend(a, b[..|b| - 1], name);
    }
  }

  lemma {:induction false} BoundOne(n: string, texts: seq<string>, name: string)
    ensures Bound(Given(n, texts), name) == if n == name then texts else []
  {
    if texts != [] {
      var front := texts[..|texts| - 1];
      BoundOne(n, front, name);
      assert Given(n, texts)[..|texts| - 1] == Given(n, front);
      assert texts == front + [texts[|texts| - 1]];
    }
  }

  lemma BoundStep(bs: seq<Binding>, n: string, texts: seq<string>, name: string)
    ensures Bound(bs + Given(n, texts), name) == Bound(bs, name) + (if n == name then texts else [])
  {
    BoundOne(n, texts, name);
    BoundAppend(bs, Given(n, texts), name);
  }

  lemma LastApart(names: seq<string>, name: string)
    requires names != [] && forall i, j :: 0 <= i < j < |names| ==> names[i] != names[j]
    ensures var front, n := names[..|names| - 1], names[|names| - 1];
      n !in front && (name in names <==> name in front || name == n)
  {
  }

  lemma {:induction false} BoundExactly(opts: map<string, Value>, names: seq<string>, name: string)
    requires forall i :: 0 <= i < |names| ==> names[i] in opts
    requires forall i, j :: 0 <= i < j < |names| ==> names[i] != names[j]
    ensures Bound(BindingsOf(opts, names), name) == if name in names then Texts(opts[name]) else []
  {
    if names != [] {
      var front, n := names[..|names| - 1], names[|names| - 1];
      LastApart(names, name);
      BoundExactly(opts, front, name);
      BoundStep(BindingsOf(opts, front), n, Texts(opts[n]), name);
    }
  }

  lemma {:induction false} BoundNowhere(bs: seq<Binding>, name: string)
    requires forall i :: 0 <= i < |bs| ==> bs[i].name != name
    ensures Bound(bs, name) == []
  {
    if bs != [] {
      BoundNowhere(bs[..|bs| - 1], name);
    }
  }

  /** What the call's options say about a name. */
  function Told(opts: map<string, Value>, name: string): seq<string> {
    if name in opts then Texts(opts[name]) else []
  }

  lemma BoundWith(opts: map<string, Value>, extra: seq<Binding>, name: string)
    ensures forall i :: 0 <= i < |Sorted(opts.Keys)| ==> Sorted(opts.Keys)[i] in opts
    ensures Bound(BindingsOf(opts, Sorted(opts.Keys)) + extra, name) == Told(opts, name) + Bound(extra, name)
  {
    SortedMembers(opts.Keys);
    SortedDistinct(opts);
    BoundExactly(opts, Sorted(opts.Keys), name);
    BoundAppend(BindingsOf(opts, Sorted(opts.Keys)), extra, name);
  }

  /** Under each name the child is given exactly what the call's options say, for every
      name, just when the keys are plain and the first positional does not read as an option. */
  lemma OptionsReachChild(path: seq<string>, args: seq<string>, opts: map<string, Value>, confirm: bool)
    ensures var d := Decode(Argv(path, args, opts, confirm), |path|);
      && d.Some?
      && ((forall name :: Bound(d.value.bindings, name) == Told(opts, name)) <==> PlainKeys(opts) && StartsPlain(args))
  {
    var rest := Tail(args, confirm);
    var extra := Parse(rest[..LeadingOptions(rest)]);
    DecodeArgv(path, args, opts, confirm);
    TailLeads(args, confirm);
    ParsedNames(rest[..LeadingOptions(rest)]);
    assert Decode(Argv(path, args, opts, confirm), |path|).value.bindings == Parse(Options(opts)) + extra;
    BoundAsTold(opts, extra);
  }

  lemma ParsedNames(tokens: seq<string>)
    requires forall i :: 0 <= i < |tokens| ==> IsOption(tokens[i])
    ensures forall i :: 0 <= i < |Parse(tokens)| ==> NoEquals(Parse(tokens)[i].name)
  {
  }

  /** With extra bindings after its own, the child is told the truth about every name just
      when the keys are plain and there are none. */
  lemma BoundAsTold(opts: map<string, Value>, extra: seq<Binding>)
    requires forall i :: 0 <= i < |Options(opts)| ==> IsOption(Options(opts)[i])
    requires forall i :: 0 <= i < |extra| ==> NoEquals(extra[i].name)
    ensures (forall name :: Bound(Parse(Options(opts)) + extra, name) == Told(opts, name)) <==> PlainKeys(opts) && extra == []
  {
    if !PlainKeys(opts) {
      var k := KeyMisread(opts, extra);
    } else {
      forall name
        ensures Bound(Parse(Options(opts)) + extra, name) == Told(opts, name) + Bound(extra, name)
      {
        OptionsReadBack(opts);
        BoundWith(opts, extra, name);
      }
      if extra != [] {
        var name := extra[|extra| - 1].name;
        assert |Bound(extra, name)| > 0;
        assert Bound(Parse(Options(opts)) + extra, name) != Told(opts, name);
      }
    }
  }

  /** A key with a value and an equals sign reaches nobody. */
  lemma KeyMisread(opts: map<string, Value>, extra: seq<Binding>) returns (k: string)
    requires forall i :: 0 <= i < |Options(opts)| ==> IsOption(Options(opts)[i])
    requires (forall i :: 0 <= i < |extra| ==> NoEquals(extra[i].name)) && !PlainKeys(opts)
    ensures Bound(Parse(Options(opts)) + extra, k) != Told(opts, k)
  {
    k :| k in opts && opts[k] != Nil && opts[k] != List([]) && !NoEquals(k);
    KeyLost(Parse(Options(opts)) + extra, k);
  }

  // What the child makes of it.

  /** What a flag of the child takes: a truth value, one text, or a text for each time it is given. */
  datatype Kind = Switch | Single | Repeated

  predicate Fits(kind: Kind, v: Value) {
    match v
    case Nil => true
    case Flag(_) => kind == Switch
    case Scalar(_) => kind == Single
    case List(_) => kind == Repeated
  }

  /** The child's reading of what a flag was given, the last time counting where one does. */
  function ReadFlag(kind: Kind, texts: seq<string>): Option<Value> {
    if texts == [] then Some(Nil)
    else
      var last := texts[|texts| - 1];
      match kind
      case Switch => if last == "true" then Some(Flag(true)) else if last == "false" then Some(Flag(false)) else None
      case Single => Some(Scalar(last))
      case Repeated => Some(List(texts))
  }

  lemma TextsReadBack(kind: Kind, v: Value)
    requires Fits(kind, v)
    ensures ReadFlag(kind, Texts(v)) == Some(if v == List([]) then Nil else v)
  {
  }

  /** Whatever the call's options, if keys and positionals are plain, the child reads back the
      JSON value given under every name: the truth value of a switch, the text of a scalar,
      the items of a list in order; and nothing for null, for an empty list and for a name
      that was not given. */
  lemma ValuesReachChild(path: seq<string>, args: seq<string>, opts: map<string, Value>, confirm: bool)
    requires PlainKeys(opts) && StartsPlain(args)
    ensures var d := Decode(Argv(path, args, opts, confirm), |path|);
      && d.Some?
      && (forall k, kind :: k in opts && Fits(kind, opts[k]) ==>
            ReadFlag(kind, Bound(d.value.bindings, k)) == Some(if opts[k] == List([]) then Nil else opts[k]))
      && (forall k :: k !in opts ==> Bound(d.value.bindings, k) == [])
  {
    OptionsReachChild(path, args, opts, confirm);
    var bs := Decode(Argv(path, args, opts, confirm), |path|).value.bindings;
    assert forall k :: Bound(bs, k) == Told(opts, k);
    forall k, kind | k in opts && Fits(kind, opts[k])
      ensures ReadFlag(kind, Bound(bs, k)) == Some(if opts[k] == List([]) then Nil else opts[k])
    {
      assert Bound(bs, k) == Told(opts, k);
      TextsReadBack(kind, opts[k]);
    }
  }

  /** The frame of every vector, token by token: the tool's path first, the positionals after
      the options, --yes after them if confirmed, and the output format at the end. */
  lemma ArgvFrame(path: seq<string>, args: seq<string>, opts: map<string, Value>, confirm: bool)
    ensures var argv := Argv(path, args, opts, confirm);
      var tail := args + (if confirm then ["--yes"] else []) + ["--format", "jsonl"];
      |argv| >= |path| + |tail| && argv[..|path|] == path && argv[|argv| - |tail|..] == tail
  {
    var tail := args + (if confirm then ["--yes"] else []) + ["--format", "jsonl"];
    assert Argv(path, args, opts, confirm) == path + Options(opts) + tail;
  }

  lemma KeyLost(bs: seq<Binding>, k: string)
    requires !NoEquals(k) && forall i :: 0 <= i < |bs| ==> NoEquals(bs[i].name)
    ensures Bound(bs, k) == []
  {
    BoundNowhere(bs, k);
  }

  lemma SortedDistinct(opts: map<string, Value>)
    ensures forall name :: name in Sorted(opts.Keys) <==> name in opts
    ensures forall i, j :: 0 <= i < j < |Sorted(opts.Keys)| ==> Sorted(opts.Keys)[i] != Sorted(opts.Keys)[j]
  {
    var names := Sorted(opts.Keys);
    SortedIsSorted(opts.Keys);
    forall i, j | 0 <= i < j < |names|
      ensures names[i] != names[j]
    {
      LessIrreflexive(names[i]);
    }
  }

  lemma OneOption(k: string, v: Value)
    ensures Options(map[k := v]) == RenderFlag(k, v)
  {
    var opts := map[k := v];
    SortedMembers(opts.Keys);
    assert |opts.Keys| == 1 by {
      assert opts.Keys == {k};
    }
    assert Sorted(opts.Keys)[0] in opts.Keys;
    assert Sorted(opts.Keys) == [k];
    assert RenderAll(opts, [k][..0]) == [];
  }

  lemma LeadingOptionJoins(args: seq<string>, confirm: bool, k: string, text: string)
    ensures Options(map[]) + Tail([Token(k, text)] + args, confirm) == Options(map[k := Scalar(text)]) + Tail(args, confirm)
  {
    OneOption(k, Scalar(text));
    assert Options(map[]) == [];
    Reassociate([Token(k, text)], args, if confirm then [CONFIRM] else []);
  }

  /** Each condition has calls behind it that the vector cannot tell apart: a last positional
      --yes is a confirmation, a key may take part of its value, and a leading positional may
      be an option. */
  lemma ArgvAmbiguous(path: seq<string>, args: seq<string>, opts: map<string, Value>, confirm: bool, a: string, b: string, c: string)
    ensures Argv(path, args + [CONFIRM], opts, false) == Argv(path, args, opts, true)
    ensures Argv(path, args, map[a + "=" + b := Scalar(c)], confirm) == Argv(path, args, map[a := Scalar(b + "=" + c)], confirm)
    ensures Argv(path, [Token(a, c)] + args, map[], confirm) == Argv(path, args, map[a := Scalar(c)], confirm)
  {
    assert Tail(args + [CONFIRM], false) == Tail(args, true);
    SameToken(a, b, c);
    LeadingOptionJoins(args, confirm, a, c);
  }

  lemma SameToken(a: string, b: string, c: string)
    ensures Options(map[a + "=" + b := Scalar(c)]) == Options(map[a := Scalar(b + "=" + c)])
  {
    OneOption(a + "=" + b, Scalar(c));
    OneOption(a, Scalar(b + "=" + c));
    assert Token(a + "=" + b, c) == Token(a, b + "=" + c);
  }
}
