/** From a subprocess result to a tool result: NDJSON lines into records and metadata, with
    in-root paths replaced and, where needed, the text rebuilt without them. */
module Translation {
  import opened Wrappers
  import opened Strings
  import opened Callers
  import opened Paths
  import opened FileRefs

  /** Decoding a text into a JSON object (the literal null included), encoding a value, and
      the texts a decoded number can have. */
  datatype JsonText = JsonText(decode: string -> Option<Json>, encode: Json -> string, number: string -> bool)

  function Base(path: string): string {
    var parts := Split(path, '/');
    parts[|parts| - 1]
  }

  /** A reference as the JSON object it is encoded as. */
  function Atom(ref: Reference): Json {
    Obj(map["@type" := Str("file"), "root" := Str(ref.root), "path" := Str(ref.path), "name" := Str(Base(ref.path))])
  }

  /** What decoding an encoded value gives: references have become objects. */
  function Wire(v: Json): Json {
    match v
    case File(ref) => Atom(ref)
    case Obj(fields) => Obj(map k | k in fields :: Wire(fields[k]))
    case Arr(items) => Arr(seq(|items|, i requires 0 <= i < |items| => Wire(items[i])))
    case _ => v
  }

  ghost predicate Sound(t: JsonText, v: Json) {
    EveryLeaf((x: Json) => x.Num? ==> t.number(x.text), v)
  }

  /** Decoding yields objects or null, and undoes encoding, which stays on one line. */
  ghost predicate RoundTripsText(t: JsonText) {
    && (forall s :: t.decode(s).Some? ==>
          (t.decode(s).value.Obj? || t.decode(s).value.Null?) && Plain(t.decode(s).value) && Sound(t, t.decode(s).value))
    && (forall v: Json :: (v.Obj? || v.Null?) && Sound(t, v) ==>
          && t.decode(t.encode(v)) == Some(Wire(v))
          && '\n' !in t.encode(v) && t.encode(v) != "" && TrimSpace(t.encode(v)) == t.encode(v))
  }

  /** The key of a metadata line: the only one, and starting with @. */
  function SingleMetaKey(obj: Json): Option<string> {
    if obj.Obj? && exists k | k in obj.fields :: obj.fields.Keys == {k} && HasPrefix(k, "@") then
      var k :| k in obj.fields && obj.fields.Keys == {k} && HasPrefix(k, "@");
      Some(k)
    else None
  }

  datatype Line = Blank | Text | Meta(key: string, value: Json) | Record(v: Json)

  function Classify(t: JsonText, roots: seq<FileRoot>, line: string): Line {
    var trimmed := TrimSpace(line);
    if trimmed == "" then Blank
    else
      match t.decode(trimmed)
      case None => Text
      case Some(obj) =>
        var key := SingleMetaKey(obj);
        if key.Some? then Meta(key.value, obj.fields[key.value]) else Record(Rewrite(roots, obj))
  }

  /** The line as the rebuilt text has it. */
  function Emit(t: JsonText, k: Line, line: string): string {
    if k.Record? then t.encode(k.v) else line
  }

  datatype Processed = Processed(records: seq<Json>, meta: map<string, Json>, lines: seq<string>)

  function Add(t: JsonText, p: Processed, k: Line, line: string): Processed {
    match k
    case Blank => p
    case Text => p.(lines := p.lines + [line])
    case Meta(key, value) => p.(meta := p.meta[key := value], lines := p.lines + [line])
    case Record(v) => p.(records := p.records + [v], lines := p.lines + [t.encode(v)])
  }

  function Process(t: JsonText, roots: seq<FileRoot>, lines: seq<string>): Processed {
    if lines == [] then Processed([], map[], [])
    else
      var last := lines[|lines| - 1];
      Add(t, Process(t, roots, lines[..|lines| - 1]), Classify(t, roots, last), last)
  }

  function Processing(t: JsonText, roots: seq<FileRoot>, stdout: string): Processed {
    Process(t, roots, Split(stdout, '\n'))
  }

  function Scrubbed(p: Processed): string {
    Join(p.lines, "\n")
  }

  method ProcessStdout(t: JsonText, roots: seq<FileRoot>, stdout: string, scrub: bool)
    returns (records: seq<Json>, meta: map<string, Json>, scrubbed: string)
    ensures var p := Processing(t, roots, stdout);
      records == p.records && meta == p.meta && scrubbed == if scrub then Scrubbed(p) else ""
  {
    records, meta, scrubbed := [], map[], "";
    var kept: seq<string> := [];
    var lines := Split(stdout, '\n');
    for i := 0 to |lines|
      invariant var p := Process(t, roots, lines[..i]);
        records == p.records && meta == p.meta && (scrub ==> kept == p.lines)
    {
      assert lines[..i + 1][..i] == lines[..i];
      var trimmed := TrimSpace(lines[i]);
      if trimmed == "" {
        continue;
      }
      var obj := t.decode(trimmed);
      if obj.None? {
        if scrub {
          kept := kept + [lines[i]];
        }
        continue;
      }
      var key := SingleMetaKey(obj.value);
      if key.Some? {
        meta := meta[key.value := obj.value.fields[key.value]];
        if scrub {
          kept := kept + [lines[i]];
        }
        continue;
      }
      var record := RewriteFileRefs(obj.value, roots);
      records := records + [record];
      if scrub {
        kept := kept + [t.encode(record)];
      }
    }
    assert lines[..|lines|] == lines;
    if scrub {
      scrubbed := Join(kept, "\n");
    }
  }

  // Processing its own output.

  ghost predicate CleanRoots(roots: seq<FileRoot>) {
    forall i :: 0 <= i < |roots| ==> CleanAbs(roots[i].path)
  }

  /** No root's name is itself a path at or under a root. */
  predicate NamesUnrooted(roots: seq<FileRoot>) {
    forall i | 0 <= i < |roots| :: !Rooted(roots, roots[i].name)
  }

  /** Every path of the line that the rewrite touches is clean. */
  ghost predicate Tidy(t: JsonText, roots: seq<FileRoot>, line: string) {
    var obj := t.decode(TrimSpace(line));
    obj.Some? ==> EveryString(s => Rooted(roots, s) ==> CleanAbs(s), obj.value)
  }

  ghost predicate AllTidy(t: JsonText, roots: seq<FileRoot>, lines: seq<string>) {
    forall i :: 0 <= i < |lines| ==> Tidy(t, roots, lines[i])
  }

  lemma RootedAbsolute(roots: seq<FileRoot>, s: string)
    requires CleanRoots(roots) && Rooted(roots, s)
    ensures HasPrefix(s, "/")
  {
    var i :| 0 <= i < |roots| && Under(roots[i].path, s);
    assert roots[i].path <= s && s[0] == roots[i].path[0];
  }

  /** A relative path, or one segment, is under no clean root. */
  lemma NotAbsoluteNotRooted(roots: seq<FileRoot>, s: string)
    requires CleanRoots(roots) && !HasPrefix(s, "/")
    ensures !Rooted(roots, s)
  {
    if Rooted(roots, s) {
      RootedAbsolute(roots, s);
    }
  }

  lemma RelativeNotAbsolute(root: string, s: string)
    requires CleanAbs(s) && Under(root, s)
    ensures !HasPrefix(Relative(root, s), "/") && !HasPrefix(Base(Relative(root, s)), "/")
  {
    var rel := Relative(root, s);
    if s != root {
      RelativeSegments(root, s);
    }
    JoinSplit(rel, '/');
    assert '/' !in Base(rel);
  }

  /** What the leaves of a value read back look like: no reference, and no rooted string. */
  ghost function Inert(t: JsonText, roots: seq<FileRoot>): Json -> bool {
    (x: Json) => !x.File? && (x.Num? ==> t.number(x.text)) && (x.Str? ==> !Rooted(roots, x.s))
  }

  /** What the leaves of a record look like: inert once read back. */
  ghost function InertOnWire(t: JsonText, roots: seq<FileRoot>): Json -> bool {
    (x: Json) => if x.File? then EveryLeaf(Inert(t, roots), Atom(x.ref)) else Inert(t, roots)(x)
  }

  lemma AtomInert(t: JsonText, roots: seq<FileRoot>, ref: Reference)
    requires !Rooted(roots, "file") && !Rooted(roots, ref.root) && !Rooted(roots, ref.path) && !Rooted(roots, Base(ref.path))
    ensures EveryLeaf(Inert(t, roots), Atom(ref))
  {
    var fields := Atom(ref).fields;
    forall k | k in fields
      ensures EveryLeaf(Inert(t, roots), fields[k])
    {
      assert k in {"@type", "root", "path", "name"};
    }
  }

  /** None of the strings of a reference minted for a clean path is rooted, under roots
      whose names are not. */
  lemma MintedUnrooted(roots: seq<FileRoot>, s: string)
    requires CleanRoots(roots) && NamesUnrooted(roots) && Rooted(roots, s) && CleanAbs(s)
    ensures var ref := FileRefFor(roots, s).value;
      !Rooted(roots, ref.root) && !Rooted(roots, ref.path) && !Rooted(roots, Base(ref.path))
  {
    DeepestContains(roots, s);
    var r := Deepest(roots, s).value;
    var i :| 0 <= i < |roots| && roots[i] == r;
    assert !Rooted(roots, roots[i].name);
    RelativeNotAbsolute(r.path, s);
    NotAbsoluteNotRooted(roots, Relative(r.path, s));
    NotAbsoluteNotRooted(roots, Base(Relative(r.path, s)));
  }

  lemma MintedInert(t: JsonText, roots: seq<FileRoot>, s: string)
    requires CleanRoots(roots) && NamesUnrooted(roots) && Rooted(roots, s) && CleanAbs(s)
    ensures EveryLeaf(Inert(t, roots), Atom(FileRefFor(roots, s).value))
  {
    MintedUnrooted(roots, s);
    assert "file"[0] != "/"[0];
    NotAbsoluteNotRooted(roots, "file");
    AtomInert(t, roots, FileRefFor(roots, s).value);
  }

  lemma {:induction false} WireLeaves(P: Json -> bool, Q: Json -> bool, v: Json)
    requires EveryLeaf(P, v)
    requires forall x: Json :: !x.Obj? && !x.Arr? && P(x) ==> EveryLeaf(Q, Wire(x))
    ensures EveryLeaf(Q, Wire(v))
  {
    match v
    case Obj(fields) =>
      forall k | k in fields
        ensures EveryLeaf(Q, Wire(fields[k]))
      {
        WireLeaves(P, Q, fields[k]);
      }
    case Arr(items) =>
      forall i | 0 <= i < |items|
        ensures EveryLeaf(Q, Wire(items[i]))
      {
        WireLeaves(P, Q, items[i]);
      }
    case _ => assert EveryLeaf(Q, Wire(v));
  }

  lemma {:induction false} WirePlain(v: Json)
    requires Plain(v)
    ensures Wire(v) == v
  {
    match v
    case Obj(fields) =>
      forall k | k in fields
        ensures Wire(fields[k]) == fields[k]
      {
        WirePlain(fields[k]);
      }
      assert (map k | k in fields :: Wire(fields[k])) == fields;
    case Arr(items) =>
      forall i | 0 <= i < |items|
        ensures Wire(items[i]) == items[i]
      {
        WirePlain(items[i]);
      }
      assert seq(|items|, i requires 0 <= i < |items| => Wire(items[i])) == items;
    case _ =>
  }

  lemma {:induction false} EveryLeafWeaker(P: Json -> bool, Q: Json -> bool, v: Json)
    requires EveryLeaf(P, v) && forall x: Json :: P(x) ==> Q(x)
    ensures EveryLeaf(Q, v)
  {
    match v
    case Obj(fields) =>
      forall k | k in fields
        ensures EveryLeaf(Q, fields[k])
      {
        EveryLeafWeaker(P, Q, fields[k]);
      }
    case Arr(items) =>
      forall i | 0 <= i < |items|
        ensures EveryLeaf(Q, items[i])
      {
        EveryLeafWeaker(P, Q, items[i]);
      }
    case _ =>
  }

  lemma LeafInert(t: JsonText, roots: seq<FileRoot>, x: Json)
    requires CleanRoots(roots) && NamesUnrooted(roots)
    requires !x.Obj? && !x.Arr? && !x.File?
    requires (x.Num? ==> t.number(x.text)) && (x.Str? && Rooted(roots, x.s) ==> CleanAbs(x.s))
    ensures InertOnWire(t, roots)(Rewrite(roots, x))
  {
    if x.Str? && Rooted(roots, x.s) {
      assert Rewrite(roots, x) == File(FileRefFor(roots, x.s).value);
      MintedInert(t, roots, x.s);
    } else {
      assert Rewrite(roots, x) == x;
      assert Inert(t, roots)(x);
    }
  }

  /** A record of a tidy line prints, and as read back is inert. */
  lemma RecordInert(t: JsonText, roots: seq<FileRoot>, obj: Json)
    requires CleanRoots(roots) && NamesUnrooted(roots)
    requires Plain(obj) && Sound(t, obj) && EveryString(s => Rooted(roots, s) ==> CleanAbs(s), obj)
    ensures EveryLeaf(InertOnWire(t, roots), Rewrite(roots, obj))
    ensures EveryLeaf(Inert(t, roots), Wire(Rewrite(roots, obj)))
  {
    var plain := (x: Json) => !x.File?;
    var sound := (x: Json) => x.Num? ==> t.number(x.text);
    var tidy := (x: Json) => x.Str? ==> Rooted(roots, x.s) ==> CleanAbs(x.s);
    var all := (x: Json) => plain(x) && sound(x) && tidy(x);
    EveryLeafWeaker((x: Json) => x.Str? ==> (s => Rooted(roots, s) ==> CleanAbs(s))(x.s), tidy, obj);
    EveryLeafBoth(plain, sound, obj);
    EveryLeafBoth((x: Json) => plain(x) && sound(x), tidy, obj);
    EveryLeafWeaker((x: Json) => ((y: Json) => plain(y) && sound(y))(x) && tidy(x), all, obj);
    forall x: Json | !x.Obj? && !x.Arr? && all(x)
      ensures InertOnWire(t, roots)(Rewrite(roots, x))
    {
      LeafInert(t, roots, x);
    }
    RewriteLeaves(roots, all, InertOnWire(t, roots), obj);
    WireLeaves(InertOnWire(t, roots), Inert(t, roots), Rewrite(roots, obj));
  }

  lemma InertReads(t: JsonText, roots: seq<FileRoot>, v: Json)
    requires EveryLeaf(Inert(t, roots), v)
    ensures Plain(v) && Sound(t, v) && Wire(v) == v && Rewrite(roots, v) == v
  {
    EveryLeafWeaker(Inert(t, roots), (x: Json) => !x.File?, v);
    EveryLeafWeaker(Inert(t, roots), (x: Json) => x.Num? ==> t.number(x.text), v);
    var P := s => !Rooted(roots, s);
    EveryLeafWeaker(Inert(t, roots), (x: Json) => x.Str? ==> P(x.s), v);
    WirePlain(v);
    RewriteNothing(roots, v);
  }

  /** Neither the rewrite nor encoding turns a record into a metadata line. */
  lemma StaysRecord(roots: seq<FileRoot>, obj: Json)
    requires (obj.Obj? || obj.Null?) && SingleMetaKey(obj).None?
    ensures SingleMetaKey(Wire(Rewrite(roots, obj))).None?
  {
    if obj.Obj? {
      assert Wire(Rewrite(roots, obj)).fields.Keys == obj.fields.Keys;
    }
  }

  function Wired(k: Line): Line {
    if k.Record? then Record(Wire(k.v)) else k
  }

  /** A line of the rebuilt text is read as what it was written for, and rebuilt once more
      it does not change any further. */
  lemma LineFixpoint(t: JsonText, roots: seq<FileRoot>, line: string)
    requires RoundTripsText(t) && CleanRoots(roots) && NamesUnrooted(roots) && Tidy(t, roots, line)
    ensures var k := Classify(t, roots, line);
      var line' := Emit(t, k, line);
      var line'' := Emit(t, Wired(k), line');
      && Classify(t, roots, line') == Wired(k) && Classify(t, roots, line'') == Wired(k)
      && Emit(t, Wired(k), line'') == line''
      && (k.Record? ==> t.decode(line') == t.decode(line'') == Some(Wire(k.v)))
  {
    var k := Classify(t, roots, line);
    if k.Record? {
      var obj := t.decode(TrimSpace(line)).value;
      RecordInert(t, roots, obj);
      StaysRecord(roots, obj);
      InertReads(t, roots, Wire(k.v));
      EveryLeafWeaker(InertOnWire(t, roots), (x: Json) => x.Num? ==> t.number(x.text), k.v);
    }
  }

  function WireAll(records: seq<Json>): (w: seq<Json>)
    ensures |w| == |records| && forall i :: 0 <= i < |records| ==> w[i] == Wire(records[i])
  {
    seq(|records|, i requires 0 <= i < |records| => Wire(records[i]))
  }

  /** The same line, or two encodings that decode to the same value. */
  predicate SameLine(t: JsonText, a: string, b: string) {
    a == b || (t.decode(a).Some? && t.decode(a) == t.decode(b))
  }

  ghost predicate SameLines(t: JsonText, a: seq<string>, b: seq<string>) {
    |a| == |b| && forall i :: 0 <= i < |a| ==> SameLine(t, a[i], b[i])
  }

  /** q is what processing p's lines gave: p's records as encoded, p's metadata, p's lines,
      and nothing that changes any more. */
  ghost predicate Reproduces(t: JsonText, roots: seq<FileRoot>, p: Processed, q: Processed) {
    && q.records == WireAll(p.records) && q.meta == p.meta && SameLines(t, q.lines, p.lines)
    && Process(t, roots, q.lines) == q
  }

  lemma ProcessSnoc(t: JsonText, roots: seq<FileRoot>, lines: seq<string>, line: string)
    ensures Process(t, roots, lines + [line]) == Add(t, Process(t, roots, lines), Classify(t, roots, line), line)
  {
    assert (lines + [line])[..|lines|] == lines;
  }

  lemma AddWired(t: JsonText, p: Processed, q: Processed, k: Line, line: string)
    requires k != Blank && q.records == WireAll(p.records) && q.meta == p.meta && SameLines(t, q.lines, p.lines)
    requires SameLine(t, Emit(t, Wired(k), Emit(t, k, line)), Emit(t, k, line))
    ensures var p', q' := Add(t, p, k, line), Add(t, q, Wired(k), Emit(t, k, line));
      && p'.lines == p.lines + [Emit(t, k, line)]
      && q'.lines == q.lines + [Emit(t, Wired(k), Emit(t, k, line))]
      && q'.records == WireAll(p'.records) && q'.meta == p'.meta && SameLines(t, q'.lines, p'.lines)
  {
    var p', q' := Add(t, p, k, line), Add(t, q, Wired(k), Emit(t, k, line));
    assert q'.records == WireAll(p'.records);
  }

  lemma AddReproduces(t: JsonText, roots: seq<FileRoot>, p: Processed, q: Processed, line: string)
    requires RoundTripsText(t) && CleanRoots(roots) && NamesUnrooted(roots) && Tidy(t, roots, line)
    requires q == Process(t, roots, p.lines) && Reproduces(t, roots, p, q)
    ensures var p' := Add(t, p, Classify(t, roots, line), line);
      Reproduces(t, roots, p', Process(t, roots, p'.lines))
  {
    var k := Classify(t, roots, line);
    if k != Blank {
      var line' := Emit(t, k, line);
      var line'' := Emit(t, Wired(k), line');
      LineFixpoint(t, roots, line);
      ProcessSnoc(t, roots, p.lines, line');
      ProcessSnoc(t, roots, q.lines, line'');
      AddWired(t, p, q, k, line);
    }
  }

  lemma {:induction false} ProcessReproduces(t: JsonText, roots: seq<FileRoot>, lines: seq<string>)
    requires RoundTripsText(t) && CleanRoots(roots) && NamesUnrooted(roots) && AllTidy(t, roots, lines)
    ensures var p := Process(t, roots, lines); Reproduces(t, roots, p, Process(t, roots, p.lines))
  {
    if lines != [] {
      var front := lines[..|lines| - 1];
      ProcessReproduces(t, roots, front);
      var p := Process(t, roots, front);
      AddReproduces(t, roots, p, Process(t, roots, p.lines), lines[|lines| - 1]);
    }
  }

  /** The rebuilt lines are single lines, and without any there was nothing to report. */
  lemma {:induction false} LinesUnbroken(t: JsonText, roots: seq<FileRoot>, lines: seq<string>)
    requires RoundTripsText(t) && forall i :: 0 <= i < |lines| ==> '\n' !in lines[i]
    ensures var p := Process(t, roots, lines);
      && (forall i :: 0 <= i < |p.lines| ==> '\n' !in p.lines[i])
      && (p.lines == [] ==> p == Processed([], map[], []))
  {
    if lines != [] {
      LinesUnbroken(t, roots, lines[..|lines| - 1]);
      var last := lines[|lines| - 1];
      if Classify(t, roots, last).Record? {
        var obj := t.decode(TrimSpace(last)).value;
        RewriteSound(t, roots, obj);
      }
    }
  }

  lemma RewriteSound(t: JsonText, roots: seq<FileRoot>, obj: Json)
    requires Sound(t, obj)
    ensures Sound(t, Rewrite(roots, obj))
  {
    var P := (x: Json) => x.Num? ==> t.number(x.text);
    RewriteLeaves(roots, P, P, obj);
  }

  /** Processing the rebuilt text is processing its lines. */
  lemma ScrubbedLines(t: JsonText, roots: seq<FileRoot>, p: Processed)
    requires forall i :: 0 <= i < |p.lines| ==> '\n' !in p.lines[i]
    requires p.lines == [] ==> p == Processed([], map[], [])
    ensures Processing(t, roots, Scrubbed(p)) == Process(t, roots, p.lines)
  {
    if p.lines == [] {
      assert Split("", '\n') == [""];
      ProcessSnoc(t, roots, [], "");
    } else {
      SplitJoin(p.lines, '\n');
    }
  }

  /** Scrub fixpoint: processing the rebuilt text gives the same records, as they read once
      encoded, in the same order, the same metadata and the same lines; and the text it
      rebuilds is final. */
  lemma ScrubFixpoint(t: JsonText, roots: seq<FileRoot>, stdout: string)
    requires RoundTripsText(t) && CleanRoots(roots) && NamesUnrooted(roots) && AllTidy(t, roots, Split(stdout, '\n'))
    ensures var p := Processing(t, roots, stdout);
      var q := Processing(t, roots, Scrubbed(p));
      && q.records == WireAll(p.records) && q.meta == p.meta && SameLines(t, q.lines, p.lines)
      && Processing(t, roots, Scrubbed(q)) == q
  {
    var p := Processing(t, roots, stdout);
    JoinSplit(stdout, '\n');
    LinesUnbroken(t, roots, Split(stdout, '\n'));
    ScrubbedLines(t, roots, p);
    ProcessReproduces(t, roots, Split(stdout, '\n'));
    var q := Process(t, roots, p.lines);
    LinesUnbroken(t, roots, p.lines);
    ScrubbedLines(t, roots, q);
  }

  ghost predicate FixpointAt(t: JsonText, roots: seq<FileRoot>, stdout: string) {
    var p := Processing(t, roots, stdout);
    var q := Processing(t, roots, Scrubbed(p));
    q.records == WireAll(p.records) && q.meta == p.meta
  }

  predicate DistinctPaths(roots: seq<FileRoot>) {
    forall i, j | 0 <= i < j < |roots| :: roots[i].path != roots[j].path
  }

  lemma OwnPathDeepest(roots: seq<FileRoot>, i: nat)
    requires CleanRoots(roots) && DistinctPaths(roots) && i < |roots|
    ensures FileRefFor(roots, roots[i].path) == Some(Reference(roots[i].name, "."))
  {
    var s := roots[i].path;
    assert Under(roots[i].path, s);
    DeepestContains(roots, s);
    var d := Deepest(roots, s).value;
    SameLengthSamePath(d.path, s, s);
    var j :| 0 <= j < |roots| && roots[j] == d;
  }

  /** An object with one ordinary field. */
  function Field(v: Json): Json {
    Obj(map["p" := v])
  }

  lemma FieldProperties(roots: seq<FileRoot>, v: Json)
    ensures roots != [] ==> Rewrite(roots, Field(v)) == Field(Rewrite(roots, v))
    ensures Wire(Field(v)) == Field(Wire(v))
    ensures SingleMetaKey(Field(v)).None?
    ensures forall P :: EveryLeaf(P, v) ==> EveryLeaf(P, Field(v))
  {
    var fields := Field(v).fields;
    assert "p" in fields && fields["p"] == v && fields.Keys == {"p"};
    assert "p"[0] != "@"[0];
    assert (map k | k in fields :: Rewrite(roots, fields[k])) == map["p" := Rewrite(roots, v)];
    assert (map k | k in fields :: Wire(fields[k])) == map["p" := Wire(v)];
  }

  lemma OneLine(t: JsonText, roots: seq<FileRoot>, obj: Json)
    requires RoundTripsText(t) && obj.Obj? && Sound(t, obj) && SingleMetaKey(Wire(obj)).None?
    ensures var v := Rewrite(roots, Wire(obj));
      Processing(t, roots, t.encode(obj)) == Processed([v], map[], [t.encode(v)])
  {
    SplitPiece(t.encode(obj), '\n');
    ProcessSnoc(t, roots, [], t.encode(obj));
    assert [] + [t.encode(obj)] == [t.encode(obj)];
  }

  lemma AtomRewritten(roots: seq<FileRoot>, ref: Reference)
    requires Rooted(roots, ref.root)
    ensures Rewrite(roots, Atom(ref)) != Atom(ref)
  {
    assert Atom(ref).fields["root"] == Str(ref.root);
    assert Rewrite(roots, Atom(ref)).fields["root"].File?;
  }

  lemma FieldTidy(t: JsonText, roots: seq<FileRoot>, path: string)
    requires RoundTripsText(t) && CleanAbs(path)
    ensures Sound(t, Field(Str(path))) && Tidy(t, roots, t.encode(Field(Str(path))))
    ensures forall ref :: Sound(t, Field(File(ref)))
  {
    FieldProperties(roots, Str(path));
    assert Wire(Str(path)) == Str(path);
    forall ref
      ensures Sound(t, Field(File(ref)))
    {
      FieldProperties(roots, File(ref));
    }
  }

  lemma RootPrinted(t: JsonText, roots: seq<FileRoot>, i: nat)
    requires RoundTripsText(t) && CleanRoots(roots) && DistinctPaths(roots) && i < |roots|
    ensures var v := Field(File(Reference(roots[i].name, ".")));
      Processing(t, roots, t.encode(Field(Str(roots[i].path)))) == Processed([v], map[], [t.encode(v)])
  {
    var path := Str(roots[i].path);
    OwnPathDeepest(roots, i);
    FieldProperties(roots, path);
    FieldTidy(t, roots, roots[i].path);
    assert Wire(path) == path;
    OneLine(t, roots, Field(path));
  }

  lemma ReadBackDiffers(t: JsonText, roots: seq<FileRoot>, ref: Reference)
    requires RoundTripsText(t) && Rooted(roots, ref.root) && Sound(t, Field(File(ref)))
    ensures Processing(t, roots, t.encode(Field(File(ref)))).records != [Wire(Field(File(ref)))]
  {
    FieldProperties(roots, File(ref));
    FieldProperties(roots, Atom(ref));
    OneLine(t, roots, Field(File(ref)));
    AtomRewritten(roots, ref);
    assert Field(Rewrite(roots, Atom(ref))).fields["p"] != Field(Atom(ref)).fields["p"];
  }

  /** A program that prints the path of a root whose name is rooted. */
  lemma RootedNameBreaks(t: JsonText, roots: seq<FileRoot>, i: nat) returns (stdout: string)
    requires RoundTripsText(t) && CleanRoots(roots) && DistinctPaths(roots) && i < |roots| && Rooted(roots, roots[i].name)
    ensures AllTidy(t, roots, Split(stdout, '\n')) && !FixpointAt(t, roots, stdout)
  {
    var v := Field(File(Reference(roots[i].name, ".")));
    stdout := t.encode(Field(Str(roots[i].path)));
    FieldTidy(t, roots, roots[i].path);
    SplitPiece(stdout, '\n');
    RootPrinted(t, roots, i);
    ReadBackDiffers(t, roots, Reference(roots[i].name, "."));
    assert Scrubbed(Processing(t, roots, stdout)) == t.encode(v);
    assert WireAll([v]) == [Wire(v)];
  }

  /** For roots at distinct clean paths, every tidy output is a scrub fixpoint exactly when
      no root is named by a path at or under a root. */
  lemma ScrubFixpointExact(t: JsonText, roots: seq<FileRoot>)
    requires RoundTripsText(t) && CleanRoots(roots) && DistinctPaths(roots)
    ensures (forall stdout :: AllTidy(t, roots, Split(stdout, '\n')) ==> FixpointAt(t, roots, stdout)) <==> NamesUnrooted(roots)
  {
    if NamesUnrooted(roots) {
      forall stdout | AllTidy(t, roots, Split(stdout, '\n'))
        ensures FixpointAt(t, roots, stdout)
      {
        ScrubFixpoint(t, roots, stdout);
      }
    } else {
      var i :| 0 <= i < |roots| && Rooted(roots, roots[i].name);
      var stdout := RootedNameBreaks(t, roots, i);
    }
  }

  // The rest of a result.

  ghost predicate HasRootPath(stdout: string, roots: seq<FileRoot>) {
    exists i :: 0 <= i < |roots| && roots[i].path != "" && Contains(stdout, roots[i].path)
  }

  method StdoutHasRootPath(stdout: string, roots: seq<FileRoot>) returns (has: bool)
    ensures has <==> HasRootPath(stdout, roots)
  {
    for i := 0 to |roots|
      invariant forall j :: 0 <= j < i ==> roots[j].path == "" || !Contains(stdout, roots[j].path)
    {
      if roots[i].path != "" && Contains(stdout, roots[i].path) {
        return true;
      }
    }
    return false;
  }

  /** The line is a JSON object with an "error" field. */
  predicate IsError(t: JsonText, line: string) {
    TrimSpace(line) != "" && t.decode(TrimSpace(line)).Some?
    && t.decode(TrimSpace(line)).value.Obj? && "error" in t.decode(TrimSpace(line)).value.fields
  }

  /** Line i is the last error line, and v its object. */
  predicate LastError(t: JsonText, lines: seq<string>, i: nat, v: Json) {
    && i < |lines| && IsError(t, lines[i]) && t.decode(TrimSpace(lines[i])) == Some(v)
    && forall j | i < j < |lines| :: !IsError(t, lines[j])
  }

  /** The last error line of stderr. */
  method ParseError(t: JsonText, stderr: string) returns (obj: Option<Json>)
    ensures obj.None? ==> forall i :: 0 <= i < |Split(stderr, '\n')| ==> !IsError(t, Split(stderr, '\n')[i])
    ensures obj.Some? ==> exists i: nat :: LastError(t, Split(stderr, '\n'), i, obj.value)
  {
    var lines := Split(stderr, '\n');
    var i := |lines|;
    while i > 0
      invariant 0 <= i <= |lines|
      invariant forall j :: i <= j < |lines| ==> !IsError(t, lines[j])
    {
      i := i - 1;
      var trimmed := TrimSpace(lines[i]);
      if trimmed == "" {
        continue;
      }
      var parsed := t.decode(trimmed);
      if parsed.Some? && parsed.value.Obj? && "error" in parsed.value.fields {
        assert LastError(t, lines, i, parsed.value);
        return parsed;
      }
    }
    return None;
  }

  datatype RunResult = RunResult(stdout: string, stderr: string, exitCode: int)

  /** Text blocks, structured content and the error flag. */
  datatype ToolResult = ToolResult(content: seq<string>, records: seq<Json>, meta: map<string, Json>, error: Option<Json>, isError: bool)

  function StringField(v: Json, key: string): string {
    if v.Obj? && key in v.fields && v.fields[key].Str? then v.fields[key].s else ""
  }

  function ErrorText(error: Option<Json>, stderr: string): string {
    if error.None? then TrimSpace(stderr)
    else if StringField(error.value, "hint") != "" then
      StringField(error.value, "error") + "\nhint: " + StringField(error.value, "hint")
    else StringField(error.value, "error")
  }

  /** A success keeps stdout as it is unless some root's path occurs in it, and then shows
      the rebuilt text; a failure shows the last error line of stderr, or all of stderr. */
  method Translate(t: JsonText, r: RunResult, roots: seq<FileRoot>) returns (res: ToolResult)
    ensures var p := Processing(t, roots, r.stdout);
      && res.records == p.records && res.meta == p.meta
      && (res.isError <==> r.exitCode != 0)
      && (r.exitCode == 0 ==>
            && res.error.None? && res.content != []
            && (!HasRootPath(r.stdout, roots) ==> res.content[0] == r.stdout)
            && (HasRootPath(r.stdout, roots) ==> res.content[0] == Scrubbed(p))
            && res.content[1..] == if TrimSpace(r.stderr) != "" then [TrimSpace(r.stderr)] else [])
      && (r.exitCode != 0 ==> res.content == [ErrorText(res.error, r.stderr)])
    ensures r.exitCode != 0 && res.error.None? ==> forall i :: 0 <= i < |Split(r.stderr, '\n')| ==> !IsError(t, Split(r.stderr, '\n')[i])
    ensures res.error.Some? ==> exists i: nat :: LastError(t, Split(r.stderr, '\n'), i, res.error.value)
  {
    var scrub := false;
    if r.exitCode == 0 {
      scrub := StdoutHasRootPath(r.stdout, roots);
    }
    var records, meta, scrubbed := ProcessStdout(t, roots, r.stdout, scrub);
    if r.exitCode != 0 {
      var error := ParseError(t, r.stderr);
      return ToolResult([ErrorText(error, r.stderr)], records, meta, error, true);
    }
    var content := [if scrub then scrubbed else r.stdout];
    var notices := TrimSpace(r.stderr);
    if notices != "" {
      content := content + [notices];
    }
    return ToolResult(content, records, meta, None, false);
  }

  /** What the rebuilt text still shows: text and metadata lines exactly as printed, host
      paths included, and otherwise only records without a string at or under a root. */
  lemma {:induction false} ScrubbedShows(t: JsonText, roots: seq<FileRoot>, lines: seq<string>, i: nat)
    requires RoundTripsText(t) && CleanRoots(roots) && NamesUnrooted(roots) && AllTidy(t, roots, lines)
    requires i < |Process(t, roots, lines).lines|
    ensures var line := Process(t, roots, lines).lines[i];
      || (line in lines && (Classify(t, roots, line).Text? || Classify(t, roots, line).Meta?))
      || (t.decode(line).Some? && EveryString(s => !Rooted(roots, s), t.decode(line).value))
    decreases |lines|
  {
    var front, last := lines[..|lines| - 1], lines[|lines| - 1];
    var p, k := Process(t, roots, front), Classify(t, roots, last);
    if i < |p.lines| {
      ScrubbedShows(t, roots, front, i);
      assert Process(t, roots, lines).lines[i] == p.lines[i];
    } else if k.Record? {
      LineFixpoint(t, roots, last);
      RecordInert(t, roots, t.decode(TrimSpace(last)).value);
      var P := s => !Rooted(roots, s);
      EveryLeafWeaker(Inert(t, roots), (x: Json) => x.Str? ==> P(x.s), Wire(k.v));
    }
  }

  /** And nothing but blank lines is dropped: every text or metadata line printed is shown. */
  lemma {:induction false} ScrubbedKeeps(t: JsonText, roots: seq<FileRoot>, lines: seq<string>, line: string)
    requires line in lines && (Classify(t, roots, line).Text? || Classify(t, roots, line).Meta?)
    ensures line in Process(t, roots, lines).lines
  {
    var front := lines[..|lines| - 1];
    if line in front {
      ScrubbedKeeps(t, roots, front, line);
    }
  }

  // What the rebuilt text still gives away.

  predicate Verbatim(k: Line) {
    k.Text? || k.Meta?
  }

  ghost predicate Encodes(t: JsonText, records: seq<Json>, line: string) {
    exists i :: 0 <= i < |records| && line == t.encode(records[i])
  }

  lemma EncodesSnoc(t: JsonText, records: seq<Json>, v: Json, line: string)
    ensures Encodes(t, records + [v], line) <==> Encodes(t, records, line) || line == t.encode(v)
  {
    var all := records + [v];
    assert all[|records|] == v && forall i :: 0 <= i < |records| ==> all[i] == records[i];
    if i :| 0 <= i < |records| && line == t.encode(records[i]) {
      assert line == t.encode(all[i]);
    }
  }

  /** The lines of the rebuilt text: text and metadata lines as printed, and the records' encodings. */
  lemma {:induction false} LinesExactly(t: JsonText, roots: seq<FileRoot>, lines: seq<string>, line: string)
    ensures var p := Process(t, roots, lines);
      line in p.lines <==> (line in lines && Verbatim(Classify(t, roots, line))) || Encodes(t, p.records, line)
  {
    if lines != [] {
      var front, last := lines[..|lines| - 1], lines[|lines| - 1];
      LinesExactly(t, roots, front, line);
      var p, k := Process(t, roots, front), Classify(t, roots, last);
      assert line in lines <==> line in front || line == last;
      if k.Record? {
        EncodesSnoc(t, p.records, k.v, line);
      }
    }
  }

  lemma LinesHaveRootPath(lines: seq<string>, roots: seq<FileRoot>)
    requires forall i :: 0 <= i < |roots| ==> '\n' !in roots[i].path
    ensures HasRootPath(Join(lines, "\n"), roots) <==> exists line :: line in lines && HasRootPath(line, roots)
  {
    var text := Join(lines, "\n");
    if HasRootPath(text, roots) {
      var i :| 0 <= i < |roots| && roots[i].path != "" && Contains(text, roots[i].path);
      ContainsJoin(lines, '\n', roots[i].path);
      var j :| 0 <= j < |lines| && Contains(lines[j], roots[i].path);
      assert lines[j] in lines && HasRootPath(lines[j], roots);
    }
    if line :| line in lines && HasRootPath(line, roots) {
      var j :| 0 <= j < |lines| && lines[j] == line;
      var i :| 0 <= i < |roots| && roots[i].path != "" && Contains(line, roots[i].path);
      ContainsJoin(lines, '\n', roots[i].path);
    }
  }

  lemma LineHasRootPath(lines: seq<string>, roots: seq<FileRoot>, j: nat)
    requires j < |lines| && '\n' !in lines[j] && HasRootPath(lines[j], roots)
    ensures HasRootPath(Join(lines, "\n"), roots)
  {
    var i :| 0 <= i < |roots| && roots[i].path != "" && Contains(lines[j], roots[i].path);
    ContainedChars(lines[j], roots[i].path, '\n');
    ContainsJoin(lines, '\n', roots[i].path);
  }

  /** Whatever the roots: a root path in a text or metadata line printed is in the rebuilt text. */
  lemma VerbatimRemains(t: JsonText, roots: seq<FileRoot>, stdout: string, line: string)
    requires line in Split(stdout, '\n') && Verbatim(Classify(t, roots, line)) && HasRootPath(line, roots)
    ensures HasRootPath(Scrubbed(Processing(t, roots, stdout)), roots)
  {
    var lines := Processing(t, roots, stdout).lines;
    LinesExactly(t, roots, Split(stdout, '\n'), line);
    JoinSplit(stdout, '\n');
    var j: nat :| j < |lines| && lines[j] == line;
    LineHasRootPath(lines, roots, j);
  }

  /** Scrubbing, exactly: for root paths without a line break the rebuilt text shows a root
      path just when some text or metadata line printed has one, or some record's encoding. */
  lemma RootPathRemains(t: JsonText, roots: seq<FileRoot>, stdout: string)
    requires forall i :: 0 <= i < |roots| ==> '\n' !in roots[i].path
    ensures var p, lines := Processing(t, roots, stdout), Split(stdout, '\n');
      HasRootPath(Scrubbed(p), roots) <==>
        || (exists line :: line in lines && Verbatim(Classify(t, roots, line)) && HasRootPath(line, roots))
        || (exists i :: 0 <= i < |p.records| && HasRootPath(t.encode(p.records[i]), roots))
  {
    var p, lines := Processing(t, roots, stdout), Split(stdout, '\n');
    LinesHaveRootPath(p.lines, roots);
    if HasRootPath(Scrubbed(p), roots) {
      var line :| line in p.lines && HasRootPath(line, roots);
      LinesExactly(t, roots, lines, line);
    }
    if line :| line in lines && Verbatim(Classify(t, roots, line)) && HasRootPath(line, roots) {
      LinesExactly(t, roots, lines, line);
    }
    if i :| 0 <= i < |p.records| && HasRootPath(t.encode(p.records[i]), roots) {
      LinesExactly(t, roots, lines, t.encode(p.records[i]));
    }
  }

  const CACHE := [FileRoot("cache", "/data")]
  const SAVED := "saved /data/a.png"
  const NOTE := Obj(map["note" := Str("saved /data/a.png")])

  lemma SavedHasPath()
    ensures HasRootPath(SAVED, CACHE) && !Rooted(CACHE, SAVED)
  {
    assert CACHE[0].path == "/data" && SAVED[0] == 's';
    assert SAVED[6..11] == "/data";
    assert "/data" <= SAVED[6..];
    assert Contains(SAVED, CACHE[0].path);
  }

  lemma SavedIsOneLine()
    ensures '\n' !in SAVED && TrimSpace(SAVED) == SAVED
  {
    assert SAVED[0] == 's' && SAVED[|SAVED| - 1] == 'g';
  }

  /** A printed line that is no JSON: its path is what makes the text be rebuilt, and the
      rebuilt text shows it all the same. */
  lemma SavedRemains(t: JsonText)
    requires t.decode(SAVED).None?
    ensures HasRootPath(SAVED, CACHE) && Scrubbed(Processing(t, CACHE, SAVED)) == SAVED
  {
    SavedHasPath();
    SavedIsOneLine();
    SplitPiece(SAVED, '\n');
    ProcessSnoc(t, CACHE, [], SAVED);
    assert [] + [SAVED] == [SAVED];
  }

  /** A record whose string holds a path further in: it is no path itself, so the record
      stays as it is, and the rebuilt text shows whatever its encoding shows. */
  lemma NoteRemains(t: JsonText)
    requires RoundTripsText(t) && Sound(t, NOTE)
    ensures var p := Processing(t, CACHE, t.encode(NOTE));
      p.records == [NOTE] && Scrubbed(p) == t.encode(NOTE)
  {
    SavedHasPath();
    var fields := NOTE.fields;
    assert "note" in fields && fields["note"] == Str(SAVED) && fields.Keys == {"note"};
    assert EveryString(s => !Rooted(CACHE, s), NOTE) && Plain(NOTE);
    RewriteNothing(CACHE, NOTE);
    WirePlain(NOTE);
    assert "note"[0] != "@"[0];
    OneLine(t, CACHE, NOTE);
  }
}
