/** What becomes of each line a program prints: which lines are records, in which order they
    come back, whose metadata counts, and what the rebuilt text is made of. */
module Outputs {
  import opened Wrappers
  import opened Strings
  import opened Callers
  import opened Paths
  import opened FileRefs
  import opened Translation

  predicate IsJson(t: JsonText, line: string) {
    TrimSpace(line) != "" && t.decode(TrimSpace(line)).Some?
  }

  function ValueOf(t: JsonText, line: string): Json
    requires IsJson(t, line)
  {
    t.decode(TrimSpace(line)).value
  }

  /** An object with one key, which starts with @. */
  predicate SingleAt(v: Json) {
    v.Obj? && |v.fields| == 1 && forall k | k in v.fields :: k != "" && k[0] == '@'
  }

  predicate IsRecord(t: JsonText, line: string) {
    IsJson(t, line) && !SingleAt(ValueOf(t, line))
  }

  predicate IsMeta(t: JsonText, line: string, key: string) {
    IsJson(t, line) && SingleAt(ValueOf(t, line)) && key in ValueOf(t, line).fields
  }

  lemma OneKey(fields: map<string, Json>)
    ensures |fields| == 1 <==> exists k :: k in fields && fields.Keys == {k}
  {
    assert |fields| == |fields.Keys|;
    if |fields| == 1 {
      var k :| k in fields;
      assert |fields.Keys - {k}| == 0;
      assert fields.Keys == {k};
    }
  }

  lemma MetaKeyExactly(v: Json)
    ensures SingleMetaKey(v).Some? <==> SingleAt(v)
    ensures SingleMetaKey(v).Some? ==> v.fields.Keys == {SingleMetaKey(v).value}
  {
    if v.Obj? {
      OneKey(v.fields);
      assert forall k :: HasPrefix(k, "@") <==> k != "" && k[0] == '@';
      if SingleAt(v) {
        var k :| k in v.fields && v.fields.Keys == {k};
        assert HasPrefix(k, "@");
      }
    }
  }

  lemma ClassifyExactly(t: JsonText, roots: seq<FileRoot>, line: string)
    ensures var k := Classify(t, roots, line);
      && (k.Blank? <==> TrimSpace(line) == "")
      && (k.Record? <==> IsRecord(t, line))
      && (k.Record? ==> k.v == Rewrite(roots, ValueOf(t, line)))
      && (forall key :: IsMeta(t, line, key) <==> k.Meta? && k.key == key)
      && (k.Meta? ==> IsMeta(t, line, k.key) && k.value == ValueOf(t, line).fields[k.key])
  {
    if IsJson(t, line) {
      MetaKeyExactly(ValueOf(t, line));
    }
  }

  /** Increasing indices below n, exactly those of P. */
  ghost predicate Lists(at: seq<nat>, n: nat, P: nat -> bool) {
    && (forall j, k :: 0 <= j < k < |at| ==> at[j] < at[k])
    && (forall k :: 0 <= k < |at| ==> at[k] < n && P(at[k]))
    && (forall i: nat :: i < n && P(i) ==> i in at)
  }

  lemma ListsMore(at: seq<nat>, n: nat, P: nat -> bool)
    requires Lists(at, n, P)
    ensures Lists(if P(n) then at + [n] else at, n + 1, P)
  {
    var at' := if P(n) then at + [n] else at;
    forall i: nat | i < n + 1 && P(i)
      ensures i in at'
    {
      assert i < n ==> i in at;
    }
  }

  ghost function RecordAt(t: JsonText, lines: seq<string>): nat -> bool {
    (i: nat) => i < |lines| && IsRecord(t, lines[i])
  }

  lemma ListsSame(at: seq<nat>, n: nat, P: nat -> bool, Q: nat -> bool)
    requires Lists(at, n, P) && forall i: nat :: i < n ==> P(i) == Q(i)
    ensures Lists(at, n, Q)
  {
  }

  /** Record k is the rewritten value of line at[k]. */
  ghost predicate ReadFrom(t: JsonText, roots: seq<FileRoot>, lines: seq<string>, at: seq<nat>, records: seq<Json>) {
    && |records| == |at|
    && forall k :: 0 <= k < |at| ==>
         at[k] < |lines| && IsRecord(t, lines[at[k]]) && records[k] == Rewrite(roots, ValueOf(t, lines[at[k]]))
  }

  lemma ReadMore(t: JsonText, roots: seq<FileRoot>, front: seq<string>, line: string, at: seq<nat>, records: seq<Json>)
    requires ReadFrom(t, roots, front, at, records)
    ensures ReadFrom(t, roots, front + [line], at, records)
    ensures IsRecord(t, line) ==>
      ReadFrom(t, roots, front + [line], at + [|front|], records + [Rewrite(roots, ValueOf(t, line))])
  {
    var lines := front + [line];
    assert forall i :: 0 <= i < |front| ==> lines[i] == front[i];
    assert lines[|front|] == line;
  }

  /** Record k is the rewritten value of the k-th line that is a record. */
  lemma {:induction false} RecordsInOrder(t: JsonText, roots: seq<FileRoot>, lines: seq<string>) returns (at: seq<nat>)
    ensures Lists(at, |lines|, RecordAt(t, lines)) && ReadFrom(t, roots, lines, at, Process(t, roots, lines).records)
  {
    if lines == [] {
      at := [];
    } else {
      var n := |lines| - 1;
      var front := lines[..n];
      assert lines == front + [lines[n]];
      at := RecordsInOrder(t, roots, front);
      ListsSame(at, n, RecordAt(t, front), RecordAt(t, lines));
      ListsMore(at, n, RecordAt(t, lines));
      ReadMore(t, roots, front, lines[n], at, Process(t, roots, front).records);
      ClassifyExactly(t, roots, lines[n]);
      if IsRecord(t, lines[n]) {
        at := at + [n];
      }
    }
  }

  /** Line i is the last metadata line of that key, and says v. */
  ghost predicate LastMeta(t: JsonText, lines: seq<string>, i: nat, key: string, v: Json) {
    && i < |lines| && IsMeta(t, lines[i], key) && ValueOf(t, lines[i]).fields[key] == v
    && forall j :: i < j < |lines| ==> !IsMeta(t, lines[j], key)
  }

  /** Under key meta has what the last line of that key says, or nothing without one. */
  ghost predicate MetaFrom(t: JsonText, lines: seq<string>, key: string, meta: map<string, Json>) {
    if key in meta then exists i: nat :: LastMeta(t, lines, i, key, meta[key])
    else forall i :: 0 <= i < |lines| ==> !IsMeta(t, lines[i], key)
  }

  lemma MetaMore(t: JsonText, front: seq<string>, line: string, key: string, meta: map<string, Json>)
    requires MetaFrom(t, front, key, meta)
    ensures !IsMeta(t, line, key) ==> MetaFrom(t, front + [line], key, meta)
    ensures IsMeta(t, line, key) ==> MetaFrom(t, front + [line], key, meta[key := ValueOf(t, line).fields[key]])
  {
    var lines := front + [line];
    assert forall i :: 0 <= i < |front| ==> lines[i] == front[i];
    if IsMeta(t, line, key) {
      assert LastMeta(t, lines, |front|, key, ValueOf(t, line).fields[key]);
    } else if key in meta {
      var i: nat :| LastMeta(t, front, i, key, meta[key]);
      assert LastMeta(t, lines, i, key, meta[key]);
    }
  }

  lemma MetaOther(t: JsonText, lines: seq<string>, key: string, other: string, v: Json, meta: map<string, Json>)
    requires MetaFrom(t, lines, key, meta) && other != key
    ensures MetaFrom(t, lines, key, meta[other := v])
  {
  }

  lemma {:induction false} MetaIsLast(t: JsonText, roots: seq<FileRoot>, lines: seq<string>, key: string)
    ensures MetaFrom(t, lines, key, Process(t, roots, lines).meta)
  {
    if lines != [] {
      var n := |lines| - 1;
      var front, line := lines[..n], lines[n];
      assert lines == front + [line];
      MetaIsLast(t, roots, front, key);
      MetaMore(t, front, line, key, Process(t, roots, front).meta);
      ClassifyExactly(t, roots, line);
      var k := Classify(t, roots, line);
      if k.Meta? && k.key != key {
        MetaOther(t, lines, key, k.key, k.value, Process(t, roots, front).meta);
      }
    }
  }

  ghost function TextAt(lines: seq<string>): nat -> bool {
    (i: nat) => i < |lines| && TrimSpace(lines[i]) != ""
  }

  /** A printed line in the rebuilt text: a record as the encoding of its rewritten value,
      and any other as it is. */
  function Shown(t: JsonText, roots: seq<FileRoot>, line: string): string {
    if IsRecord(t, line) then t.encode(Rewrite(roots, ValueOf(t, line))) else line
  }

  ghost predicate ShownFrom(t: JsonText, roots: seq<FileRoot>, lines: seq<string>, at: seq<nat>, kept: seq<string>) {
    |kept| == |at| && forall k :: 0 <= k < |at| ==> at[k] < |lines| && kept[k] == Shown(t, roots, lines[at[k]])
  }

  lemma ShownMore(t: JsonText, roots: seq<FileRoot>, front: seq<string>, line: string, at: seq<nat>, kept: seq<string>)
    requires ShownFrom(t, roots, front, at, kept)
    ensures ShownFrom(t, roots, front + [line], at, kept)
    ensures ShownFrom(t, roots, front + [line], at + [|front|], kept + [Shown(t, roots, line)])
  {
    var lines := front + [line];
    assert forall i :: 0 <= i < |front| ==> lines[i] == front[i];
    assert lines[|front|] == line;
  }

  lemma ShownLast(t: JsonText, roots: seq<FileRoot>, p: Processed, line: string)
    ensures Add(t, p, Classify(t, roots, line), line).lines ==
      if TrimSpace(line) == "" then p.lines else p.lines + [Shown(t, roots, line)]
  {
    ClassifyExactly(t, roots, line);
  }

  /** The rebuilt text has a line for each one printed that is not blank, in order. */
  lemma {:induction false} LinesInOrder(t: JsonText, roots: seq<FileRoot>, lines: seq<string>) returns (at: seq<nat>)
    ensures Lists(at, |lines|, TextAt(lines)) && ShownFrom(t, roots, lines, at, Process(t, roots, lines).lines)
  {
    if lines == [] {
      at := [];
    } else {
      var n := |lines| - 1;
      var front := lines[..n];
      assert lines == front + [lines[n]];
      at := LinesInOrder(t, roots, front);
      ListsSame(at, n, TextAt(front), TextAt(lines));
      ListsMore(at, n, TextAt(lines));
      ShownMore(t, roots, front, lines[n], at, Process(t, roots, front).lines);
      ShownLast(t, roots, Process(t, roots, front), lines[n]);
      if TrimSpace(lines[n]) != "" {
        at := at + [n];
      }
    }
  }

  /** An output, completely: the lines that decode to anything but a lone metadata key are the
      records, in the order printed; each metadata key is what its last line says; and the
      text is rebuilt line by line, blank lines left out. */
  lemma OutputExactly(t: JsonText, roots: seq<FileRoot>, stdout: string) returns (records: seq<nat>, kept: seq<nat>)
    ensures var p, lines := Processing(t, roots, stdout), Split(stdout, '\n');
      && Lists(records, |lines|, RecordAt(t, lines)) && ReadFrom(t, roots, lines, records, p.records)
      && Lists(kept, |lines|, TextAt(lines)) && ShownFrom(t, roots, lines, kept, p.lines)
      && forall key :: MetaFrom(t, lines, key, p.meta)
  {
    var lines := Split(stdout, '\n');
    records := RecordsInOrder(t, roots, lines);
    kept := LinesInOrder(t, roots, lines);
    forall key
      ensures MetaFrom(t, lines, key, Process(t, roots, lines).meta)
    {
      MetaIsLast(t, roots, lines, key);
    }
  }

  /** What a failure shows: without an error line all of stderr, trimmed; else the error's
      text, and its hint on a line of its own if it has one. */
  lemma FailureShows(fields: map<string, Json>, stderr: string)
    ensures ErrorText(None, stderr) == TrimSpace(stderr)
    ensures var message := if "error" in fields && fields["error"].Str? then fields["error"].s else "";
      ErrorText(Some(Obj(fields)), stderr) ==
        if "hint" in fields && fields["hint"].Str? && fields["hint"].s != "" then message + "\nhint: " + fields["hint"].s else message
  {
  }

  /** name is path, or what follows its last slash. */
  predicate LastSegment(name: string, path: string) {
    var n := |path| - |name|;
    '/' !in name && 0 <= n && path[n..] == name && (n == 0 || path[n - 1] == '/')
  }

  lemma BaseIsLast(path: string)
    ensures LastSegment(Base(path), path)
  {
    JoinSplit(path, '/');
    LastPiece(Split(path, '/'), '/');
  }

  /** A reference as its reader sees it: a file object with the root's name, the path in it,
      and the last segment of that path as its name. */
  lemma ReferenceReads(ref: Reference)
    ensures Wire(File(ref)).Obj? && Wire(File(ref)).fields.Keys == {"@type", "root", "path", "name"}
    ensures var f := Wire(File(ref)).fields;
      && f["@type"] == Str("file") && f["root"] == Str(ref.root) && f["path"] == Str(ref.path)
      && f["name"].Str? && LastSegment(f["name"].s, ref.path)
  {
    BaseIsLast(ref.path);
  }

  lemma {:induction false} LastPiece(parts: seq<string>, sep: char)
    requires parts != []
    ensures var s, last := Join(parts, [sep]), parts[|parts| - 1];
      |last| <= |s| && s[|s| - |last|..] == last && (|last| == |s| || s[|s| - |last| - 1] == sep)
  {
    if |parts| > 1 {
      var rest := Join(parts[1..], [sep]);
      LastPiece(parts[1..], sep);
      assert Join(parts, [sep]) == parts[0] + [sep] + rest;
    }
  }
}
