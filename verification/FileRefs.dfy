/** JSON trees, and the rewrite of in-root path strings in them to file references. */
module FileRefs {
  import opened Wrappers
  import opened Strings
  import opened AccessTokens
  import opened Callers
  import opened Paths
  import opened FileTool

  /** A decoded JSON value; File is the reference atom the rewrite puts in, and the text
      of a number stands for the number. */
  datatype Json =
    | Null
    | Bool(b: bool)
    | Num(text: string)
    | Str(s: string)
    | Obj(fields: map<string, Json>)
    | Arr(items: seq<Json>)
    | File(ref: Reference)

  function Rewrite(roots: seq<FileRoot>, v: Json): Json {
    if roots == [] then v
    else
      match v
      case Str(s) =>
        var ref := FileRefFor(roots, s);
        if ref.Some? then File(ref.value) else v
      case Obj(fields) => Obj(map k | k in fields :: Rewrite(roots, fields[k]))
      case Arr(items) => Arr(seq(|items|, i requires 0 <= i < |items| => Rewrite(roots, items[i])))
      case _ => v
  }

  /** rewriteFileRefs: the members of a map, in any order, and the items of a slice are
      replaced one by one. */
  method RewriteFileRefs(v: Json, roots: seq<FileRoot>) returns (r: Json)
    ensures r == Rewrite(roots, v)
    decreases v
  {
    if roots == [] {
      return v;
    }
    match v {
      case Str(s) =>
        var ref := FileRefFor(roots, s);
        return if ref.Some? then File(ref.value) else v;
      case Obj(fields) =>
        var t, left := fields, fields.Keys;
        while left != {}
          invariant left <= fields.Keys == t.Keys
          invariant forall k :: k in fields ==> t[k] == if k in left then fields[k] else Rewrite(roots, fields[k])
          decreases left
        {
          var k :| k in left;
          var val := RewriteFileRefs(fields[k], roots);
          t := t[k := val];
          left := left - {k};
        }
        assert t == map k | k in fields :: Rewrite(roots, fields[k]);
        return Obj(t);
      case Arr(items) =>
        var t := items;
        for i := 0 to |items|
          invariant |t| == |items|
          invariant forall j :: 0 <= j < |items| ==> t[j] == if j < i then Rewrite(roots, items[j]) else items[j]
        {
          var val := RewriteFileRefs(items[i], roots);
          t := t[i := val];
        }
        return Arr(t);
      case _ =>
        return v;
    }
  }

  /** r is v with some strings replaced by references: same objects with the same keys,
      same arrays, every other value itself. */
  ghost predicate SameShape(v: Json, r: Json) {
    match v
    case Str(s) => r == v || r.File?
    case Obj(fields) =>
      r.Obj? && r.fields.Keys == fields.Keys && forall k :: k in fields ==> SameShape(fields[k], r.fields[k])
    case Arr(items) =>
      r.Arr? && |r.items| == |items| && forall i :: 0 <= i < |items| ==> SameShape(items[i], r.items[i])
    case _ => r == v
  }

  /** P holds of every value at any depth that is no object or array. */
  ghost predicate EveryLeaf(P: Json -> bool, v: Json) {
    match v
    case Obj(fields) => forall k :: k in fields ==> EveryLeaf(P, fields[k])
    case Arr(items) => forall i :: 0 <= i < |items| ==> EveryLeaf(P, items[i])
    case _ => P(v)
  }

  /** P holds of every string value at any depth, keys and references apart. */
  ghost predicate EveryString(P: string -> bool, v: Json) {
    EveryLeaf((x: Json) => x.Str? ==> P(x.s), v)
  }

  /** No reference at any depth: what a parser returns. */
  ghost predicate Plain(v: Json) {
    EveryLeaf((x: Json) => !x.File?, v)
  }

  lemma {:induction false} SameShapeReflexive(v: Json)
    ensures SameShape(v, v)
  {
    match v
    case Obj(fields) =>
      forall k | k in fields
        ensures SameShape(fields[k], fields[k])
      {
        SameShapeReflexive(fields[k]);
      }
    case Arr(items) =>
      forall i | 0 <= i < |items|
        ensures SameShape(items[i], items[i])
      {
        SameShapeReflexive(items[i]);
      }
    case _ =>
  }

  lemma {:induction false} RewriteKeepsShape(roots: seq<FileRoot>, v: Json)
    ensures SameShape(v, Rewrite(roots, v))
  {
    SameShapeReflexive(v);
    match v
    case Obj(fields) =>
      forall k | k in fields
        ensures SameShape(fields[k], Rewrite(roots, fields[k]))
      {
        RewriteKeepsShape(roots, fields[k]);
      }
    case Arr(items) =>
      forall i | 0 <= i < |items|
        ensures SameShape(items[i], Rewrite(roots, items[i]))
      {
        RewriteKeepsShape(roots, items[i]);
      }
    case _ =>
  }

  /** What the rewrite makes of each leaf, it makes of all. */
  lemma {:induction false} RewriteLeaves(roots: seq<FileRoot>, P: Json -> bool, Q: Json -> bool, v: Json)
    requires EveryLeaf(P, v)
    requires forall x: Json :: !x.Obj? && !x.Arr? && P(x) ==> Q(Rewrite(roots, x))
    ensures EveryLeaf(Q, Rewrite(roots, v))
  {
    match v
    case Obj(fields) =>
      forall k | k in fields
        ensures EveryLeaf(Q, Rewrite(roots, fields[k]))
      {
        RewriteLeaves(roots, P, Q, fields[k]);
      }
    case Arr(items) =>
      forall i | 0 <= i < |items|
        ensures EveryLeaf(Q, Rewrite(roots, items[i]))
      {
        RewriteLeaves(roots, P, Q, items[i]);
      }
    case _ => assert Q(Rewrite(roots, v));
  }

  lemma {:induction false} EveryLeafTrivially(v: Json)
    ensures EveryLeaf(_ => true, v)
  {
    match v
    case Obj(fields) =>
      forall k | k in fields
        ensures EveryLeaf(_ => true, fields[k])
      {
        EveryLeafTrivially(fields[k]);
      }
    case Arr(items) =>
      forall i | 0 <= i < |items|
        ensures EveryLeaf(_ => true, items[i])
      {
        EveryLeafTrivially(items[i]);
      }
    case _ =>
  }

  lemma {:induction false} EveryLeafBoth(P: Json -> bool, Q: Json -> bool, v: Json)
    requires EveryLeaf(P, v) && EveryLeaf(Q, v)
    ensures EveryLeaf((x: Json) => P(x) && Q(x), v)
  {
    match v
    case Obj(fields) =>
      forall k | k in fields
        ensures EveryLeaf((x: Json) => P(x) && Q(x), fields[k])
      {
        EveryLeafBoth(P, Q, fields[k]);
      }
    case Arr(items) =>
      forall i | 0 <= i < |items|
        ensures EveryLeaf((x: Json) => P(x) && Q(x), items[i])
      {
        EveryLeafBoth(P, Q, items[i]);
      }
    case _ =>
  }

  /** No string value at or under any root is left, at any depth. */
  lemma RewriteLeavesNoRooted(roots: seq<FileRoot>, v: Json)
    ensures EveryString(s => !Rooted(roots, s), Rewrite(roots, v))
  {
    EveryLeafTrivially(v);
    var P := s => !Rooted(roots, s);
    RewriteLeaves(roots, _ => true, (x: Json) => x.Str? ==> P(x.s), v);
  }

  /** With nothing to replace the rewrite is the identity. */
  lemma {:induction false} RewriteNothing(roots: seq<FileRoot>, v: Json)
    requires EveryString(s => !Rooted(roots, s), v)
    ensures Rewrite(roots, v) == v
  {
    match v
    case Obj(fields) =>
      forall k | k in fields
        ensures Rewrite(roots, fields[k]) == fields[k]
      {
        RewriteNothing(roots, fields[k]);
      }
      assert (map k | k in fields :: Rewrite(roots, fields[k])) == fields;
    case Arr(items) =>
      forall i | 0 <= i < |items|
        ensures Rewrite(roots, items[i]) == items[i]
      {
        RewriteNothing(roots, items[i]);
      }
      assert seq(|items|, i requires 0 <= i < |items| => Rewrite(roots, items[i])) == items;
    case _ =>
  }

  lemma RewriteIdempotent(roots: seq<FileRoot>, v: Json)
    ensures Rewrite(roots, Rewrite(roots, v)) == Rewrite(roots, v)
  {
    RewriteLeavesNoRooted(roots, v);
    RewriteNothing(roots, Rewrite(roots, v));
  }

  /** Every reference replaced by what it resolves to in the root it names. */
  function Restore(roots: seq<FileRoot>, v: Json): Json {
    match v
    case File(ref) =>
      var root := RootByName(roots, ref.root);
      if root.Some? && SafeResolve(root.value, ref.path).Ok? then Str(SafeResolve(root.value, ref.path).value) else v
    case Obj(fields) => Obj(map k | k in fields :: Restore(roots, fields[k]))
    case Arr(items) => Arr(seq(|items|, i requires 0 <= i < |items| => Restore(roots, items[i])))
    case _ => v
  }

  lemma RestoreString(roots: seq<FileRoot>, s: string)
    requires DistinctNames(roots) && Rooted(roots, s) && CleanAbs(s)
    ensures Restore(roots, File(FileRefFor(roots, s).value)) == Str(s)
  {
    DeepestContains(roots, s);
    RootByNameFirst(roots, Deepest(roots, s).value);
    ResolveRelative(Deepest(roots, s).value, s);
  }

  /** The rewrite loses nothing: joining each reference's root path with its relative path
      gives the tree back, for roots of distinct names and clean paths. */
  lemma {:induction false} RewriteUndone(roots: seq<FileRoot>, v: Json)
    requires DistinctNames(roots) && Plain(v) && EveryString(s => Rooted(roots, s) ==> CleanAbs(s), v)
    ensures Restore(roots, Rewrite(roots, v)) == v
  {
    match v
    case Str(s) =>
      if Rooted(roots, s) {
        RestoreString(roots, s);
      }
    case Obj(fields) =>
      forall k | k in fields
        ensures Restore(roots, Rewrite(roots, fields[k])) == fields[k]
      {
        RewriteUndone(roots, fields[k]);
      }
      RestoreFields(roots, fields);
    case Arr(items) =>
      forall i | 0 <= i < |items|
        ensures Restore(roots, Rewrite(roots, items[i])) == items[i]
      {
        RewriteUndone(roots, items[i]);
      }
      RestoreItems(roots, items);
    case _ =>
  }

  lemma RestoreFields(roots: seq<FileRoot>, fields: map<string, Json>)
    requires forall k :: k in fields ==> Restore(roots, Rewrite(roots, fields[k])) == fields[k]
    ensures Restore(roots, Rewrite(roots, Obj(fields))) == Obj(fields)
  {
    var t := if roots == [] then fields else map k | k in fields :: Rewrite(roots, fields[k]);
    assert Rewrite(roots, Obj(fields)) == Obj(t);
    assert forall k :: k in fields ==> t[k] == Rewrite(roots, fields[k]);
    assert (map k | k in t :: Restore(roots, t[k])) == fields;
  }

  lemma RestoreItems(roots: seq<FileRoot>, items: seq<Json>)
    requires forall i :: 0 <= i < |items| ==> Restore(roots, Rewrite(roots, items[i])) == items[i]
    ensures Restore(roots, Rewrite(roots, Arr(items))) == Arr(items)
  {
    var t := if roots == [] then items else seq(|items|, i requires 0 <= i < |items| => Rewrite(roots, items[i]));
    assert Rewrite(roots, Arr(items)) == Arr(t);
    assert forall i :: 0 <= i < |items| ==> t[i] == Rewrite(roots, items[i]);
    assert seq(|t|, i requires 0 <= i < |t| => Restore(roots, t[i])) == items;
  }

  /** Made of a clean path, ref fetches it for the caller; only a blank relative path does not. */
  ghost predicate Fetches(o: Options, context: Option<Verified>, ref: Reference) {
    exists s :: CleanAbs(s) && FileRefFor(EffectiveFileRoots(o, context), s) == Some(ref)
                && (Select(o, context, ["get", ref.root, ref.path]) == Get(s) <==> TrimSpace(ref.path) != "")
  }

  /** Every reference anywhere in a caller's tool output fetches, for that caller, the path
      it was made of. */
  lemma OutputFetches(o: Options, context: Option<Verified>, v: Json)
    requires DistinctNames(EffectiveFileRoots(o, context)) && Plain(v)
    requires EveryString(s => Rooted(EffectiveFileRoots(o, context), s) ==> CleanAbs(s), v)
    ensures EveryLeaf((x: Json) => x.File? ==> Fetches(o, context, x.ref), Rewrite(EffectiveFileRoots(o, context), v))
  {
    var roots := EffectiveFileRoots(o, context);
    var tidy := (x: Json) => x.Str? ==> (s => Rooted(roots, s) ==> CleanAbs(s))(x.s);
    var plain := (x: Json) => !x.File?;
    EveryLeafBoth(plain, tidy, v);
    forall x: Json | !x.Obj? && !x.Arr? && plain(x) && tidy(x)
      ensures Rewrite(roots, x).File? ==> Fetches(o, context, Rewrite(roots, x).ref)
    {
      if x.Str? && Rooted(roots, x.s) {
        ReferenceRoundTrip(o, context, x.s);
        DeepestContains(roots, x.s);
      }
    }
    RewriteLeaves(roots, (x: Json) => plain(x) && tidy(x), (x: Json) => x.File? ==> Fetches(o, context, x.ref), v);
  }
}
