/** The file tool's way from its arguments to a path: verb, root among the caller's, path. */
module FileTool {
  import opened Wrappers
  import opened Strings
  import opened AccessTokens
  import opened Callers
  import opened Paths

  /** What a call's arguments select, before the file system is asked. */
  datatype Selection =
    | Help
    | NoRoots
    | NeedsRoot
    | UnknownRoot
    | Find(root: FileRoot, args: seq<string>)
    | List(root: FileRoot, args: seq<string>)
    | NeedsPath
    | Outside
    | Get(path: string)

  /** The first root of that name. */
  function RootByName(roots: seq<FileRoot>, name: string): Option<FileRoot> {
    if roots == [] then None
    else if roots[0].name == name then Some(roots[0])
    else RootByName(roots[1..], name)
  }

  method LookUpRoot(roots: seq<FileRoot>, name: string) returns (r: Option<FileRoot>)
    ensures r == RootByName(roots, name)
  {
    for i := 0 to |roots|
      invariant RootByName(roots[i..], name) == RootByName(roots, name)
    {
      assert roots[i..][1..] == roots[i + 1..];
      if roots[i].name == name {
        return Some(roots[i]);
      }
    }
    return None;
  }

  function SelectPath(root: FileRoot, args: seq<string>): Selection {
    if args == [] || TrimSpace(args[0]) == "" then NeedsPath
    else
      match SafeResolve(root, args[0])
      case Failed => Outside
      case Ok(p) => Get(p)
  }

  function Select(o: Options, context: Option<Verified>, args: seq<string>): Selection {
    var verb := if args == [] then "" else args[0];
    var roots := EffectiveFileRoots(o, context);
    if verb !in ["find", "ls", "get"] then Help
    else if roots == [] then NoRoots
    else if |args| == 1 then NeedsRoot
    else
      var root := RootByName(roots, args[1]);
      if root.None? then UnknownRoot
      else if verb == "find" then Find(root.value, args[2..])
      else if verb == "ls" then List(root.value, args[2..])
      else SelectPath(root.value, args[2..])
  }

  ghost predicate DistinctNames(roots: seq<FileRoot>) {
    forall i, j :: 0 <= i < j < |roots| ==> roots[i].name != roots[j].name
  }

  lemma {:induction false} RootByNameFirst(roots: seq<FileRoot>, r: FileRoot)
    requires r in roots
    ensures RootByName(roots, r.name).Some? && RootByName(roots, r.name).value in roots
    ensures DistinctNames(roots) ==> RootByName(roots, r.name) == Some(r)
  {
    if roots[0].name != r.name {
      RootByNameFirst(roots[1..], r);
      if DistinctNames(roots) {
        assert forall i, j :: 0 <= i < j < |roots[1..]| ==> roots[1..][i].name != roots[1..][j].name by {
          assert forall i :: 0 <= i < |roots[1..]| ==> roots[1..][i] == roots[i + 1];
        }
      }
    }
  }

  /** Whatever a caller passes to get, the path it reaches lies in one of its own roots. */
  lemma GetStaysInside(o: Options, context: Option<Verified>, args: seq<string>)
    requires forall r :: r in EffectiveFileRoots(o, context) ==> CleanAbs(r.path)
    ensures Select(o, context, args).Get? ==>
      && args[0] == "get" && CleanAbs(Select(o, context, args).path)
      && exists r :: r in EffectiveFileRoots(o, context) && r.name == args[1] && Under(r.path, Select(o, context, args).path)
  {
    if Select(o, context, args).Get? {
      var root := RootByName(EffectiveFileRoots(o, context), args[1]).value;
      RootByNameNamed(EffectiveFileRoots(o, context), args[1]);
      SafeResolveContains(root, args[2..][0]);
    }
  }

  lemma {:induction false} RootByNameNamed(roots: seq<FileRoot>, name: string)
    ensures RootByName(roots, name).Some? ==> RootByName(roots, name).value in roots && RootByName(roots, name).value.name == name
  {
    if roots != [] && roots[0].name != name {
      RootByNameNamed(roots[1..], name);
    }
  }

  /** Looking a root up: the first of that name, and nothing only if there is none. */
  lemma {:induction false} RootByNameExactly(roots: seq<FileRoot>, name: string) returns (i: nat)
    ensures i <= |roots| && forall j :: 0 <= j < i ==> roots[j].name != name
    ensures i < |roots| ==> roots[i].name == name
    ensures RootByName(roots, name) == if i < |roots| then Some(roots[i]) else None
  {
    i := 0;
    if roots != [] && roots[0].name != name {
      i := RootByNameExactly(roots[1..], name);
      assert forall j :: 0 < j < |roots| ==> roots[j] == roots[1..][j - 1];
      i := i + 1;
    }
  }

  /** What every call of the file tool comes to: usage for anything but its three verbs, an
      error without roots, without a root's name or with an unknown one; and otherwise the
      verb on the first root of that name the caller sees, with the arguments after it. */
  lemma SelectExactly(o: Options, context: Option<Verified>, verb: string, rest: seq<string>) returns (i: nat)
    ensures Select(o, context, []) == Help
    ensures verb != "find" && verb != "ls" && verb != "get" ==> Select(o, context, [verb] + rest) == Help
    ensures var roots := EffectiveFileRoots(o, context);
      verb == "find" || verb == "ls" || verb == "get" ==>
        && (roots == [] ==> Select(o, context, [verb] + rest) == NoRoots)
        && (roots != [] && rest == [] ==> Select(o, context, [verb] + rest) == NeedsRoot)
        && (roots != [] && rest != [] ==>
              && i <= |roots| && (forall j :: 0 <= j < i ==> roots[j].name != rest[0])
              && if i == |roots| then Select(o, context, [verb] + rest) == UnknownRoot
                 else roots[i].name == rest[0] && ActsOn(Select(o, context, [verb] + rest), verb, roots[i], rest[1..]))
  {
    var roots := EffectiveFileRoots(o, context);
    i := 0;
    if rest != [] {
      i := RootByNameExactly(roots, rest[0]);
      assert ([verb] + rest)[1] == rest[0] && ([verb] + rest)[2..] == rest[1..];
    }
  }

  predicate ActsOn(s: Selection, verb: string, root: FileRoot, args: seq<string>) {
    match verb
    case "find" => s == Find(root, args)
    case "ls" => s == List(root, args)
    case _ =>
      if args == [] || TrimSpace(args[0]) == "" then s == NeedsPath
      else s == if SafeResolve(root, args[0]).Ok? then Get(SafeResolve(root, args[0]).value) else Outside
  }

  lemma BelowInjective(a: string, b: string, segs: seq<string>)
    requires Below(a, segs) == Below(b, segs)
    ensures a == b
  {
    if segs != [] {
      var tail := "/" + Join(segs, "/");
      assert Below(a, segs) == a + tail && Below(b, segs) == b + tail;
      SameCut(a, tail, b, tail);
    }
  }

  /** A path relative to one root resolves to the same path under another only if the two are the same. */
  lemma ResolvesThrough(found: FileRoot, root: FileRoot, s: string)
    requires CleanAbs(s) && Under(root.path, s)
    ensures SafeResolve(found, Relative(root.path, s)) == Ok(s) <==> found.path == root.path
  {
    ResolveRelative(root, s);
    if SafeResolve(found, Relative(root.path, s)) == Ok(s) {
      BelowInjective(found.path, root.path, CleanSegments(Split(Relative(root.path, s), '/')));
    }
  }

  lemma SelectGet(o: Options, context: Option<Verified>, name: string, path: string, root: FileRoot)
    requires RootByName(EffectiveFileRoots(o, context), name) == Some(root)
    ensures Select(o, context, ["get", name, path]) == SelectPath(root, [path])
  {
    assert ["get", name, path][2..] == [path];
  }

  /** Reference round trip: for every caller, scope and clean path under one of the caller's
      roots, get with the reference made of the path reaches the path again exactly when
      the reference's path is not blank and its root name finds a root of the same path. */
  lemma ReferenceRoundTrip(o: Options, context: Option<Verified>, s: string)
    requires CleanAbs(s) && Rooted(EffectiveFileRoots(o, context), s)
    ensures var roots := EffectiveFileRoots(o, context);
      var ref := FileRefFor(roots, s).value;
      && RootByName(roots, ref.root).Some?
      && (Select(o, context, ["get", ref.root, ref.path]) == Get(s) <==>
            TrimSpace(ref.path) != "" && RootByName(roots, ref.root).value.path == Deepest(roots, s).value.path)
      && (DistinctNames(roots) ==> RootByName(roots, ref.root) == Deepest(roots, s))
  {
    var roots := EffectiveFileRoots(o, context);
    DeepestContains(roots, s);
    var root, ref := Deepest(roots, s).value, FileRefFor(roots, s).value;
    RootByNameFirst(roots, root);
    var found := RootByName(roots, ref.root).value;
    SelectGet(o, context, ref.root, ref.path, found);
    ResolvesThrough(found, root, s);
  }
}
