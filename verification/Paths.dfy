/** Paths under named roots: the reverse map from an absolute path to a reference, and the
    resolver that turns a reference back into a path and never leaves its root. Both are
    the string part only, as for paths without symbolic links. */
module Paths {
  import opened Wrappers
  import opened Strings
  import opened Callers

  predicate Segment(s: string) {
    s != "" && s != "." && s != ".." && '/' !in s
  }

  predicate AllSegments(segs: seq<string>) {
    forall i :: 0 <= i < |segs| ==> Segment(segs[i])
  }

  /** A cleaned absolute path other than the file system's root. */
  predicate CleanAbs(p: string) {
    p != "" && p[0] == '/' && AllSegments(Split(p[1..], '/'))
  }

  predicate Under(root: string, s: string) {
    root != "" && (s == root || HasPrefix(s, root + "/"))
  }

  /** s is at or under some root. */
  predicate Rooted(roots: seq<FileRoot>, s: string) {
    exists i | 0 <= i < |roots| :: Under(roots[i].path, s)
  }

  /** The deepest root containing s, the first listed of equals. */
  function Deepest(roots: seq<FileRoot>, s: string): Option<FileRoot> {
    if roots == [] then None
    else
      var best, r := Deepest(roots[..|roots| - 1], s), roots[|roots| - 1];
      if Under(r.path, s) && (best.None? || |r.path| > |best.value.path|) then Some(r) else best
  }

  function Relative(root: string, s: string): string
    requires Under(root, s)
  {
    if s == root then "." else s[|root| + 1..]
  }

  datatype Reference = Reference(root: string, path: string)

  lemma {:induction false} DeepestContains(roots: seq<FileRoot>, s: string)
    ensures Deepest(roots, s).Some? <==> Rooted(roots, s)
    ensures Deepest(roots, s).Some? ==>
      var r := Deepest(roots, s).value;
      && r in roots && Under(r.path, s)
      && forall i :: 0 <= i < |roots| && Under(roots[i].path, s) ==> |roots[i].path| <= |r.path|
  {
    if roots != [] {
      var n := |roots| - 1;
      DeepestContains(roots[..n], s);
      assert forall i :: 0 <= i < n ==> roots[i] == roots[..n][i];
    }
  }

  /** Root i contains s, is at least as deep as all that do, and deeper than all before it. */
  ghost predicate FirstDeepest(roots: seq<FileRoot>, s: string, i: nat) {
    && i < |roots| && Under(roots[i].path, s)
    && (forall j :: 0 <= j < i && Under(roots[j].path, s) ==> |roots[j].path| < |roots[i].path|)
    && (forall j :: i < j < |roots| && Under(roots[j].path, s) ==> |roots[j].path| <= |roots[i].path|)
  }

  /** One more root at the end: it takes over only if it is deeper. */
  lemma FirstDeepestMore(roots: seq<FileRoot>, r: FileRoot, s: string, i: nat)
    requires FirstDeepest(roots, s, i)
    ensures if Under(r.path, s) && |r.path| > |roots[i].path| then FirstDeepest(roots + [r], s, |roots|)
            else FirstDeepest(roots + [r], s, i)
  {
    var all := roots + [r];
    assert all[|roots|] == r && forall j :: 0 <= j < |roots| ==> all[j] == roots[j];
  }

  lemma NoneRooted(roots: seq<FileRoot>, r: FileRoot, s: string)
    requires !Rooted(roots, s) && Under(r.path, s)
    ensures FirstDeepest(roots + [r], s, |roots|)
  {
    assert forall j :: 0 <= j < |roots| ==> (roots + [r])[j] == roots[j] && !Under(roots[j].path, s);
  }

  lemma RootedLast(roots: seq<FileRoot>, r: FileRoot, s: string)
    requires Rooted(roots + [r], s) && !Rooted(roots, s)
    ensures Under(r.path, s)
  {
    var i :| 0 <= i < |roots + [r]| && Under((roots + [r])[i].path, s);
    assert i < |roots| ==> Under(roots[i].path, s);
  }

  /** Of equally deep roots the first is chosen. */
  lemma {:induction false} DeepestIsFirst(roots: seq<FileRoot>, s: string) returns (i: nat)
    requires Rooted(roots, s)
    ensures FirstDeepest(roots, s, i) && Deepest(roots, s) == Some(roots[i])
  {
    var n := |roots| - 1;
    var front, r := roots[..n], roots[n];
    assert roots == front + [r];
    DeepestContains(front, s);
    if Rooted(front, s) {
      i := DeepestIsFirst(front, s);
      FirstDeepestMore(front, r, s, i);
      if Under(r.path, s) && |r.path| > |front[i].path| {
        i := n;
      }
    } else {
      i := n;
      RootedLast(front, r, s);
      NoneRooted(front, r, s);
    }
  }

  /** FileRefFor: nothing for a path under no root. */
  function FileRefFor(roots: seq<FileRoot>, s: string): (ref: Option<Reference>)
    ensures ref.Some? <==> Rooted(roots, s)
  {
    DeepestContains(roots, s);
    var r := Deepest(roots, s);
    if r.None? then None else Some(Reference(r.value.name, Relative(r.value.path, s)))
  }

  /** The only path of that length containing s, and so the deepest. */
  lemma SameLengthSamePath(a: string, b: string, s: string)
    requires Under(a, s) && Under(b, s) && |a| == |b|
    ensures a == b
  {
    assert a == s[..|a|] && b == s[..|b|];
  }

  // filepath.Clean and SafeResolve.

  function PushSegment(out: seq<string>, seg: string): seq<string> {
    if seg == "" || seg == "." then out
    else if seg == ".." && out != [] && out[|out| - 1] != ".." then out[..|out| - 1]
    else out + [seg]
  }

  /** The segments filepath.Clean leaves of a relative path. */
  function CleanSegments(segs: seq<string>): seq<string> {
    if segs == [] then []
    else PushSegment(CleanSegments(segs[..|segs| - 1]), segs[|segs| - 1])
  }

  function Below(root: string, segs: seq<string>): string {
    if segs == [] then root else root + "/" + Join(segs, "/")
  }

  function SafeResolve(root: FileRoot, rel: string): Result<string> {
    var segs := CleanSegments(Split(rel, '/'));
    if HasPrefix(rel, "/") || ".." in segs then Failed else Ok(Below(root.path, segs))
  }

  /** How many directories deeper a walk along segs ends. */
  function Depth(segs: seq<string>): int {
    if segs == [] then 0
    else
      var seg := segs[|segs| - 1];
      Depth(segs[..|segs| - 1]) + (if seg == "" || seg == "." then 0 else if seg == ".." then -1 else 1)
  }

  /** The walk leaves the directory it started in at some point. */
  ghost predicate Escapes(segs: seq<string>) {
    exists k :: 0 <= k <= |segs| && Depth(segs[..k]) < 0
  }

  lemma EscapesStill(segs: seq<string>)
    requires segs != [] && (Escapes(segs[..|segs| - 1]) || Depth(segs) < 0)
    ensures Escapes(segs)
  {
    var front := segs[..|segs| - 1];
    if Depth(segs) < 0 {
      assert segs[..|segs|] == segs;
      assert Depth(segs[..|segs|]) < 0;
    } else {
      var k :| 0 <= k <= |front| && Depth(front[..k]) < 0;
      assert front[..k] == segs[..k];
    }
  }

  lemma EscapesWhere(segs: seq<string>)
    requires segs != [] && Escapes(segs)
    ensures Escapes(segs[..|segs| - 1]) || Depth(segs) < 0
  {
    var front := segs[..|segs| - 1];
    var k :| 0 <= k <= |segs| && Depth(segs[..k]) < 0;
    if k == |segs| {
      assert segs[..k] == segs;
    } else {
      assert front[..k] == segs[..k];
    }
  }

  /** A parent segment, once left over, stays. */
  lemma PushKeepsParent(out: seq<string>, seg: string)
    requires ".." in out
    ensures ".." in PushSegment(out, seg)
  {
    var i :| 0 <= i < |out| && out[i] == "..";
    assert out[|out| - 1] != ".." ==> out[..|out| - 1][i] == "..";
  }

  /** As long as the walk stays below its start, what is left is as long as it is deep. */
  lemma {:induction false} CleanLength(segs: seq<string>)
    requires !Escapes(segs)
    ensures ".." !in CleanSegments(segs) && |CleanSegments(segs)| == Depth(segs)
  {
    if segs != [] {
      if Escapes(segs[..|segs| - 1]) || Depth(segs) < 0 {
        EscapesStill(segs);
      }
      CleanLength(segs[..|segs| - 1]);
    } else {
      assert [] == segs[..0];
    }
  }

  /** Cleaning leaves a parent segment exactly when the walk leaves its start. */
  lemma {:induction false} CleanTracksDepth(segs: seq<string>)
    ensures ".." in CleanSegments(segs) <==> Escapes(segs)
    ensures !Escapes(segs) ==> |CleanSegments(segs)| == Depth(segs)
  {
    if segs == [] {
      assert segs[..0] == [];
    } else if !Escapes(segs) {
      CleanLength(segs);
    } else {
      var front := segs[..|segs| - 1];
      EscapesWhere(segs);
      CleanTracksDepth(front);
      if Escapes(front) {
        PushKeepsParent(CleanSegments(front), segs[|segs| - 1]);
      }
    }
  }

  lemma {:induction false} CleanLeavesSegments(segs: seq<string>)
    requires forall i :: 0 <= i < |segs| ==> '/' !in segs[i]
    ensures forall i :: 0 <= i < |CleanSegments(segs)| ==> CleanSegments(segs)[i] == ".." || Segment(CleanSegments(segs)[i])
  {
    if segs != [] {
      CleanLeavesSegments(segs[..|segs| - 1]);
    }
  }

  lemma {:induction false} CleanKeepsSegments(segs: seq<string>)
    requires AllSegments(segs)
    ensures CleanSegments(segs) == segs
  {
    if segs != [] {
      CleanKeepsSegments(segs[..|segs| - 1]);
      assert segs == segs[..|segs| - 1] + [segs[|segs| - 1]];
    }
  }

  lemma AppendSnoc(a: seq<string>, rest: seq<string>)
    requires rest != []
    ensures a + rest == (a + rest[..|rest| - 1]) + [rest[|rest| - 1]]
  {
  }

  lemma CleanSnoc(segs: seq<string>, seg: string)
    ensures CleanSegments(segs + [seg]) == PushSegment(CleanSegments(segs), seg)
  {
    assert (segs + [seg])[..|segs|] == segs;
  }

  lemma {:induction false} CleanContinues(a: seq<string>, b: seq<string>, rest: seq<string>)
    requires CleanSegments(a) == CleanSegments(b)
    ensures CleanSegments(a + rest) == CleanSegments(b + rest)
    decreases |rest|
  {
    if rest == [] {
      assert a + rest == a && b + rest == b;
    } else {
      var front, seg := rest[..|rest| - 1], rest[|rest| - 1];
      CleanContinues(a, b, front);
      CleanSnoc(a + front, seg);
      CleanSnoc(b + front, seg);
      AppendSnoc(a, rest);
      AppendSnoc(b, rest);
    }
  }

  /** Cleaning by its laws: empty and single-dot segments mean nothing, a segment and a parent
      segment after it cancel out, anywhere in a path, and a path of proper segments is clean. */
  lemma CleanLaws(a: seq<string>, seg: string, b: seq<string>)
    ensures CleanSegments(a + [""] + b) == CleanSegments(a + b)
    ensures CleanSegments(a + ["."] + b) == CleanSegments(a + b)
    ensures Segment(seg) ==> CleanSegments(a + [seg, ".."] + b) == CleanSegments(a + b)
    ensures AllSegments(a) ==> CleanSegments(a) == a
  {
    CleanSnoc(a, "");
    CleanContinues(a + [""], a, b);
    CleanSnoc(a, ".");
    CleanContinues(a + ["."], a, b);
    if Segment(seg) {
      CleanSnoc(a, seg);
      CleanSnoc(a + [seg], "..");
      assert a + [seg, ".."] == a + [seg] + [".."];
      CleanContinues(a + [seg, ".."], a, b);
    }
    if AllSegments(a) {
      CleanKeepsSegments(a);
    }
  }

  lemma BelowClean(root: string, segs: seq<string>)
    requires CleanAbs(root) && AllSegments(segs)
    ensures CleanAbs(Below(root, segs)) && Under(root, Below(root, segs))
  {
    if segs != [] {
      var tail := Join(segs, "/");
      SplitJoin(segs, '/');
      SplitAppend(root[1..], tail, '/');
      var p := root + "/" + tail;
      assert root + "/" <= p;
      assert p[1..] == root[1..] + "/" + tail;
    }
  }

  /** Containment: whatever the relative path, what it resolves to is a clean path at or
      under the root; and it is refused exactly when it is absolute or its walk leaves the
      root at some point. */
  lemma SafeResolveContains(root: FileRoot, rel: string)
    requires CleanAbs(root.path)
    ensures SafeResolve(root, rel).Failed? <==> HasPrefix(rel, "/") || Escapes(Split(rel, '/'))
    ensures SafeResolve(root, rel).Ok? ==>
      CleanAbs(SafeResolve(root, rel).value) && Under(root.path, SafeResolve(root, rel).value)
  {
    var segs := CleanSegments(Split(rel, '/'));
    CleanTracksDepth(Split(rel, '/'));
    JoinSplit(rel, '/');
    CleanLeavesSegments(Split(rel, '/'));
    if ".." !in segs {
      assert forall i :: 0 <= i < |segs| ==> segs[i] in segs;
      BelowClean(root.path, segs);
    }
  }

  lemma RelativeSegments(root: string, s: string)
    requires root != "" && CleanAbs(s) && Under(root, s) && s != root
    ensures AllSegments(Split(Relative(root, s), '/')) && !HasPrefix(Relative(root, s), "/")
    ensures root + "/" + Relative(root, s) == s
  {
    var rel := Relative(root, s);
    assert s == root + "/" + rel;
    assert s[1..] == root[1..] + "/" + rel;
    SplitAppend(root[1..], rel, '/');
    var all := Split(s[1..], '/');
    assert forall i :: 0 <= i < |Split(rel, '/')| ==> Split(rel, '/')[i] == all[|Split(root[1..], '/')| + i];
    if HasPrefix(rel, "/") {
      LeadingSlash(rel);
    }
  }

  lemma LeadingSlash(rel: string)
    requires HasPrefix(rel, "/")
    ensures Split(rel, '/')[0] == ""
  {
    assert rel == "" + ['/'] + rel[1..];
    SplitFirst("", rel[1..], '/');
  }

  /** Resolving a path relative to its root gives the path back. */
  lemma ResolveRelative(root: FileRoot, s: string)
    requires CleanAbs(s) && Under(root.path, s)
    ensures SafeResolve(root, Relative(root.path, s)) == Ok(s)
  {
    var rel := Relative(root.path, s);
    if s == root.path {
      SplitPiece(".", '/');
      assert CleanSegments(["."][..0]) == [];
    } else {
      RelativeSegments(root.path, s);
      var segs := Split(rel, '/');
      CleanKeepsSegments(segs);
      JoinSplit(rel, '/');
      assert forall i :: 0 <= i < |segs| ==> segs[i] != "..";
    }
  }
}
