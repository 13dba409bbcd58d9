/** Who a tool call acts for, and what follows from it: the identity injected into the
    child process and the file roots it may see. */
module Callers {
  import opened Wrappers
  import opened AccessTokens

  datatype FileRoot = FileRoot(name: string, path: string)

  datatype Injection = Injection(argv: seq<string>, env: seq<string>)

  const NO_INJECTION := Injection([], [])

  /** What the embedding program configures; absent means not configured. */
  datatype Options = Options(
    identityBinding: Option<Verified -> Injection>,
    fileRoots: seq<FileRoot>,
    fileRootScope: Option<(Verified, FileRoot) -> Option<FileRoot>>)

  /** The named principal a call acts for; nothing for an operator call. The context
      carries no identity on a transport without the OAuth gate. */
  function BoundPrincipal(context: Option<Verified>): Option<Verified> {
    if context.None? || context.value.principal.IsAnonymous() then None else context
  }

  function IdentityInjection(o: Options, context: Option<Verified>): Injection {
    var p := BoundPrincipal(context);
    if o.identityBinding.None? || p.None? then NO_INJECTION else o.identityBinding.value(p.value)
  }

  function Scoped(scope: (Verified, FileRoot) -> Option<FileRoot>, p: Verified, roots: seq<FileRoot>): seq<FileRoot> {
    if roots == [] then []
    else
      var last := scope(p, roots[|roots| - 1]);
      Scoped(scope, p, roots[..|roots| - 1]) + (if last.Some? then [last.value] else [])
  }

  function EffectiveFileRoots(o: Options, context: Option<Verified>): seq<FileRoot> {
    var p := BoundPrincipal(context);
    if p.None? then o.fileRoots
    else if o.fileRootScope.None? then []
    else Scoped(o.fileRootScope.value, p.value, o.fileRoots)
  }

  method CollectFileRoots(o: Options, context: Option<Verified>) returns (out: seq<FileRoot>)
    ensures out == EffectiveFileRoots(o, context)
  {
    var p := BoundPrincipal(context);
    if p.None? {
      return o.fileRoots;
    }
    out := [];
    if o.fileRootScope.None? {
      return;
    }
    for i := 0 to |o.fileRoots|
      invariant out == Scoped(o.fileRootScope.value, p.value, o.fileRoots[..i])
    {
      assert o.fileRoots[..i + 1][..i] == o.fileRoots[..i];
      var scoped := o.fileRootScope.value(p.value, o.fileRoots[i]);
      if scoped.Some? {
        out := out + [scoped.value];
      }
    }
    assert o.fileRoots[..|o.fileRoots|] == o.fileRoots;
  }

  /** A principal sees exactly what the scope makes of the configured roots for it. */
  lemma {:induction false} ScopedExactly(scope: (Verified, FileRoot) -> Option<FileRoot>, p: Verified, roots: seq<FileRoot>, r: FileRoot)
    ensures r in Scoped(scope, p, roots) <==> exists i :: 0 <= i < |roots| && scope(p, roots[i]) == Some(r)
  {
    if roots != [] {
      var n := |roots| - 1;
      ScopedExactly(scope, p, roots[..n], r);
      if i :| 0 <= i < n && scope(p, roots[..n][i]) == Some(r) {
        assert roots[i] == roots[..n][i];
      }
      assert forall i :: 0 <= i < n ==> roots[i] == roots[..n][i];
    }
  }

  /** Root k of a principal's is what the scope makes of configured root at[k]; at lists, in
      configured order, the roots it does not refuse. */
  ghost predicate ScopedFrom(scope: (Verified, FileRoot) -> Option<FileRoot>, p: Verified, roots: seq<FileRoot>, at: seq<nat>, out: seq<FileRoot>) {
    && |out| == |at|
    && (forall j, k :: 0 <= j < k < |at| ==> at[j] < at[k])
    && (forall k :: 0 <= k < |at| ==> at[k] < |roots| && scope(p, roots[at[k]]) == Some(out[k]))
    && (forall i: nat :: i < |roots| && scope(p, roots[i]).Some? ==> i in at)
  }

  lemma ScopedMore(scope: (Verified, FileRoot) -> Option<FileRoot>, p: Verified, front: seq<FileRoot>, root: FileRoot, at: seq<nat>, out: seq<FileRoot>)
    requires ScopedFrom(scope, p, front, at, out)
    ensures if scope(p, root).Some? then ScopedFrom(scope, p, front + [root], at + [|front|], out + [scope(p, root).value])
            else ScopedFrom(scope, p, front + [root], at, out)
  {
    var roots := front + [root];
    assert forall i :: 0 <= i < |front| ==> roots[i] == front[i];
    var at' := if scope(p, root).Some? then at + [|front|] else at;
    forall i: nat | i < |roots| && scope(p, roots[i]).Some?
      ensures i in at'
    {
      assert i < |front| ==> i in at;
    }
  }

  /** A principal sees the roots in configured order. */
  lemma {:induction false} ScopedInOrder(scope: (Verified, FileRoot) -> Option<FileRoot>, p: Verified, roots: seq<FileRoot>) returns (at: seq<nat>)
    ensures ScopedFrom(scope, p, roots, at, Scoped(scope, p, roots))
  {
    if roots == [] {
      at := [];
    } else {
      var n := |roots| - 1;
      var front := roots[..n];
      assert roots == front + [roots[n]];
      at := ScopedInOrder(scope, p, front);
      ScopedMore(scope, p, front, roots[n], at, Scoped(scope, p, front));
      if scope(p, roots[n]).Some? {
        at := at + [n];
      }
    }
  }

  /** Without an identity, as on a transport without the gate, a call is the operator's. */
  lemma NobodyIsOperator(o: Options)
    ensures IdentityInjection(o, None) == Injection([], []) && EffectiveFileRoots(o, None) == o.fileRoots
  {
  }

  /** What the identity v is given: the operator's own defaults, or what binding and scope
      make of v, and without a scope no root at all. */
  ghost predicate ActsFor(o: Options, v: Verified) {
    if v.principal.name == "" && v.principal.binding == map[] then
      IdentityInjection(o, Some(v)) == NO_INJECTION && EffectiveFileRoots(o, Some(v)) == o.fileRoots
    else
      && IdentityInjection(o, Some(v)) == (if o.identityBinding.Some? then o.identityBinding.value(v) else NO_INJECTION)
      && (forall r :: r in EffectiveFileRoots(o, Some(v)) <==>
            o.fileRootScope.Some? && exists k :: 0 <= k < |o.fileRoots| && o.fileRootScope.value(v, o.fileRoots[k]) == Some(r))
  }

  lemma CallActsFor(o: Options, v: Verified)
    ensures ActsFor(o, v)
  {
    if o.fileRootScope.Some? {
      forall r
        ensures r in Scoped(o.fileRootScope.value, v, o.fileRoots) <==>
                exists k :: 0 <= k < |o.fileRoots| && o.fileRootScope.value(v, o.fileRoots[k]) == Some(r)
      {
        ScopedExactly(o.fileRootScope.value, v, o.fileRoots, r);
      }
    }
  }
}
