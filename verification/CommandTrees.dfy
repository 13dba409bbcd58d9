/** A command tree and the predicates every walk over it shares. Commands are told apart
    by their place: the child indices on the way from the command the walk starts at. */
module CommandTrees {
  const EXPOSE := "mcp.expose"
  const SKIP := "mcp.skip"
  const DESTRUCTIVE := "mcp.destructive"
  const READ_ONLY := "mcp.readonly"
  const SKIP_COMMANDS := {"help", "completion", "__complete", "__completeNoDesc", "mcp"}

  /** `yes` says whether the command defines a --yes flag. */
  datatype Command = Command(
    name: string, hidden: bool, runnable: bool, annotations: map<string, string>, yes: bool, subs: seq<Command>)

  type Place = seq<nat>

  predicate Marked(c: Command, key: string) {
    key in c.annotations && c.annotations[key] == "true"
  }

  predicate Excluded(c: Command) {
    c.hidden || c.name in SKIP_COMMANDS || Marked(c, SKIP)
  }

  predicate Exposed(c: Command) {
    Marked(c, EXPOSE)
  }

  predicate Confirms(c: Command) {
    c.yes
  }

  predicate Destructive(c: Command) {
    Confirms(c) || Marked(c, DESTRUCTIVE)
  }

  predicate Runnable(c: Command) {
    c.runnable
  }

  predicate Annotated(c: Command, key: string, value: string) {
    key in c.annotations && c.annotations[key] == value
  }

  /** What a command's own fields say of it: left out if hidden, skipped by annotation or
      named like cobra's own commands and the bridge's; a tool boundary by annotation;
      destructive by annotation, or because it can be confirmed. */
  lemma FieldsDecide(c: Command)
    ensures Excluded(c) <==>
      || c.hidden || Annotated(c, "mcp.skip", "true") || c.name == "help" || c.name == "mcp"
      || c.name == "completion" || c.name == "__complete" || c.name == "__completeNoDesc"
    ensures Exposed(c) <==> Annotated(c, "mcp.expose", "true")
    ensures Destructive(c) <==> c.yes || Annotated(c, "mcp.destructive", "true")
  {
  }

  /** Depth first, siblings in order: p is on the way to q, or turns off before it. */
  predicate Before(p: Place, q: Place) {
    q != [] && (p == [] || p[0] < q[0] || (p[0] == q[0] && Before(p[1..], q[1..])))
  }

  lemma {:induction false} BeforeIrreflexive(p: Place)
    ensures !Before(p, p)
  {
    if p != [] {
      BeforeIrreflexive(p[1..]);
    }
  }

  lemma BeforeBelow(v: nat, p: Place, q: Place)
    ensures Before([v] + p, [v] + q) <==> Before(p, q)
  {
    assert ([v] + p)[1..] == p && ([v] + q)[1..] == q;
  }

  predicate IsPlace(c: Command, p: Place) {
    p != [] ==> p[0] < |c.subs| && IsPlace(c.subs[p[0]], p[1..])
  }

  function At(c: Command, p: Place): Command
    requires IsPlace(c, p)
    decreases p
  {
    if p == [] then c else At(c.subs[p[0]], p[1..])
  }

  /** A place strictly below c, none of the commands on the way to it excluded, nor it. */
  predicate Visible(c: Command, p: Place) {
    p != [] && p[0] < |c.subs| && !Excluded(c.subs[p[0]]) && (p[1..] == [] || Visible(c.subs[p[0]], p[1..]))
  }

  lemma {:induction false} VisibleIsPlace(c: Command, p: Place)
    requires Visible(c, p)
    ensures IsPlace(c, p) && !Excluded(At(c, p))
  {
    if p[1..] != [] {
      VisibleIsPlace(c.subs[p[0]], p[1..]);
    }
  }

  /** The indices of the children a walk sees, among the first n. */
  function VisibleUpTo(c: Command, n: nat): (vs: seq<nat>)
    requires n <= |c.subs|
    ensures forall v: nat :: v in vs <==> v < n && !Excluded(c.subs[v])
    ensures forall i :: 0 <= i < |vs| ==> vs[i] < n && !Excluded(c.subs[vs[i]])
    ensures forall i, j :: 0 <= i < j < |vs| ==> vs[i] < vs[j]
    ensures |vs| <= n
  {
    if n == 0 then []
    else
      var before := VisibleUpTo(c, n - 1);
      if Excluded(c.subs[n - 1]) then before
      else
        before + [n - 1]
  }

  function VisibleSubs(c: Command): seq<nat> {
    VisibleUpTo(c, |c.subs|)
  }

  method KeepVisible(c: Command) returns (kept: seq<nat>)
    ensures kept == VisibleSubs(c)
  {
    kept := [];
    for i := 0 to |c.subs|
      invariant kept == VisibleUpTo(c, i)
    {
      if !Excluded(c.subs[i]) {
        kept := kept + [i];
      }
    }
  }

  predicate AnyCommand(c: Command, pred: Command -> bool) {
    exists i | 0 <= i < |c.subs| && !Excluded(c.subs[i]) :: pred(c.subs[i]) || AnyCommand(c.subs[i], pred)
  }

  /** anyCommand, stopping at the first hit. */
  method SearchCommand(c: Command, pred: Command -> bool) returns (found: bool)
    ensures found == AnyCommand(c, pred)
    decreases c
  {
    var subs := KeepVisible(c);
    for j := 0 to |subs|
      invariant forall k :: 0 <= k < j ==> !pred(c.subs[subs[k]]) && !AnyCommand(c.subs[subs[k]], pred)
    {
      assert subs[j] in subs;
      var sub := c.subs[subs[j]];
      if pred(sub) {
        return true;
      }
      var below := SearchCommand(sub, pred);
      if below {
        return true;
      }
    }
    forall i | 0 <= i < |c.subs| && !Excluded(c.subs[i])
      ensures !pred(c.subs[i]) && !AnyCommand(c.subs[i], pred)
    {
      assert i in subs;
    }
    return false;
  }

  predicate HasRunnableSub(c: Command) {
    AnyCommand(c, Runnable)
  }

  /** anyCommand finds exactly the commands at visible places. */
  lemma {:induction false} AnyCommandFinds(c: Command, pred: Command -> bool) returns (p: Place)
    requires AnyCommand(c, pred)
    ensures Visible(c, p) && IsPlace(c, p) && pred(At(c, p))
  {
    var i :| 0 <= i < |c.subs| && !Excluded(c.subs[i]) && (pred(c.subs[i]) || AnyCommand(c.subs[i], pred));
    var q: Place := [];
    if !pred(c.subs[i]) {
      q := AnyCommandFinds(c.subs[i], pred);
    }
    p := [i] + q;
    assert p[1..] == q;
    assert At(c.subs[i], q) == At(c, p);
  }

  lemma {:induction false} AnyCommandFound(c: Command, pred: Command -> bool, p: Place)
    requires Visible(c, p) && IsPlace(c, p) && pred(At(c, p))
    ensures AnyCommand(c, pred)
  {
    if p[1..] != [] {
      AnyCommandFound(c.subs[p[0]], pred, p[1..]);
    }
    assert pred(c.subs[p[0]]) || AnyCommand(c.subs[p[0]], pred);
  }

  /** Going on from a place. */
  lemma {:induction false} AtAppend(c: Command, p: Place, q: Place)
    ensures IsPlace(c, p + q) <==> IsPlace(c, p) && IsPlace(At(c, p), q)
    ensures IsPlace(c, p + q) ==> At(c, p + q) == At(At(c, p), q)
  {
    if p == [] {
      assert p + q == q;
    } else {
      assert (p + q)[1..] == p[1..] + q;
      if p[0] < |c.subs| {
        AtAppend(c.subs[p[0]], p[1..], q);
      }
    }
  }

  lemma {:induction false} VisibleAppend(c: Command, p: Place, q: Place)
    requires p != [] && q != []
    ensures Visible(c, p + q) <==> Visible(c, p) && IsPlace(c, p) && Visible(At(c, p), q)
    decreases p
  {
    assert (p + q)[1..] == p[1..] + q;
    if p[1..] == [] {
      assert p[1..] + q == q;
      if Visible(c, p) {
        VisibleIsPlace(c, p);
      }
    } else if p[0] < |c.subs| {
      VisibleAppend(c.subs[p[0]], p[1..], q);
    }
  }
}
