/** Which commands become tools. */
module Surfaces {
  import opened CommandTrees

  /** A tool: the command it maps to, and whether it dispatches subcommands. */
  datatype Tool = Tool(place: Place, group: bool)

  /** Tools found below a command, placed from where that command is. */
  function Under(place: Place, tools: seq<Tool>): (r: seq<Tool>)
    ensures |r| == |tools|
    ensures forall i :: 0 <= i < |tools| ==> r[i] == Tool(place + tools[i].place, tools[i].group)
  {
    seq(|tools|, i requires 0 <= i < |tools| => Tool(place + tools[i].place, tools[i].group))
  }

  /** The tools of the children at subs. */
  function LegacyTools(c: Command, subs: seq<nat>): seq<Tool>
    requires forall i :: 0 <= i < |subs| ==> subs[i] < |c.subs|
    decreases c, |subs|
  {
    if subs == [] then []
    else
      var v := subs[|subs| - 1];
      LegacyTools(c, subs[..|subs| - 1]) + Under([v], LegacyFrom(c.subs[v]))
  }

  /** A visible command, if runnable, and then its subtree. */
  function LegacyFrom(sub: Command): seq<Tool>
    decreases sub, |sub.subs| + 1
  {
    OwnTool(sub) + LegacyTools(sub, VisibleSubs(sub))
  }

  function OwnTool(sub: Command): seq<Tool> {
    if Runnable(sub) then [Tool([], false)] else []
  }

  function ExposedTools(c: Command, subs: seq<nat>): seq<Tool>
    requires forall i :: 0 <= i < |subs| ==> subs[i] < |c.subs|
    decreases c, |subs|
  {
    if subs == [] then []
    else
      var v := subs[|subs| - 1];
      ExposedTools(c, subs[..|subs| - 1]) + Under([v], ExposedFrom(c.subs[v]))
  }

  /** An exposed boundary is one tool or none; below anything else the walk goes on. */
  function ExposedFrom(sub: Command): seq<Tool>
    decreases sub, |sub.subs| + 1
  {
    if !Exposed(sub) then ExposedTools(sub, VisibleSubs(sub))
    else if HasRunnableSub(sub) then [Tool([], true)]
    else if Runnable(sub) then [Tool([], false)]
    else []
  }

  function BuildTools(root: Command): seq<Tool> {
    if AnyCommand(root, Exposed) then ExposedTools(root, VisibleSubs(root))
    else LegacyTools(root, VisibleSubs(root))
  }

  lemma UnderAppend(p: Place, a: seq<Tool>, b: seq<Tool>)
    ensures Under(p, a + b) == Under(p, a) + Under(p, b)
  {
  }

  lemma UnderUnder(p: Place, v: nat, tools: seq<Tool>)
    ensures Under(p, Under([v], tools)) == Under(p + [v], tools)
  {
    forall i | 0 <= i < |tools|
      ensures Under(p, Under([v], tools))[i] == Under(p + [v], tools)[i]
    {
      assert p + ([v] + tools[i].place) == (p + [v]) + tools[i].place;
    }
  }

  /** One more child's tools, appended to those before. */
  lemma AppendChild(before: seq<Tool>, p: Place, done: seq<Tool>, v: nat, tools: seq<Tool>)
    ensures before + Under(p, done + Under([v], tools)) == (before + Under(p, done)) + Under(p + [v], tools)
  {
    UnderAppend(p, done, Under([v], tools));
    UnderUnder(p, v, tools);
  }

  lemma Reassociate(a: seq<Tool>, b: seq<Tool>, c: seq<Tool>)
    ensures (a + b) + c == a + (b + c)
    ensures b == [] ==> a + b == a
  {
  }

  /** walk in buildLegacyTools, appending to the tools so far. */
  method WalkLegacy(c: Command, place: Place, before: seq<Tool>) returns (tools: seq<Tool>)
    ensures tools == before + Under(place, LegacyTools(c, VisibleSubs(c)))
    decreases c
  {
    tools := before;
    var subs := KeepVisible(c);
    for j := 0 to |subs|
      invariant tools == before + Under(place, LegacyTools(c, subs[..j]))
    {
      assert subs[..j + 1][..j] == subs[..j];
      var sub, at := c.subs[subs[j]], place + [subs[j]];
      AppendChild(before, place, LegacyTools(c, subs[..j]), subs[j], LegacyFrom(sub));
      UnderAppend(at, OwnTool(sub), LegacyTools(sub, VisibleSubs(sub)));
      Reassociate(tools, Under(at, OwnTool(sub)), Under(at, LegacyTools(sub, VisibleSubs(sub))));
      if Runnable(sub) {
        assert Under(at, OwnTool(sub)) == [Tool(at, false)] by {
          assert at + [] == at;
        }
        tools := tools + [Tool(at, false)];
      }
      tools := WalkLegacy(sub, at, tools);
    }
    assert subs[..|subs|] == subs;
  }

  lemma BoundaryTool(at: Place, sub: Command)
    requires Exposed(sub)
    ensures Under(at, ExposedFrom(sub)) ==
      if HasRunnableSub(sub) then [Tool(at, true)] else if Runnable(sub) then [Tool(at, false)] else []
  {
    assert at + [] == at;
  }

  /** walk in buildExposedTools. */
  method WalkExposed(c: Command, place: Place, before: seq<Tool>) returns (tools: seq<Tool>)
    ensures tools == before + Under(place, ExposedTools(c, VisibleSubs(c)))
    decreases c
  {
    tools := before;
    var subs := KeepVisible(c);
    for j := 0 to |subs|
      invariant tools == before + Under(place, ExposedTools(c, subs[..j]))
    {
      assert subs[..j + 1][..j] == subs[..j];
      var sub, at := c.subs[subs[j]], place + [subs[j]];
      AppendChild(before, place, ExposedTools(c, subs[..j]), subs[j], ExposedFrom(sub));
      if Exposed(sub) {
        BoundaryTool(at, sub);
        var hasRunnable := SearchCommand(sub, Runnable);
        if hasRunnable {
          tools := tools + [Tool(at, true)];
        } else if Runnable(sub) {
          tools := tools + [Tool(at, false)];
        }
        continue;
      }
      tools := WalkExposed(sub, at, tools);
    }
    assert subs[..|subs|] == subs;
  }

  lemma UnderNothing(tools: seq<Tool>)
    ensures Under([], tools) == tools
  {
    assert forall i :: 0 <= i < |tools| ==> [] + tools[i].place == tools[i].place;
  }

  method Build(root: Command) returns (tools: seq<Tool>)
    ensures tools == BuildTools(root)
  {
    var anyExposed := SearchCommand(root, Exposed);
    UnderNothing(BuildTools(root));
    if anyExposed {
      tools := WalkExposed(root, [], []);
    } else {
      tools := WalkLegacy(root, [], []);
    }
  }

  // Which ones those are.

  lemma UnderMember(v: nat, tools: seq<Tool>, t: Tool)
    ensures t in Under([v], tools) <==> t.place != [] && t.place[0] == v && Tool(t.place[1..], t.group) in tools
  {
    if t in Under([v], tools) {
      var i :| 0 <= i < |tools| && Under([v], tools)[i] == t;
      assert t.place[1..] == tools[i].place;
    }
    if t.place != [] && t.place[0] == v && Tool(t.place[1..], t.group) in tools {
      var i :| 0 <= i < |tools| && tools[i] == Tool(t.place[1..], t.group);
      assert [v] + t.place[1..] == t.place;
      assert Under([v], tools)[i] == t;
    }
  }

  ghost predicate LegacyAt(c: Command, p: Place) {
    Visible(c, p) && IsPlace(c, p) && Runnable(At(c, p))
  }

  lemma LegacyStep(c: Command, p: Place)
    requires p != [] && p[0] < |c.subs| && !Excluded(c.subs[p[0]])
    ensures LegacyAt(c, p) <==> if p[1..] == [] then Runnable(c.subs[p[0]]) else LegacyAt(c.subs[p[0]], p[1..])
  {
    if p[1..] == [] {
      assert IsPlace(c.subs[p[0]], p[1..]) && At(c.subs[p[0]], p[1..]) == c.subs[p[0]];
    }
  }

  lemma {:induction false} LegacyMembers(c: Command, subs: seq<nat>, t: Tool)
    requires forall i :: 0 <= i < |subs| ==> subs[i] < |c.subs| && !Excluded(c.subs[subs[i]])
    ensures t in LegacyTools(c, subs) <==> !t.group && t.place != [] && t.place[0] in subs && LegacyAt(c, t.place)
    decreases c, |subs|
  {
    if subs != [] {
      var v := subs[|subs| - 1];
      LegacyMembers(c, subs[..|subs| - 1], t);
      UnderMember(v, LegacyFrom(c.subs[v]), t);
      assert subs == subs[..|subs| - 1] + [v];
      if t.place != [] && t.place[0] == v {
        LegacyFromMembers(c.subs[v], Tool(t.place[1..], t.group));
        LegacyStep(c, t.place);
      }
    }
  }

  lemma LegacyFromMembers(sub: Command, t: Tool)
    ensures t in LegacyFrom(sub) <==> !t.group && if t.place == [] then Runnable(sub) else LegacyAt(sub, t.place)
    decreases sub, |sub.subs| + 1
  {
    LegacyMembers(sub, VisibleSubs(sub), t);
    if t.place != [] && LegacyAt(sub, t.place) {
      assert t.place[0] in VisibleSubs(sub);
    }
  }

  /** The first exposed command on its way, visible and runnable or with a runnable visible
      command below it. */
  ghost predicate ExposedAt(c: Command, p: Place, group: bool) {
    && Visible(c, p) && IsPlace(c, p) && Exposed(At(c, p)) && NoneExposedBefore(c, p)
    && if group then HasRunnableSub(At(c, p)) else !HasRunnableSub(At(c, p)) && Runnable(At(c, p))
  }

  /** No command on the way to p, c and p themselves apart, is exposed. */
  ghost predicate NoneExposedBefore(c: Command, p: Place)
    requires IsPlace(c, p)
  {
    |p| > 1 ==> !Exposed(c.subs[p[0]]) && NoneExposedBefore(c.subs[p[0]], p[1..])
  }

  lemma ExposedStep(c: Command, p: Place, group: bool)
    requires p != [] && p[0] < |c.subs| && !Excluded(c.subs[p[0]])
    ensures ExposedAt(c, p, group) <==>
      if p[1..] == [] then ExposedHere(c.subs[p[0]], group) else !Exposed(c.subs[p[0]]) && ExposedAt(c.subs[p[0]], p[1..], group)
  {
    if p[1..] == [] {
      assert IsPlace(c.subs[p[0]], p[1..]) && At(c.subs[p[0]], p[1..]) == c.subs[p[0]];
    }
  }

  lemma {:induction false} ExposedMembers(c: Command, subs: seq<nat>, t: Tool)
    requires forall i :: 0 <= i < |subs| ==> subs[i] < |c.subs| && !Excluded(c.subs[subs[i]])
    ensures t in ExposedTools(c, subs) <==> t.place != [] && t.place[0] in subs && ExposedAt(c, t.place, t.group)
    decreases c, |subs|
  {
    if subs != [] {
      var v := subs[|subs| - 1];
      ExposedMembers(c, subs[..|subs| - 1], t);
      UnderMember(v, ExposedFrom(c.subs[v]), t);
      assert subs == subs[..|subs| - 1] + [v];
      if t.place != [] && t.place[0] == v {
        ExposedFromMembers(c.subs[v], Tool(t.place[1..], t.group));
        ExposedStep(c, t.place, t.group);
      }
    }
  }

  ghost predicate ExposedHere(sub: Command, group: bool) {
    Exposed(sub) && if group then HasRunnableSub(sub) else !HasRunnableSub(sub) && Runnable(sub)
  }

  lemma ExposedFromMembers(sub: Command, t: Tool)
    ensures t in ExposedFrom(sub) <==>
      if t.place == [] then ExposedHere(sub, t.group) else !Exposed(sub) && ExposedAt(sub, t.place, t.group)
    decreases sub, |sub.subs| + 1
  {
    ExposedMembers(sub, VisibleSubs(sub), t);
    if t.place != [] && ExposedAt(sub, t.place, t.group) {
      assert t.place[0] in VisibleSubs(sub);
    }
  }

  // Each once, and in exposed mode none below another.

  ghost predicate DistinctPlaces(tools: seq<Tool>) {
    forall i, j :: 0 <= i < j < |tools| ==> tools[i].place != tools[j].place
  }

  /** Depth first, siblings in order. */
  ghost predicate InOrder(tools: seq<Tool>) {
    forall i, j :: 0 <= i < j < |tools| ==> Before(tools[i].place, tools[j].place)
  }

  lemma OrderedDistinct(tools: seq<Tool>)
    requires InOrder(tools)
    ensures DistinctPlaces(tools)
  {
    forall i, j | 0 <= i < j < |tools|
      ensures tools[i].place != tools[j].place
    {
      BeforeIrreflexive(tools[i].place);
    }
  }

  lemma OrderUnder(v: nat, tools: seq<Tool>)
    requires InOrder(tools)
    ensures InOrder(Under([v], tools))
  {
    forall i, j | 0 <= i < j < |tools|
      ensures Before(Under([v], tools)[i].place, Under([v], tools)[j].place)
    {
      BeforeBelow(v, tools[i].place, tools[j].place);
    }
  }

  /** Every tool of the list starts with one of the children. */
  ghost predicate StartIn(tools: seq<Tool>, subs: seq<nat>) {
    forall i :: 0 <= i < |tools| ==> tools[i].place != [] && tools[i].place[0] in subs
  }

  /** A child's tools go after those of the children before it. */
  lemma OrderTogether(a: seq<Tool>, v: nat, b: seq<Tool>, subs: seq<nat>)
    requires InOrder(a) && InOrder(b) && StartIn(a, subs) && forall u :: u in subs ==> u < v
    ensures InOrder(a + Under([v], b)) && StartIn(a + Under([v], b), subs + [v])
  {
    OrderUnder(v, b);
    var all := a + Under([v], b);
    forall i | 0 <= i < |all|
      ensures all[i].place != [] && (if i < |a| then all[i].place[0] in subs else all[i].place[0] == v)
    {
    }
  }

  /** A command's own tool goes before those below it. */
  lemma OwnFirst(sub: Command, below: seq<Tool>, subs: seq<nat>)
    requires InOrder(below) && StartIn(below, subs)
    ensures InOrder(OwnTool(sub) + below)
  {
  }

  lemma {:induction false} LegacyInOrder(c: Command, subs: seq<nat>)
    requires forall i :: 0 <= i < |subs| ==> subs[i] < |c.subs| && !Excluded(c.subs[subs[i]])
    requires forall i, j :: 0 <= i < j < |subs| ==> subs[i] < subs[j]
    ensures InOrder(LegacyTools(c, subs)) && StartIn(LegacyTools(c, subs), subs)
    decreases c, |subs|
  {
    if subs != [] {
      var front, v := subs[..|subs| - 1], subs[|subs| - 1];
      var sub := c.subs[v];
      LegacyInOrder(c, front);
      LegacyInOrder(sub, VisibleSubs(sub));
      OwnFirst(sub, LegacyTools(sub, VisibleSubs(sub)), VisibleSubs(sub));
      OrderTogether(LegacyTools(c, front), v, LegacyFrom(sub), front);
      assert subs == front + [v];
    }
  }

  lemma {:induction false} ExposedInOrder(c: Command, subs: seq<nat>)
    requires forall i :: 0 <= i < |subs| ==> subs[i] < |c.subs| && !Excluded(c.subs[subs[i]])
    requires forall i, j :: 0 <= i < j < |subs| ==> subs[i] < subs[j]
    ensures InOrder(ExposedTools(c, subs)) && StartIn(ExposedTools(c, subs), subs)
    decreases c, |subs|
  {
    if subs != [] {
      var front, v := subs[..|subs| - 1], subs[|subs| - 1];
      var sub := c.subs[v];
      ExposedInOrder(c, front);
      ExposedInOrder(sub, VisibleSubs(sub));
      OrderTogether(ExposedTools(c, front), v, ExposedFrom(sub), front);
      assert subs == front + [v];
    }
  }

  /** An exposed command is no way to another first exposed one. */
  lemma {:induction false} NoneBefore(c: Command, p: Place, q: Place)
    requires IsPlace(c, p) && IsPlace(c, q) && NoneExposedBefore(c, q) && p < q && p != []
    ensures !Exposed(At(c, p))
    decreases p
  {
    if p[1..] == [] {
      assert At(c, p) == c.subs[p[0]] && q[0] == p[0];
    } else {
      assert p[1..] < q[1..] by {
        assert q[1..][..|p| - 1] == p[1..];
      }
      NoneBefore(c.subs[p[0]], p[1..], q[1..]);
    }
  }

  /** Surface exactness: with nothing exposed the tools are the runnable commands all of
      whose ancestors below the root are visible, as they are, each once; otherwise they are
      the first exposed commands on their paths that are runnable or have a runnable visible
      descendant, each once, and none of them lies below another. Either way they come depth
      first, siblings in order. */
  lemma SurfaceExactly(root: Command)
    ensures var tools := BuildTools(root);
      && InOrder(tools) && DistinctPlaces(tools)
      && (!AnyCommand(root, Exposed) ==> forall t :: t in tools <==> !t.group && LegacyAt(root, t.place))
      && (AnyCommand(root, Exposed) ==>
            && (forall t :: t in tools <==> ExposedAt(root, t.place, t.group))
            && (forall t, u :: t in tools && u in tools ==> !(t.place < u.place)))
  {
    var subs := VisibleSubs(root);
    if AnyCommand(root, Exposed) {
      ExposedInOrder(root, subs);
      OrderedDistinct(ExposedTools(root, subs));
      forall t
        ensures t in ExposedTools(root, subs) <==> ExposedAt(root, t.place, t.group)
      {
        ExposedMembers(root, subs, t);
        if ExposedAt(root, t.place, t.group) {
          assert t.place[0] in subs;
        }
      }
      forall t, u | t in ExposedTools(root, subs) && u in ExposedTools(root, subs)
        ensures !(t.place < u.place)
      {
        if t.place < u.place {
          NoneBefore(root, t.place, u.place);
        }
      }
    } else {
      LegacyInOrder(root, subs);
      OrderedDistinct(LegacyTools(root, subs));
      forall t
        ensures t in LegacyTools(root, subs) <==> !t.group && LegacyAt(root, t.place)
      {
        LegacyMembers(root, subs, t);
        if LegacyAt(root, t.place) {
          assert t.place[0] in subs;
        }
      }
    }
  }
}
