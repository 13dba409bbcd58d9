/** Calling a tool: which command runs, what help lists, and whether they agree. */
module Dispatch {
  import opened CommandTrees
  import opened Surfaces

  // Help.

  /** What the render walk lists of c's first n children, in order. */
  function HelpList(c: Command, n: nat): seq<Place>
    requires n <= |c.subs|
    decreases c, n
  {
    if n == 0 then []
    else
      HelpList(c, n - 1) + (if Excluded(c.subs[n - 1]) then [] else Below(n - 1, HelpFrom(c.subs[n - 1])))
  }

  function HelpFrom(sub: Command): seq<Place>
    decreases sub, |sub.subs| + 1
  {
    [[]] + (if HasRunnableSub(sub) then HelpList(sub, |sub.subs|) else [])
  }

  function Below(v: nat, places: seq<Place>): (r: seq<Place>)
    ensures |r| == |places| && forall i :: 0 <= i < |places| ==> r[i] == [v] + places[i]
  {
    seq(|places|, i requires 0 <= i < |places| => [v] + places[i])
  }

  function Help(c: Command): seq<Place> {
    HelpList(c, |c.subs|)
  }

  /** render, which writes one line per command it lists. */
  method Render(c: Command) returns (listed: seq<Place>)
    ensures listed == Help(c)
    decreases c
  {
    listed := [];
    for i := 0 to |c.subs|
      invariant listed == HelpList(c, i)
    {
      var sub := c.subs[i];
      if Excluded(sub) {
        continue;
      }
      var lines := [[]];
      var hasRunnable := SearchCommand(sub, Runnable);
      if hasRunnable {
        var below := Render(sub);
        lines := lines + below;
      }
      assert lines == HelpFrom(sub);
      listed := listed + Below(i, lines);
    }
  }

  // Dispatch.

  /** cobra's Find: into the first child named by the next argument, until none is. */
  function Find(c: Command, args: seq<string>): Place
    decreases |args|
  {
    if args == [] then []
    else
      var i := ChildNamed(c, args[0], 0);
      if i == |c.subs| then [] else [i] + Find(c.subs[i], args[1..])
  }

  function ChildNamed(c: Command, name: string, i: nat): (k: nat)
    requires i <= |c.subs|
    ensures i <= k <= |c.subs| && (k < |c.subs| ==> c.subs[k].name == name)
    ensures forall j :: i <= j < k ==> c.subs[j].name != name
    decreases |c.subs| - i
  {
    if i == |c.subs| || c.subs[i].name == name then i else ChildNamed(c, name, i + 1)
  }

  lemma {:induction false} FindIsPlace(c: Command, args: seq<string>)
    ensures IsPlace(c, Find(c, args)) && |Find(c, args)| <= |args|
    ensures forall k :: 0 < k <= |Find(c, args)| ==> IsPlace(c, Find(c, args)[..k]) && At(c, Find(c, args)[..k]).name == args[k - 1]
    decreases |args|
  {
    if args != [] {
      var i := ChildNamed(c, args[0], 0);
      if i < |c.subs| {
        var p, q := Find(c, args), Find(c.subs[i], args[1..]);
        FindIsPlace(c.subs[i], args[1..]);
        assert p[1..] == q;
        forall k | 0 < k <= |p|
          ensures IsPlace(c, p[..k]) && At(c, p[..k]).name == args[k - 1]
        {
          assert p[..k][1..] == q[..k - 1];
          if k > 1 {
            assert args[1..][k - 2] == args[k - 1];
          }
        }
      }
    }
  }

  /** What a call does: help text, or running the command at a place below the tool's, with
      --yes injected or not. */
  datatype Outcome = ShowHelp | Run(place: Place, confirm: bool)

  function Call(c: Command, group: bool, args: seq<string>): Outcome {
    if !group then Run([], Confirms(c))
    else if args == [] || args[0] == "help" then ShowHelp
    else
      FindIsPlace(c, args);
      var found := Find(c, args);
      if found == [] || Excluded(At(c, found)) || !Runnable(At(c, found)) then ShowHelp
      else Run(found, Confirms(At(c, found)))
  }

  /** The hint a tool carries. */
  function DestructiveHint(c: Command, group: bool): bool {
    if group then AnyCommand(c, Destructive) else Destructive(c)
  }

  // Agreement.

  lemma BelowMember(v: nat, places: seq<Place>, p: Place)
    ensures p in Below(v, places) <==> p != [] && p[0] == v && p[1..] in places
  {
    if p in Below(v, places) {
      var i :| 0 <= i < |places| && Below(v, places)[i] == p;
      assert p[1..] == places[i];
    }
    if p != [] && p[0] == v && p[1..] in places {
      var i :| 0 <= i < |places| && places[i] == p[1..];
      assert [v] + p[1..] == p && Below(v, places)[i] == p;
    }
  }

  /** Every command on the way to p, p itself apart, has a runnable visible command below. */
  ghost predicate OpenTo(c: Command, p: Place)
    requires IsPlace(c, p)
  {
    |p| > 1 ==> HasRunnableSub(c.subs[p[0]]) && OpenTo(c.subs[p[0]], p[1..])
  }

  ghost predicate Listed(c: Command, p: Place) {
    Visible(c, p) && IsPlace(c, p) && OpenTo(c, p)
  }

  lemma ListedStep(c: Command, p: Place)
    requires p != [] && p[0] < |c.subs|
    ensures Listed(c, p) <==>
      !Excluded(c.subs[p[0]]) && (p[1..] == [] || (HasRunnableSub(c.subs[p[0]]) && Listed(c.subs[p[0]], p[1..])))
  {
    if p[1..] == [] {
      assert IsPlace(c.subs[p[0]], p[1..]);
    } else {
      assert |p| > 1;
    }
  }

  lemma {:induction false} HelpMembers(c: Command, n: nat, p: Place)
    requires n <= |c.subs|
    ensures p in HelpList(c, n) <==> p != [] && p[0] < n && Listed(c, p)
    decreases c, n
  {
    if n > 0 {
      var sub := c.subs[n - 1];
      HelpMembers(c, n - 1, p);
      BelowMember(n - 1, HelpFrom(sub), p);
      if p != [] && p[0] == n - 1 {
        HelpFromMembers(sub, p[1..]);
        ListedStep(c, p);
      }
    }
  }

  lemma HelpFromMembers(sub: Command, p: Place)
    ensures p in HelpFrom(sub) <==> p == [] || (HasRunnableSub(sub) && Listed(sub, p))
    decreases sub, |sub.subs| + 1
  {
    HelpMembers(sub, |sub.subs|, p);
  }

  ghost predicate PlacesInOrder(places: seq<Place>) {
    forall i, j :: 0 <= i < j < |places| ==> Before(places[i], places[j])
  }

  lemma LinesTogether(a: seq<Place>, v: nat, b: seq<Place>)
    requires PlacesInOrder(a) && PlacesInOrder(b) && forall i :: 0 <= i < |a| ==> a[i] != [] && a[i][0] < v
    ensures PlacesInOrder(a + Below(v, b))
  {
    forall i, j | 0 <= i < j < |b|
      ensures Before(Below(v, b)[i], Below(v, b)[j])
    {
      BeforeBelow(v, b[i], b[j]);
    }
  }

  lemma OwnLineFirst(sub: Command)
    requires PlacesInOrder(Help(sub)) && forall i :: 0 <= i < |Help(sub)| ==> Help(sub)[i] != []
    ensures PlacesInOrder(HelpFrom(sub))
  {
  }

  /** Help lists depth first, siblings in order. */
  lemma {:induction false} HelpInOrder(c: Command, n: nat)
    requires n <= |c.subs|
    ensures PlacesInOrder(HelpList(c, n))
    ensures forall i :: 0 <= i < |HelpList(c, n)| ==> HelpList(c, n)[i] != [] && HelpList(c, n)[i][0] < n
    decreases c, n
  {
    if n > 0 {
      var sub := c.subs[n - 1];
      HelpInOrder(c, n - 1);
      HelpInOrder(sub, |sub.subs|);
      OwnLineFirst(sub);
      LinesTogether(HelpList(c, n - 1), n - 1, HelpFrom(sub));
    }
  }

  /** The pruning hides no runnable command: everything above one has one below. */
  lemma {:induction false} RunnableOpens(c: Command, p: Place)
    requires Visible(c, p) && IsPlace(c, p) && Runnable(At(c, p))
    ensures OpenTo(c, p)
  {
    if |p| > 1 {
      AnyCommandFound(c.subs[p[0]], Runnable, p[1..]);
      RunnableOpens(c.subs[p[0]], p[1..]);
    }
  }

  /** Walk agreement: a group call that runs something runs a runnable, non-excluded command
      strictly below the group, named by the arguments; if no excluded command lies between,
      help lists it, the group is one with a runnable command, and an injected --yes means
      the tool carries the destructive hint. */
  lemma GroupCallAgrees(c: Command, args: seq<string>)
    requires Call(c, true, args).Run?
    ensures var p := Call(c, true, args).place;
      && p != [] && IsPlace(c, p) && Runnable(At(c, p)) && !Excluded(At(c, p))
      && (forall k :: 0 < k <= |p| ==> IsPlace(c, p[..k]) && k <= |args| && At(c, p[..k]).name == args[k - 1])
      && (Call(c, true, args).confirm <==> Confirms(At(c, p)))
      && (Visible(c, p) ==>
            && p in Help(c) && HasRunnableSub(c)
            && (Call(c, true, args).confirm ==> DestructiveHint(c, true)))
  {
    FindIsPlace(c, args);
    var p := Find(c, args);
    if Visible(c, p) {
      RunnableOpens(c, p);
      HelpMembers(c, |c.subs|, p);
      AnyCommandFound(c, Runnable, p);
      if Confirms(At(c, p)) {
        AnyCommandFound(c, Destructive, p);
      }
    }
  }

  lemma ToolIsVisible(root: Command, t: Tool)
    requires t in BuildTools(root)
    ensures t.place != [] && IsPlace(root, t.place) && Visible(root, t.place)
    ensures !t.group ==> Runnable(At(root, t.place))
  {
    SurfaceExactly(root);
  }

  /** What a call of tool t that runs something keeps to. */
  ghost predicate Agrees(root: Command, t: Tool, run: Outcome)
    requires IsPlace(root, t.place) && run.Run?
  {
    var c, p := At(root, t.place), t.place + run.place;
    && IsPlace(root, p) && IsPlace(c, run.place) && Runnable(At(root, p)) && !Excluded(At(root, p))
    && (run.confirm <==> Confirms(At(root, p)))
    && (!t.group ==> run.place == [])
    && (Visible(root, p) ==> (t.group ==> run.place in Help(c)) && (run.confirm ==> DestructiveHint(c, t.group)))
    && (!t.group ==> Visible(root, p))
  }

  /** Surface and dispatch agree, in both modes: whatever a call of a tool runs is a runnable,
      non-excluded command at or below a visible one; unless an excluded command lies between
      an injected --yes means the tool carries the destructive hint, and a group's help lists
      the command; a leaf never answers with help and never runs anything else. */
  lemma ToolCallAgrees(root: Command, t: Tool, args: seq<string>)
    requires t in BuildTools(root)
    ensures IsPlace(root, t.place)
    ensures Call(At(root, t.place), t.group, args).ShowHelp? ==> t.group
    ensures Call(At(root, t.place), t.group, args).Run? ==> Agrees(root, t, Call(At(root, t.place), t.group, args))
  {
    ToolIsVisible(root, t);
    VisibleIsPlace(root, t.place);
    var c := At(root, t.place);
    if Call(c, t.group, args).Run? {
      var q := Call(c, t.group, args).place;
      if t.group {
        GroupCallAgrees(c, args);
        VisibleAppend(root, t.place, q);
      }
      AtAppend(root, t.place, q);
      assert q == [] ==> t.place + q == t.place;
    }
  }

  // Reaching a command by its path.

  /** The names of the commands on the way to p. */
  function NamesTo(c: Command, p: Place): (names: seq<string>)
    requires IsPlace(c, p)
    ensures |names| == |p|
    decreases p
  {
    if p == [] then [] else [c.subs[p[0]].name] + NamesTo(c.subs[p[0]], p[1..])
  }

  /** No command on the way to p shares its name with an earlier sibling. */
  predicate FirstOfItsName(c: Command, p: Place)
    requires IsPlace(c, p)
    decreases p
  {
    p != [] ==>
      && (forall i | 0 <= i < p[0] :: c.subs[i].name != c.subs[p[0]].name)
      && FirstOfItsName(c.subs[p[0]], p[1..])
  }

  lemma ChildNamedFirst(c: Command, i: nat)
    requires i < |c.subs|
    ensures ChildNamed(c, c.subs[i].name, 0) <= i
    ensures ChildNamed(c, c.subs[i].name, 0) == i <==> forall j :: 0 <= j < i ==> c.subs[j].name != c.subs[i].name
  {
  }

  /** Find gets to p by p's names, and goes on from there, if each command on the way is the
      first of its name. */
  lemma {:induction false} FindByNames(c: Command, p: Place, rest: seq<string>)
    requires IsPlace(c, p) && FirstOfItsName(c, p)
    ensures Find(c, NamesTo(c, p) + rest) == p + Find(At(c, p), rest)
    decreases p
  {
    if p == [] {
      assert NamesTo(c, p) + rest == rest && p + Find(At(c, p), rest) == Find(At(c, p), rest);
    } else {
      var args, sub := NamesTo(c, p) + rest, c.subs[p[0]];
      assert args[0] == sub.name && args[1..] == NamesTo(sub, p[1..]) + rest;
      FindByNames(sub, p[1..], rest);
      ChildNamedFirst(c, p[0]);
      assert Find(c, args) == [p[0]] + Find(sub, args[1..]);
      assert [p[0]] + (p[1..] + Find(At(c, p), rest)) == p + Find(At(c, p), rest);
    }
  }

  /** And only then. */
  lemma {:induction false} FindMisses(c: Command, p: Place, rest: seq<string>)
    requires IsPlace(c, p) && !FirstOfItsName(c, p)
    ensures !(p <= Find(c, NamesTo(c, p) + rest))
    decreases p
  {
    var args, sub := NamesTo(c, p) + rest, c.subs[p[0]];
    assert args[0] == sub.name && args[1..] == NamesTo(sub, p[1..]) + rest;
    ChildNamedFirst(c, p[0]);
    var i := ChildNamed(c, sub.name, 0);
    assert Find(c, args) == [i] + Find(c.subs[i], args[1..]);
    if i == p[0] {
      FindMisses(sub, p[1..], rest);
      TailOfPrefix(p, Find(c, args));
    }
  }

  lemma TailOfPrefix(p: Place, q: Place)
    requires p != []
    ensures p <= q ==> q != [] && p[1..] <= q[1..]
  {
  }

  lemma {:induction false} FoundIsFirst(c: Command, args: seq<string>)
    ensures IsPlace(c, Find(c, args)) && FirstOfItsName(c, Find(c, args))
    decreases |args|
  {
    if args != [] {
      var i := ChildNamed(c, args[0], 0);
      if i < |c.subs| {
        FoundIsFirst(c.subs[i], args[1..]);
        assert Find(c, args)[1..] == Find(c.subs[i], args[1..]);
      }
    }
  }

  /** args start with the names of the commands on the way to p, each the first of its name. */
  ghost predicate NamedBy(c: Command, p: Place, args: seq<string>) {
    IsPlace(c, p) && FirstOfItsName(c, p) && NamesTo(c, p) <= args
  }

  lemma {:induction false} FoundIsNamed(c: Command, args: seq<string>)
    ensures NamedBy(c, Find(c, args), args)
    decreases |args|
  {
    FindIsPlace(c, args);
    FoundIsFirst(c, args);
    if args != [] {
      var i := ChildNamed(c, args[0], 0);
      if i < |c.subs| {
        FoundIsNamed(c.subs[i], args[1..]);
        assert Find(c, args)[1..] == Find(c.subs[i], args[1..]);
        assert args == [args[0]] + args[1..];
      }
    }
  }

  /** p is as far as args lead below c. */
  ghost predicate Target(c: Command, args: seq<string>, p: Place) {
    NamedBy(c, p, args) && forall q :: NamedBy(c, q, args) ==> q <= p
  }

  /** Descending by name goes as far as there are names, first children of a name only. */
  lemma FindIsTarget(c: Command, args: seq<string>)
    ensures Target(c, args, Find(c, args))
  {
    FoundIsNamed(c, args);
    forall q | NamedBy(c, q, args)
      ensures q <= Find(c, args)
    {
      assert args == NamesTo(c, q) + args[|NamesTo(c, q)|..];
      FindByNames(c, q, args[|NamesTo(c, q)|..]);
    }
  }

  /** What a call does, completely: a leaf runs; a group runs the command its arguments lead
      to, and shows help instead if they are none or start with help, lead nowhere, or lead to
      a command that is left out of the surface or cannot be run. The command that runs is
      given --yes exactly if it has that flag. */
  lemma CallExactly(c: Command, args: seq<string>, p: Place)
    requires Target(c, args, p)
    ensures Call(c, false, args) == Run([], c.yes)
    ensures Call(c, true, args) ==
      if args == [] || args[0] == "help" || p == [] || Excluded(At(c, p)) || !At(c, p).runnable then ShowHelp
      else Run(p, At(c, p).yes)
  {
    FindIsTarget(c, args);
    var found := Find(c, args);
    assert found <= p && p <= found;
    assert found == found[..|p|] == p;
  }

  /** Every runnable command help lists can be run by its path, if that is first of its name
      throughout; and the path then runs exactly that command. */
  lemma ListedRuns(c: Command, p: Place)
    requires p in Help(c) && IsPlace(c, p) && Runnable(At(c, p)) && FirstOfItsName(c, p)
    ensures Call(c, true, NamesTo(c, p)) == Run(p, Confirms(At(c, p)))
  {
    HelpMembers(c, |c.subs|, p);
    VisibleIsPlace(c, p);
    FindByNames(c, p, []);
    assert NamesTo(c, p) + [] == NamesTo(c, p) && p + [] == p;
    assert Find(At(c, p), []) == [];
    assert NamesTo(c, p)[0] == c.subs[p[0]].name && !Excluded(c.subs[p[0]]);
  }

  /** The child process resolves the same command: from the root, the tool's path followed by
      the arguments leads where the arguments led from the tool; so it runs what was meant
      for a group, and for a leaf exactly when the arguments name none of its subcommands. */
  lemma ChildResolvesSame(root: Command, tool: Place, group: bool, args: seq<string>)
    requires IsPlace(root, tool) && FirstOfItsName(root, tool) && Call(At(root, tool), group, args).Run?
    ensures var child := Find(root, NamesTo(root, tool) + args);
      && IsPlace(root, child)
      && (group ==> child == tool + Call(At(root, tool), group, args).place)
      && (!group ==> (child == tool <==> Find(At(root, tool), args) == []))
  {
    FindByNames(root, tool, args);
    FindIsPlace(root, NamesTo(root, tool) + args);
    if !group && tool + Find(At(root, tool), args) == tool {
      assert |Find(At(root, tool), args)| == 0;
    }
  }

  // The gap.

  /** Some command that runs with --yes sits below c, whatever excluded commands lie between,
      and is reached by its path. */
  ghost predicate Confirmable(c: Command, p: Place) {
    && p != [] && IsPlace(c, p) && FirstOfItsName(c, p) && c.subs[p[0]].name != "help"
    && Runnable(At(c, p)) && Confirms(At(c, p)) && !Excluded(At(c, p))
  }

  /** The hint itself: a leaf carries it exactly if it can be confirmed or is marked
      destructive, a group exactly if some command at a visible place below it is. */
  lemma HintExactly(c: Command)
    ensures DestructiveHint(c, false) <==> c.yes || Annotated(c, "mcp.destructive", "true")
    ensures DestructiveHint(c, true) <==>
      exists p :: Visible(c, p) && IsPlace(c, p) && (At(c, p).yes || Annotated(At(c, p), "mcp.destructive", "true"))
  {
    FieldsDecide(c);
    if DestructiveHint(c, true) {
      var p := AnyCommandFinds(c, Destructive);
      FieldsDecide(At(c, p));
    }
    if p :| Visible(c, p) && IsPlace(c, p) && (At(c, p).yes || Annotated(At(c, p), "mcp.destructive", "true")) {
      FieldsDecide(At(c, p));
      AnyCommandFound(c, Destructive, p);
    }
  }

  /** The hint announces every --yes a group call can inject exactly when it is set or there
      is nothing to inject it into. */
  lemma HintCoversConfirm(c: Command)
    ensures (forall args :: Call(c, true, args).Run? && Call(c, true, args).confirm ==> DestructiveHint(c, true)) <==>
            DestructiveHint(c, true) || forall p :: !Confirmable(c, p)
  {
    if !DestructiveHint(c, true) {
      if p :| Confirmable(c, p) {
        FindByNames(c, p, []);
        assert NamesTo(c, p) + [] == NamesTo(c, p) && p + [] == p && Find(At(c, p), []) == [];
        assert NamesTo(c, p)[0] == c.subs[p[0]].name;
        assert Call(c, true, NamesTo(c, p)) == Run(p, true);
      }
      if args :| Call(c, true, args).Run? && Call(c, true, args).confirm {
        FindIsPlace(c, args);
        FoundIsFirst(c, args);
        assert Find(c, args)[..1] == [Find(c, args)[0]];
        assert Confirmable(c, Find(c, args));
      }
    }
  }

  /** What the hint misses lies behind an excluded command. */
  lemma UnhintedIsHidden(c: Command, p: Place)
    requires !DestructiveHint(c, true) && Confirmable(c, p)
    ensures !Visible(c, p)
  {
    if Visible(c, p) {
      AnyCommandFound(c, Destructive, p);
    }
  }

  /** A group whose hidden subgroup holds a confirming command. */
  const LIST := Command("list", false, true, map[], false, [])
  const PURGE := Command("purge", false, true, map[], true, [])
  const ADMIN := Command("admin", true, false, map[], false, [PURGE])
  const ITEMS := Command("items", false, false, map[EXPOSE := "true"], false, [LIST, ADMIN])

  lemma PurgeFound()
    ensures Find(ITEMS, ["admin", "purge"]) == [1, 0] && IsPlace(ITEMS, [1, 0]) && At(ITEMS, [1, 0]) == PURGE
  {
    assert ChildNamed(ITEMS, "admin", 0) == 1;
    assert ["admin", "purge"][1..] == ["purge"] && ["purge"][1..] == [];
    assert ChildNamed(ADMIN, "purge", 0) == 0;
    assert Find(ADMIN, ["purge"]) == [0];
    assert [1, 0][1..] == [0] && [0][1..] == [];
    assert IsPlace(ADMIN, [0]) && At(ADMIN, [0]) == PURGE;
  }

  /** The hidden command runs with --yes, without a hint and without a line of help. */
  lemma HiddenConfirm()
    ensures HasRunnableSub(ITEMS) && !DestructiveHint(ITEMS, true)
    ensures Call(ITEMS, true, ["admin", "purge"]) == Run([1, 0], true) && [1, 0] !in Help(ITEMS)
  {
    assert ITEMS.subs[0] == LIST && [0][1..] == [] && IsPlace(LIST, []) && At(LIST, []) == LIST;
    assert Visible(ITEMS, [0]) && IsPlace(ITEMS, [0]) && At(ITEMS, [0]) == LIST;
    AnyCommandFound(ITEMS, Runnable, [0]);
    assert !AnyCommand(LIST, Destructive);
    PurgeFound();
    HelpMembers(ITEMS, 2, [1, 0]);
  }
}
