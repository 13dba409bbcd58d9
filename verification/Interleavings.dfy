/** jsonMapStore.mutate under arbitrary thread interleavings: lock, load, modify,
    save and unlock are separate steps, and a load or a save may fail. */
module Interleavings {
  import opened Wrappers
  import opened SecretStores
  import opened MapStores

  /** One thread per entry: the closure it passes to mutate, and the mutex it locks. */
  datatype Setup<!V, !R> = Setup(codec: Codec<V>, fns: seq<map<string, V> -> Mutation<V, R>>, locks: seq<nat>)

  datatype Phase<V, R> =
    | Waiting
    | Holding
    | Loaded(m: map<string, V>)
    | Modified(m: map<string, V>, result: R)
    | Releasing(outcome: Result<R>)
    | Done(outcome: Result<R>)

  /** The shared document, who holds each mutex, where each thread is, and the
      threads whose mutation took effect, in the order it did. */
  datatype Memory<V, R> = Memory(doc: Option<string>, owner: map<nat, nat>, phases: seq<Phase<V, R>>, log: seq<nat>)

  /** Thread t runs next; `fails` says whether the store operation it makes fails. */
  datatype Turn = Turn(t: nat, fails: bool)

  predicate WellFormed<V, R>(s: Setup<V, R>) {
    |s.fns| == |s.locks|
  }

  function Start<V, R>(s: Setup<V, R>, doc: Option<string>): Memory<V, R> {
    Memory(doc, map[], seq(|s.fns|, _ => Waiting), [])
  }

  function Step<V, R>(s: Setup<V, R>, w: Memory<V, R>, turn: Turn): (w': Memory<V, R>)
    requires WellFormed(s) && |w.phases| == |s.fns|
    ensures |w'.phases| == |s.fns|
  {
    var t := turn.t;
    if t >= |s.fns| then w
    else
      match w.phases[t]
      case Waiting =>
        if s.locks[t] in w.owner then w
        else w.(owner := w.owner[s.locks[t] := t], phases := w.phases[t := Holding])
      case Holding =>
        var m := if turn.fails then Failed else Decode(s.codec, w.doc);
        w.(phases := w.phases[t := if m.Failed? then Releasing(Failed) else Loaded(m.value)])
      case Loaded(m) =>
        var out := s.fns[t](m);
        if out.changed then w.(phases := w.phases[t := Modified(out.m, out.result)])
        else w.(phases := w.phases[t := Releasing(Ok(out.result))], log := w.log + [t])
      case Modified(m, result) =>
        if turn.fails then w.(phases := w.phases[t := Releasing(Failed)])
        else w.(doc := Some(s.codec.encode(m)), phases := w.phases[t := Releasing(Ok(result))], log := w.log + [t])
      case Releasing(outcome) =>
        w.(owner := w.owner - {s.locks[t]}, phases := w.phases[t := Done(outcome)])
      case Done(_) => w
  }

  function Run<V, R>(s: Setup<V, R>, w: Memory<V, R>, schedule: seq<Turn>): (w': Memory<V, R>)
    requires WellFormed(s) && |w.phases| == |s.fns|
    ensures |w'.phases| == |s.fns|
    decreases |schedule|
  {
    if schedule == [] then w
    else Step(s, Run(s, w, schedule[..|schedule| - 1]), schedule[|schedule| - 1])
  }

  function Turns(t: nat, readFails: bool, writeFails: bool): seq<Turn> {
    [Turn(t, false), Turn(t, readFails), Turn(t, false), Turn(t, writeFails), Turn(t, false)]
  }

  lemma RunTurns<V, R>(s: Setup<V, R>, w: Memory<V, R>, t: nat, readFails: bool, writeFails: bool)
    requires WellFormed(s) && |w.phases| == |s.fns|
    ensures var w2 := Step(s, Step(s, w, Turn(t, false)), Turn(t, readFails));
      Run(s, w, Turns(t, readFails, writeFails)) ==
        Step(s, Step(s, Step(s, w2, Turn(t, false)), Turn(t, writeFails)), Turn(t, false))
  {
    var a, b, c, e := Turn(t, false), Turn(t, readFails), Turn(t, false), Turn(t, writeFails);
    assert Turns(t, readFails, writeFails)[..4] == [a, b, c, e];
    assert [a, b, c, e][..3] == [a, b, c] && [a, b, c][..2] == [a, b] && [a, b][..1] == [a] && [a][..0] == [];
    assert Run(s, w, []) == w;
    assert Run(s, w, [a]) == Step(s, w, a);
    assert Run(s, w, [a, b]) == Step(s, Run(s, w, [a]), b);
    assert Run(s, w, [a, b, c]) == Step(s, Run(s, w, [a, b]), c);
    assert Run(s, w, [a, b, c, e]) == Step(s, Run(s, w, [a, b, c]), e);
  }

  /** The document as a store of its own. */
  function Stored(doc: Option<string>, key: string): map<string, string> {
    if doc.Some? then map[key := doc.value] else map[]
  }

  lemma AloneLoads<V, R>(s: Setup<V, R>, w: Memory<V, R>, t: nat, readFails: bool)
    requires WellFormed(s) && |w.phases| == |s.fns|
    requires t < |s.fns| && w.phases[t].Waiting? && s.locks[t] !in w.owner
    ensures var m := if readFails then Failed else Decode(s.codec, w.doc);
      Step(s, Step(s, w, Turn(t, false)), Turn(t, readFails)) ==
        w.(owner := w.owner[s.locks[t] := t], phases := w.phases[t := if m.Failed? then Releasing(Failed) else Loaded(m.value)])
  {
  }

  lemma AloneReleases<V, R>(s: Setup<V, R>, w: Memory<V, R>, t: nat, outcome: Result<R>)
    requires WellFormed(s) && |w.phases| == |s.fns| && t < |s.fns| && s.locks[t] !in w.owner
    ensures var held := w.(owner := w.owner[s.locks[t] := t], phases := w.phases[t := Releasing(outcome)]);
      Step(s, held, Turn(t, false)) == w.(phases := w.phases[t := Done(outcome)])
  {
    assert w.owner[s.locks[t] := t] - {s.locks[t]} == w.owner;
  }

  /** A thread that finds its mutex free and runs alone does exactly what the map store's
      mutation does to a store holding the document, whichever of its two store operations
      fail, and leaves the mutex free again. */
  lemma AloneIsMutate<V, R>(s: Setup<V, R>, w: Memory<V, R>, t: nat, key: string, readFails: bool, writeFails: bool)
    requires WellFormed(s) && |w.phases| == |s.fns|
    requires t < |s.fns| && w.phases[t].Waiting? && s.locks[t] !in w.owner
    ensures var w' := Run(s, w, Turns(t, readFails, writeFails));
      var (d, r) := Mutate(s.codec, Disk(Stored(w.doc, key), [readFails, writeFails]), key, s.fns[t]);
      && w'.phases == w.phases[t := Done(r)] && w'.owner == w.owner
      && Stored(w'.doc, key) == d.docs
  {
    var (_, r) := Mutate(s.codec, Disk(Stored(w.doc, key), [readFails, writeFails]), key, s.fns[t]);
    RunTurns(s, w, t, readFails, writeFails);
    AloneLoads(s, w, t, readFails);
    MutateExactly(s.codec, Disk(Stored(w.doc, key), [readFails, writeFails]), key, s.fns[t]);
    var w' := Run(s, w, Turns(t, readFails, writeFails));
    AloneReleases(s, w.(doc := w'.doc, log := w'.log), t, r);
  }

  // The atomic reference: whole mutations, one after another.

  function Apply<V, R>(fn: map<string, V> -> Mutation<V, R>, m: map<string, V>): map<string, V> {
    var out := fn(m);
    if out.changed then out.m else m
  }

  predicate ValidLog<V, R>(s: Setup<V, R>, log: seq<nat>) {
    forall i :: 0 <= i < |log| ==> log[i] < |s.fns|
  }

  function Replay<V, R>(s: Setup<V, R>, m: map<string, V>, log: seq<nat>): map<string, V>
    requires ValidLog(s, log)
    decreases |log|
  {
    if log == [] then m
    else Apply(s.fns[log[|log| - 1]], Replay(s, m, log[..|log| - 1]))
  }

  /** Thread t took effect as entry i of the log, and returned what an atomic call there returns. */
  ghost predicate CommitsAt<V, R>(s: Setup<V, R>, m0: map<string, V>, log: seq<nat>, i: nat, t: nat, r: R)
    requires ValidLog(s, log)
  {
    i < |log| && log[i] == t && t < |s.fns| && r == s.fns[t](Replay(s, m0, log[..i])).result
  }

  ghost predicate Commits<V, R>(s: Setup<V, R>, m0: map<string, V>, log: seq<nat>, t: nat, r: R)
    requires ValidLog(s, log)
  {
    exists i: nat :: CommitsAt(s, m0, log, i, t, r)
  }

  ghost predicate Critical<V, R>(p: Phase<V, R>) {
    p.Holding? || p.Loaded? || p.Modified? || p.Releasing?
  }

  ghost predicate PhaseInv<V, R>(s: Setup<V, R>, m0: map<string, V>, w: Memory<V, R>, t: nat)
    requires t < |s.fns| == |w.phases|
    requires ValidLog(s, w.log)
  {
    var now := Contents(s.codec, w.doc);
    match w.phases[t]
    case Waiting => t !in w.log
    case Holding => t !in w.log
    case Loaded(m) => t !in w.log && m == now
    case Modified(m, r) =>
      t !in w.log && s.fns[t](now).changed && m == s.fns[t](now).m && r == s.fns[t](now).result
    case Releasing(o) => if o.Ok? then Commits(s, m0, w.log, t, o.value) else t !in w.log
    case Done(o) => if o.Ok? then Commits(s, m0, w.log, t, o.value) else t !in w.log
  }

  ghost predicate Inv<V, R>(s: Setup<V, R>, m0: map<string, V>, w: Memory<V, R>) {
    && WellFormed(s)
    && |w.phases| == |s.fns|
    && ValidLog(s, w.log)
    && (forall i, j :: 0 <= i < j < |w.log| ==> w.log[i] != w.log[j])
    && Contents(s.codec, w.doc) == Replay(s, m0, w.log)
    && (forall t :: 0 <= t < |s.fns| ==> PhaseInv(s, m0, w, t))
    && Guarded(s, w)
  }

  /** A thread is in its critical section exactly while it owns its mutex. */
  ghost predicate Guarded<V, R>(s: Setup<V, R>, w: Memory<V, R>)
    requires WellFormed(s) && |w.phases| == |s.fns|
  {
    && (forall t :: 0 <= t < |s.fns| && Critical(w.phases[t]) ==> s.locks[t] in w.owner && w.owner[s.locks[t]] == t)
    && (forall l :: l in w.owner ==> w.owner[l] < |s.fns| && s.locks[w.owner[l]] == l && Critical(w.phases[w.owner[l]]))
  }

  lemma StepGuarded<V, R>(s: Setup<V, R>, w: Memory<V, R>, turn: Turn)
    requires WellFormed(s) && |w.phases| == |s.fns| && Guarded(s, w)
    ensures Guarded(s, Step(s, w, turn))
  {
    if turn.t < |s.fns| {
      var t, l := turn.t, s.locks[turn.t];
      var w' := Step(s, w, turn);
      if w.phases[t].Waiting? && l !in w.owner {
        assert w'.owner == w.owner[l := t];
      } else if w.phases[t].Releasing? {
        assert w'.owner == w.owner - {l};
      } else {
        assert w'.owner == w.owner && (Critical(w'.phases[t]) <==> Critical(w.phases[t]));
      }
    }
  }

  ghost predicate SharedMutex<V, R>(s: Setup<V, R>) {
    WellFormed(s) && forall t, u :: 0 <= t < |s.fns| && 0 <= u < |s.fns| ==> s.locks[t] == s.locks[u]
  }

  lemma CommitsExtend<V, R>(s: Setup<V, R>, m0: map<string, V>, log: seq<nat>, u: nat, t: nat, r: R)
    requires ValidLog(s, log)
    requires u < |s.fns| && Commits(s, m0, log, t, r)
    ensures Commits(s, m0, log + [u], t, r)
  {
    var i: nat :| CommitsAt(s, m0, log, i, t, r);
    assert (log + [u])[..i] == log[..i];
    assert CommitsAt(s, m0, log + [u], i, t, r);
  }

  /** The step that commits thread t. */
  lemma CommitStep<V(!new), R>(s: Setup<V, R>, m0: map<string, V>, w: Memory<V, R>, turn: Turn)
    requires Inv(s, m0, w) && RoundTrips(s.codec) && SharedMutex(s)
    requires turn.t < |s.fns| && Step(s, w, turn).log != w.log
    ensures Inv(s, m0, Step(s, w, turn))
  {
    var t, w' := turn.t, Step(s, w, turn);
    var now := Contents(s.codec, w.doc);
    assert PhaseInv(s, m0, w, t);
    assert w'.log == w.log + [t] && t !in w.log;
    assert w'.log[..|w.log|] == w.log;
    assert Contents(s.codec, w'.doc) == Apply(s.fns[t], now);
    assert CommitsAt(s, m0, w'.log, |w.log|, t, s.fns[t](now).result);
    StepGuarded(s, w, turn);
    forall u | 0 <= u < |s.fns|
      ensures PhaseInv(s, m0, w', u)
    {
      if u != t {
        var p := w.phases[u];
        assert PhaseInv(s, m0, w, u) && w'.phases[u] == p && !Critical(p);
        if p.Done? && p.outcome.Ok? {
          CommitsExtend(s, m0, w.log, t, u, p.outcome.value);
        }
      }
    }
  }

  /** A step that commits nothing. */
  lemma PrivateStep<V(!new), R>(s: Setup<V, R>, m0: map<string, V>, w: Memory<V, R>, turn: Turn, u: nat)
    requires Inv(s, m0, w) && turn.t < |s.fns| && u < |s.fns|
    requires Step(s, w, turn).log == w.log
    ensures PhaseInv(s, m0, Step(s, w, turn), u)
  {
    var w' := Step(s, w, turn);
    assert PhaseInv(s, m0, w, u) && PhaseInv(s, m0, w, turn.t);
    assert w'.doc == w.doc;
    if u != turn.t {
      assert w'.phases[u] == w.phases[u];
    }
  }

  lemma StepInv<V(!new), R>(s: Setup<V, R>, m0: map<string, V>, w: Memory<V, R>, turn: Turn)
    requires Inv(s, m0, w) && RoundTrips(s.codec) && SharedMutex(s)
    ensures Inv(s, m0, Step(s, w, turn))
  {
    if turn.t < |s.fns| {
      if Step(s, w, turn).log != w.log {
        CommitStep(s, m0, w, turn);
      } else {
        StepGuarded(s, w, turn);
        forall u | 0 <= u < |s.fns|
          ensures PhaseInv(s, m0, Step(s, w, turn), u)
        {
          PrivateStep(s, m0, w, turn, u);
        }
      }
    }
  }

  lemma {:induction false} RunInv<V(!new), R>(s: Setup<V, R>, doc: Option<string>, schedule: seq<Turn>)
    requires RoundTrips(s.codec) && SharedMutex(s)
    ensures Inv(s, Contents(s.codec, doc), Run(s, Start(s, doc), schedule))
    decreases |schedule|
  {
    if schedule != [] {
      var n := |schedule| - 1;
      RunInv(s, doc, schedule[..n]);
      StepInv(s, Contents(s.codec, doc), Run(s, Start(s, doc), schedule[..n]), schedule[n]);
    }
  }

  /** Every interleaving of threads that share one mutex ends in the document that the
      committed mutations produce atomically in commit order; every successful call
      returned its atomic result there, and a failed call had no effect. */
  lemma Linearizable<V(!new), R>(s: Setup<V, R>, doc: Option<string>, schedule: seq<Turn>)
    requires RoundTrips(s.codec) && SharedMutex(s)
    ensures var w, m0 := Run(s, Start(s, doc), schedule), Contents(s.codec, doc);
      && ValidLog(s, w.log)
      && (forall i, j :: 0 <= i < j < |w.log| ==> w.log[i] != w.log[j])
      && Contents(s.codec, w.doc) == Replay(s, m0, w.log)
      && (forall t :: 0 <= t < |s.fns| && w.phases[t].Done? ==>
            var o := w.phases[t].outcome;
            if o.Ok? then Commits(s, m0, w.log, t, o.value) else t !in w.log)
  {
    RunInv(s, doc, schedule);
    var w, m0 := Run(s, Start(s, doc), schedule), Contents(s.codec, doc);
    forall t | 0 <= t < |s.fns| && w.phases[t].Done?
      ensures var o := w.phases[t].outcome;
            if o.Ok? then Commits(s, m0, w.log, t, o.value) else t !in w.log
    {
      assert PhaseInv(s, m0, w, t);
    }
  }

  /** A later state's log extends an earlier one's. */
  lemma {:induction false} LogGrows<V, R>(s: Setup<V, R>, w: Memory<V, R>, first: seq<Turn>, second: seq<Turn>)
    requires WellFormed(s) && |w.phases| == |s.fns|
    ensures Run(s, w, first).log <= Run(s, w, first + second).log
    decreases |second|
  {
    if second == [] {
      assert first + second == first;
    } else {
      var all := first + second;
      assert all[..|all| - 1] == first + second[..|second| - 1];
      LogGrows(s, w, first, second[..|second| - 1]);
    }
  }

  /** Commit order respects real time: a call that returned before another took the
      lock commits before it. */
  lemma RealTimeOrder<V(!new), R>(s: Setup<V, R>, doc: Option<string>, first: seq<Turn>, second: seq<Turn>, t: nat, u: nat)
    requires RoundTrips(s.codec) && SharedMutex(s) && t < |s.fns| && u < |s.fns|
    requires var w := Run(s, Start(s, doc), first); w.phases[t].Done? && w.phases[t].outcome.Ok? && w.phases[u].Waiting?
    requires var w := Run(s, Start(s, doc), first + second); w.phases[u].Done? && w.phases[u].outcome.Ok?
    ensures var log := Run(s, Start(s, doc), first + second).log;
      exists i, j :: 0 <= i < j < |log| && log[i] == t && log[j] == u
  {
    var m0 := Contents(s.codec, doc);
    var mid, end := Run(s, Start(s, doc), first), Run(s, Start(s, doc), first + second);
    RunInv(s, doc, first);
    RunInv(s, doc, first + second);
    LogGrows(s, Start(s, doc), first, second);
    assert PhaseInv(s, m0, mid, t) && PhaseInv(s, m0, mid, u) && PhaseInv(s, m0, end, u);
    var i: nat :| CommitsAt(s, m0, mid.log, i, t, mid.phases[t].outcome.value);
    var j: nat :| CommitsAt(s, m0, end.log, j, u, end.phases[u].outcome.value);
    assert end.log[i] == mid.log[i] == t;
    assert u !in mid.log;
  }

  // What the registries rely on.

  ghost predicate Keeps<V(!new), R>(fn: map<string, V> -> Mutation<V, R>, k: string, v: V) {
    forall m: map<string, V> :: k in m && m[k] == v ==> k in Apply(fn, m) && Apply(fn, m)[k] == v
  }

  ghost predicate Inserts<V(!new), R>(fn: map<string, V> -> Mutation<V, R>, k: string, v: V) {
    forall m: map<string, V> :: Apply(fn, m) == m[k := v]
  }

  ghost predicate NeverInserts<V(!new), R>(fn: map<string, V> -> Mutation<V, R>, k: string) {
    forall m: map<string, V> :: k !in m ==> k !in Apply(fn, m)
  }

  lemma {:induction false} KeptFrom<V(!new), R>(s: Setup<V, R>, m0: map<string, V>, log: seq<nat>, i: nat, k: string, v: V)
    requires ValidLog(s, log)
    requires i <= |log|
    requires k in Replay(s, m0, log[..i]) && Replay(s, m0, log[..i])[k] == v
    requires forall j :: i <= j < |log| ==> Keeps(s.fns[log[j]], k, v)
    ensures k in Replay(s, m0, log) && Replay(s, m0, log)[k] == v
    decreases |log|
  {
    if i == |log| {
      assert log[..i] == log;
    } else {
      var front := log[..|log| - 1];
      assert front[..i] == log[..i];
      KeptFrom(s, m0, front, i, k, v);
      assert Keeps(s.fns[log[|log| - 1]], k, v);
    }
  }

  lemma {:induction false} AbsentFrom<V(!new), R>(s: Setup<V, R>, m0: map<string, V>, log: seq<nat>, i: nat, k: string)
    requires ValidLog(s, log)
    requires i <= |log| && k !in Replay(s, m0, log[..i])
    requires forall j :: i <= j < |log| ==> NeverInserts(s.fns[log[j]], k)
    ensures k !in Replay(s, m0, log)
    decreases |log|
  {
    if i == |log| {
      assert log[..i] == log;
    } else {
      var front := log[..|log| - 1];
      assert front[..i] == log[..i];
      AbsentFrom(s, m0, front, i, k);
      assert NeverInserts(s.fns[log[|log| - 1]], k);
    }
  }

  /** No insert is lost: once a thread that puts v at k has returned, k stays at v as
      long as every other thread's mutation keeps it. */
  lemma NoInsertLost<V(!new), R>(s: Setup<V, R>, doc: Option<string>, schedule: seq<Turn>, t: nat, k: string, v: V)
    requires RoundTrips(s.codec) && SharedMutex(s) && t < |s.fns|
    requires Inserts(s.fns[t], k, v)
    requires forall u :: 0 <= u < |s.fns| && u != t ==> Keeps(s.fns[u], k, v)
    requires var w := Run(s, Start(s, doc), schedule); w.phases[t].Done? && w.phases[t].outcome.Ok?
    ensures var m := Contents(s.codec, Run(s, Start(s, doc), schedule).doc); k in m && m[k] == v
  {
    Linearizable(s, doc, schedule);
    var w, m0 := Run(s, Start(s, doc), schedule), Contents(s.codec, doc);
    var i: nat :| CommitsAt(s, m0, w.log, i, t, w.phases[t].outcome.value);
    InsertCommitted(s, m0, w.log, i, k, v);
  }

  lemma InsertCommitted<V(!new), R>(s: Setup<V, R>, m0: map<string, V>, log: seq<nat>, i: nat, k: string, v: V)
    requires ValidLog(s, log) && i < |log| && Inserts(s.fns[log[i]], k, v)
    requires forall j :: i < j < |log| ==> log[j] != log[i]
    requires forall u :: 0 <= u < |s.fns| && u != log[i] ==> Keeps(s.fns[u], k, v)
    ensures k in Replay(s, m0, log) && Replay(s, m0, log)[k] == v
  {
    var before := Replay(s, m0, log[..i]);
    ReplayNext(s, m0, log, i);
    assert Apply(s.fns[log[i]], before) == before[k := v];
    KeptFrom(s, m0, log, i + 1, k, v);
  }

  lemma ReplayNext<V, R>(s: Setup<V, R>, m0: map<string, V>, log: seq<nat>, i: nat)
    requires ValidLog(s, log) && i < |log|
    ensures Replay(s, m0, log[..i + 1]) == Apply(s.fns[log[i]], Replay(s, m0, log[..i]))
  {
    assert log[..i + 1][..i] == log[..i];
  }

  /** Of any number of concurrent exchanges of one token, at most one wins. */
  lemma OneExchangeWins<V(!new)>(s: Setup<V, Option<V>>, doc: Option<string>, schedule: seq<Turn>, token: string, t: nat, u: nat)
    requires RoundTrips(s.codec) && SharedMutex(s) && t < |s.fns| && u < |s.fns|
    requires s.fns[t] == Take(token) && s.fns[u] == Take(token)
    requires forall j :: 0 <= j < |s.fns| ==> NeverInserts(s.fns[j], token)
    requires var w := Run(s, Start(s, doc), schedule);
      && w.phases[t].Done? && w.phases[t].outcome.Ok? && w.phases[t].outcome.value.Some?
      && w.phases[u].Done? && w.phases[u].outcome.Ok? && w.phases[u].outcome.value.Some?
    ensures t == u
  {
    Linearizable(s, doc, schedule);
    var w, m0 := Run(s, Start(s, doc), schedule), Contents(s.codec, doc);
    var i: nat :| CommitsAt(s, m0, w.log, i, t, w.phases[t].outcome.value);
    var j: nat :| CommitsAt(s, m0, w.log, j, u, w.phases[u].outcome.value);
    if i < j {
      LoserAfter(s, m0, w.log, i, j, token);
    } else if j < i {
      LoserAfter(s, m0, w.log, j, i, token);
    }
  }

  lemma LoserAfter<V(!new)>(s: Setup<V, Option<V>>, m0: map<string, V>, log: seq<nat>, i: nat, j: nat, token: string)
    requires ValidLog(s, log)
    requires i < j < |log| && s.fns[log[i]] == Take(token) && s.fns[log[j]] == Take(token)
    requires forall n :: 0 <= n < |s.fns| ==> NeverInserts(s.fns[n], token)
    ensures s.fns[log[j]](Replay(s, m0, log[..j])).result == None
  {
    assert log[..i + 1][..i] == log[..i] && log[..j][..i + 1] == log[..i + 1];
    assert token !in Replay(s, m0, log[..i + 1]);
    AbsentFrom(s, m0, log[..j], i + 1, token);
  }

  /** A schedule in which both threads load before either saves, and thread 1 saves first. */
  function Overlap(): seq<Turn> {
    [Turn(0, false), Turn(1, false), Turn(0, false), Turn(1, false), Turn(0, false),
     Turn(1, false), Turn(1, false), Turn(1, false), Turn(0, false), Turn(0, false)]
  }

  /** The states two threads with a mutex each pass through under that schedule. */
  function OverlapStates<V, R>(c: Codec<V>, m0: map<string, V>, a: Mutation<V, R>, b: Mutation<V, R>): seq<Memory<V, R>> {
    var d0, da, db := Some(c.encode(m0)), Some(c.encode(a.m)), Some(c.encode(b.m));
    var both, fst: map<nat, nat> := map[0 := 0, 1 := 1], map[0 := 0];
    [Memory(d0, map[], [Waiting, Waiting], []),
     Memory(d0, fst, [Holding, Waiting], []),
     Memory(d0, both, [Holding, Holding], []),
     Memory(d0, both, [Loaded(m0), Holding], []),
     Memory(d0, both, [Loaded(m0), Loaded(m0)], []),
     Memory(d0, both, [Modified(a.m, a.result), Loaded(m0)], []),
     Memory(d0, both, [Modified(a.m, a.result), Modified(b.m, b.result)], []),
     Memory(db, both, [Modified(a.m, a.result), Releasing(Ok(b.result))], [1]),
     Memory(db, fst, [Modified(a.m, a.result), Done(Ok(b.result))], [1]),
     Memory(da, fst, [Releasing(Ok(a.result)), Done(Ok(b.result))], [1, 0]),
     Memory(da, map[], [Done(Ok(a.result)), Done(Ok(b.result))], [1, 0])]
  }

  lemma OverlapLoads<V(!new), R>(s: Setup<V, R>, m0: map<string, V>, i: nat)
    requires |s.fns| == 2 && s.locks == [0, 1] && i < 4 && RoundTrips(s.codec)
    ensures var x := OverlapStates(s.codec, m0, s.fns[0](m0), s.fns[1](m0));
      Step(s, x[i], Overlap()[i]) == x[i + 1]
  {
  }

  lemma OverlapModifies<V(!new), R>(s: Setup<V, R>, m0: map<string, V>, i: nat)
    requires |s.fns| == 2 && s.locks == [0, 1] && 4 <= i < 7
    requires s.fns[0](m0).changed && s.fns[1](m0).changed
    ensures var x := OverlapStates(s.codec, m0, s.fns[0](m0), s.fns[1](m0));
      Step(s, x[i], Overlap()[i]) == x[i + 1]
  {
  }

  lemma OverlapSaves<V(!new), R>(s: Setup<V, R>, m0: map<string, V>, i: nat)
    requires |s.fns| == 2 && s.locks == [0, 1] && 7 <= i < 10
    ensures var x := OverlapStates(s.codec, m0, s.fns[0](m0), s.fns[1](m0));
      Step(s, x[i], Overlap()[i]) == x[i + 1]
  {
  }

  /** Under that schedule, with a mutex each, thread 0's save buries thread 1's. */
  lemma OverlapBuries<V(!new), R>(s: Setup<V, R>, m0: map<string, V>)
    requires |s.fns| == 2 && s.locks == [0, 1] && RoundTrips(s.codec)
    requires s.fns[0](m0).changed && s.fns[1](m0).changed
    ensures
      var w := Run(s, Start(s, Some(s.codec.encode(m0))), Overlap());
      && w.phases == [Done(Ok(s.fns[0](m0).result)), Done(Ok(s.fns[1](m0).result))]
      && Contents(s.codec, w.doc) == s.fns[0](m0).m
  {
    var x := OverlapStates(s.codec, m0, s.fns[0](m0), s.fns[1](m0));
    forall i | 0 <= i < 10
      ensures x[i + 1] == Step(s, x[i], Overlap()[i])
    {
      if i < 4 {
        OverlapLoads(s, m0, i);
      } else if i < 7 {
        OverlapModifies(s, m0, i);
      } else {
        OverlapSaves(s, m0, i);
      }
    }
    assert Start(s, Some(s.codec.encode(m0))) == x[0];
    RunTrace(s, Overlap(), x);
  }

  /** The shared mutex is needed: RemovePrincipal locks a mutex of its own, so a token
      issue by the running server can interleave with it and put a revoked token back.
      Both calls report success, and neither sequential order of the two leaves it. */
  lemma TwoMutexesLoseRevocation<V(!new)>(c: Codec<V>, revoked: V, issued: V, p: V -> bool)
    requires RoundTrips(c) && p(revoked) && !p(issued)
    ensures
      var s := Setup(c, [Put("new", issued), DropWhere(p)], [0, 1]);
      var m0 := map["old" := revoked];
      var w := Run(s, Start(s, Some(c.encode(m0))), Overlap());
      && w.phases == [Done(Ok(())), Done(Ok(()))]
      && "old" in Contents(c, w.doc)
      && "old" !in Replay(s, m0, [0, 1]) && "old" !in Replay(s, m0, [1, 0])
  {
    var s := Setup(c, [Put("new", issued), DropWhere(p)], [0, 1]);
    var m0 := map["old" := revoked];
    assert "old" in m0 && p(m0["old"]);
    OverlapBuries(s, m0);
    Dropped(p, m0, "old");
    Dropped(p, m0["new" := issued], "old");
    Sequentially(s, m0, 0, 1);
    Sequentially(s, m0, 1, 0);
  }

  lemma Dropped<V>(p: V -> bool, m: map<string, V>, k: string)
    requires k in m && p(m[k])
    ensures DropWhere(p)(m).changed && k !in DropWhere(p)(m).m
  {
  }

  lemma Sequentially<V, R>(s: Setup<V, R>, m: map<string, V>, t: nat, u: nat)
    requires t < |s.fns| && u < |s.fns|
    ensures Replay(s, m, [t, u]) == Apply(s.fns[u], Apply(s.fns[t], m))
  {
    assert [t, u][..1] == [t] && [t][..0] == [];
    assert Replay(s, m, [t]) == Apply(s.fns[t], Replay(s, m, []));
  }

  /** A run is determined by its states. */
  lemma {:induction false} RunTrace<V, R>(s: Setup<V, R>, turns: seq<Turn>, states: seq<Memory<V, R>>)
    requires WellFormed(s) && |states| == |turns| + 1
    requires forall i :: 0 <= i < |states| ==> |states[i].phases| == |s.fns|
    requires forall i :: 0 <= i < |turns| ==> states[i + 1] == Step(s, states[i], turns[i])
    ensures Run(s, states[0], turns) == states[|turns|]
    decreases |turns|
  {
    if turns != [] {
      RunTrace(s, turns[..|turns| - 1], states[..|turns|]);
    }
  }
}
