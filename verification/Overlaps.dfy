/** Two mutations of one document under a mutex each, as an issue by the running server and
    RemovePrincipal's removal are: over every schedule, what they leave, and exactly when
    that is what one after the other leaves. */
module Overlaps {
  import opened Wrappers
  import opened SecretStores
  import opened MapStores
  import opened Records
  import opened RefreshTokens
  import opened Interleavings

  /** Two threads that lock different mutexes. */
  predicate Apart<V, R>(s: Setup<V, R>) {
    |s.fns| == 2 && s.locks == [0, 1]
  }

  /** In this turn the other thread saves while t is between its load and its save. */
  predicate SavesUnder<V, R>(w: Memory<V, R>, turn: Turn, t: nat)
    requires |w.phases| == 2 && t < 2
  {
    (w.phases[t].Loaded? || w.phases[t].Modified?) && w.phases[1 - t].Modified? && turn == Turn(1 - t, false)
  }

  /** Somewhere in the schedule thread t is left with a map the other thread has overwritten. */
  ghost predicate Stale<V, R>(s: Setup<V, R>, doc: Option<string>, schedule: seq<Turn>, t: nat)
    requires Apart(s) && t < 2
  {
    exists i :: 0 <= i < |schedule| && SavesUnder(Run(s, Start(s, doc), schedule[..i]), schedule[i], t)
  }

  /** Both calls have returned without error. */
  predicate BothSucceed<V, R>(s: Setup<V, R>, doc: Option<string>, schedule: seq<Turn>)
    requires Apart(s)
  {
    var w := Run(s, Start(s, doc), schedule);
    forall t :: 0 <= t < 2 ==> w.phases[t].Done? && w.phases[t].outcome.Ok?
  }

  /** Both mutations change the map, whichever comes first. */
  predicate AlwaysChange<V, R>(s: Setup<V, R>, m0: map<string, V>)
    requires Apart(s)
  {
    forall t | 0 <= t < 2 :: s.fns[t](m0).changed && s.fns[t](s.fns[1 - t](m0).m).changed
  }

  /** The map after the saves of log; stale says which threads worked on the map they had
      loaded before the other's save. */
  function After<V, R>(s: Setup<V, R>, m0: map<string, V>, log: seq<nat>, stale: seq<bool>): map<string, V>
    requires Apart(s) && |stale| == 2 && |log| <= 2 && ValidLog(s, log)
  {
    if log == [] then m0
    else if |log| == 1 then s.fns[log[0]](m0).m
    else s.fns[log[1]](if stale[log[1]] then m0 else s.fns[log[0]](m0).m).m
  }

  ghost predicate ThreadInv<V, R>(s: Setup<V, R>, m0: map<string, V>, now: map<string, V>, log: seq<nat>, p: Phase<V, R>, t: nat, stale: bool)
    requires Apart(s) && t < 2
  {
    match p
    case Waiting => t !in log && !stale
    case Holding => t !in log && !stale
    case Loaded(m) => t !in log && m == if stale then m0 else now
    case Modified(m, _) => t !in log && m == s.fns[t](if stale then m0 else now).m
    case Releasing(o) => o.Ok? <==> t in log
    case Done(o) => o.Ok? <==> t in log
  }

  ghost predicate OverlapInv<V, R>(s: Setup<V, R>, m0: map<string, V>, w: Memory<V, R>, stale: seq<bool>) {
    && Apart(s) && |w.phases| == |stale| == 2
    && (w.log == [] || w.log == [0] || w.log == [1] || w.log == [0, 1] || w.log == [1, 0])
    && Contents(s.codec, w.doc) == After(s, m0, w.log, stale)
    && (forall t :: 0 <= t < 2 ==> ThreadInv(s, m0, Contents(s.codec, w.doc), w.log, w.phases[t], t, stale[t]))
    && (forall t :: 0 <= t < 2 && stale[t] ==> w.log != [] && w.log[0] == 1 - t)
  }

  /** The threads left stale once turn has run. */
  function StaleAfter<V, R>(w: Memory<V, R>, stale: seq<bool>, turn: Turn): seq<bool>
    requires |w.phases| == |stale| == 2
  {
    [stale[0] || SavesUnder(w, turn, 0), stale[1] || SavesUnder(w, turn, 1)]
  }

  /** The step that saves thread t's map. */
  lemma SaveStep<V(!new), R>(s: Setup<V, R>, m0: map<string, V>, w: Memory<V, R>, stale: seq<bool>, turn: Turn)
    requires OverlapInv(s, m0, w, stale) && RoundTrips(s.codec)
    requires turn.t < 2 && w.phases[turn.t].Modified? && !turn.fails
    ensures OverlapInv(s, m0, Step(s, w, turn), StaleAfter(w, stale, turn))
  {
    var t, u := turn.t, 1 - turn.t;
    var w', stale' := Step(s, w, turn), StaleAfter(w, stale, turn);
    assert ThreadInv(s, m0, Contents(s.codec, w.doc), w.log, w.phases[t], t, stale[t]);
    assert ThreadInv(s, m0, Contents(s.codec, w.doc), w.log, w.phases[u], u, stale[u]);
    assert w.log == [] || w.log == [u];
    assert w'.log == w.log + [t] && stale'[t] == stale[t];
    assert Contents(s.codec, w'.doc) == w.phases[t].m == After(s, m0, w'.log, stale');
    assert ThreadInv(s, m0, Contents(s.codec, w'.doc), w'.log, w'.phases[u], u, stale'[u]);
    assert ThreadInv(s, m0, Contents(s.codec, w'.doc), w'.log, w'.phases[t], t, stale'[t]);
  }

  /** The step that applies thread t's mutation to the map it loaded. */
  lemma ApplyStep<V(!new), R>(s: Setup<V, R>, m0: map<string, V>, w: Memory<V, R>, stale: seq<bool>, turn: Turn)
    requires OverlapInv(s, m0, w, stale) && AlwaysChange(s, m0)
    requires turn.t < 2 && w.phases[turn.t].Loaded?
    ensures OverlapInv(s, m0, Step(s, w, turn), stale)
  {
    var t, w' := turn.t, Step(s, w, turn);
    assert ThreadInv(s, m0, Contents(s.codec, w.doc), w.log, w.phases[t], t, stale[t]);
    assert w.log == [] || w.log == [1 - t];
    assert s.fns[t](w.phases[t].m).changed;
    assert w'.phases[1 - t] == w.phases[1 - t];
    assert ThreadInv(s, m0, Contents(s.codec, w'.doc), w'.log, w'.phases[t], t, stale[t]);
  }

  /** Every other step. */
  lemma OtherStep<V(!new), R>(s: Setup<V, R>, m0: map<string, V>, w: Memory<V, R>, stale: seq<bool>, turn: Turn)
    requires OverlapInv(s, m0, w, stale)
    requires turn.t < 2 ==> !w.phases[turn.t].Loaded? && (w.phases[turn.t].Modified? ==> turn.fails)
    ensures OverlapInv(s, m0, Step(s, w, turn), stale)
  {
    if turn.t < 2 {
      var t, w' := turn.t, Step(s, w, turn);
      assert w'.doc == w.doc && w'.log == w.log && w'.phases[1 - t] == w.phases[1 - t];
      assert ThreadInv(s, m0, Contents(s.codec, w.doc), w.log, w.phases[t], t, stale[t]);
      assert ThreadInv(s, m0, Contents(s.codec, w.doc), w.log, w'.phases[t], t, stale[t]);
    }
  }

  lemma {:induction false} RunOverlap<V(!new), R>(s: Setup<V, R>, doc: Option<string>, schedule: seq<Turn>) returns (stale: seq<bool>)
    requires Apart(s) && RoundTrips(s.codec) && AlwaysChange(s, Contents(s.codec, doc))
    ensures OverlapInv(s, Contents(s.codec, doc), Run(s, Start(s, doc), schedule), stale)
    ensures forall t :: 0 <= t < 2 ==> (stale[t] <==> Stale(s, doc, schedule, t))
    decreases |schedule|
  {
    var m0 := Contents(s.codec, doc);
    if schedule == [] {
      stale := [false, false];
    } else {
      var front, turn := schedule[..|schedule| - 1], schedule[|schedule| - 1];
      var w := Run(s, Start(s, doc), front);
      var before := RunOverlap(s, doc, front);
      stale := StaleAfter(w, before, turn);
      if turn.t < 2 && w.phases[turn.t].Modified? && !turn.fails {
        SaveStep(s, m0, w, before, turn);
      } else {
        assert stale == before;
        if turn.t < 2 && w.phases[turn.t].Loaded? {
          ApplyStep(s, m0, w, before, turn);
        } else {
          OtherStep(s, m0, w, before, turn);
        }
      }
      StaleLast(s, doc, schedule, 0);
      StaleLast(s, doc, schedule, 1);
    }
  }

  lemma StaleLast<V, R>(s: Setup<V, R>, doc: Option<string>, schedule: seq<Turn>, t: nat)
    requires Apart(s) && t < 2 && schedule != []
    ensures var n := |schedule| - 1;
      Stale(s, doc, schedule, t) <==>
        Stale(s, doc, schedule[..n], t) || SavesUnder(Run(s, Start(s, doc), schedule[..n]), schedule[n], t)
  {
    var n := |schedule| - 1;
    assert forall i :: 0 <= i <= n ==> schedule[..n][..i] == schedule[..i];
    if i :| 0 <= i < |schedule| && SavesUnder(Run(s, Start(s, doc), schedule[..i]), schedule[i], t) {
      assert i < n ==> SavesUnder(Run(s, Start(s, doc), schedule[..n][..i]), schedule[..n][i], t);
    }
    if i :| 0 <= i < n && SavesUnder(Run(s, Start(s, doc), schedule[..n][..i]), schedule[..n][i], t) {
      assert SavesUnder(Run(s, Start(s, doc), schedule[..i]), schedule[i], t);
    }
  }

  /** Over every schedule in which both calls return without error: a thread left stale has
      the last word with what it made of the old map, and otherwise the result is that of
      the two calls in commit order. */
  lemma LastSaveWins<V(!new), R>(s: Setup<V, R>, doc: Option<string>, schedule: seq<Turn>)
    requires Apart(s) && RoundTrips(s.codec) && AlwaysChange(s, Contents(s.codec, doc))
    requires BothSucceed(s, doc, schedule)
    ensures var w, m0 := Run(s, Start(s, doc), schedule), Contents(s.codec, doc);
      && (w.log == [0, 1] || w.log == [1, 0])
      && (Stale(s, doc, schedule, 0) ==> w.log == [1, 0]) && (Stale(s, doc, schedule, 1) ==> w.log == [0, 1])
      && Contents(s.codec, w.doc) ==
           if Stale(s, doc, schedule, 0) then s.fns[0](m0).m
           else if Stale(s, doc, schedule, 1) then s.fns[1](m0).m
           else Replay(s, m0, w.log)
  {
    var w, m0 := Run(s, Start(s, doc), schedule), Contents(s.codec, doc);
    var stale := RunOverlap(s, doc, schedule);
    assert ThreadInv(s, m0, Contents(s.codec, w.doc), w.log, w.phases[0], 0, stale[0]);
    assert ThreadInv(s, m0, Contents(s.codec, w.doc), w.log, w.phases[1], 1, stale[1]);
    Sequentially(s, m0, 0, 1);
    Sequentially(s, m0, 1, 0);
  }

  // An issue by the running server, and a removal.

  /** Thread 0 issues token to g; thread 1 removes n's tokens under RemovePrincipal's own mutex. */
  function Revoking(c: Codecs, token: string, g: RefreshGrant, n: string): Setup<RefreshGrant, ()> {
    Setup(c.refresh, [Put(token, g), DropWhere(NamedBy(n))], [0, 1])
  }

  function TokenDoc(docs: map<string, string>): Option<string> {
    if REFRESH_TOKENS in docs then Some(docs[REFRESH_TOKENS]) else None
  }

  ghost predicate Holds(m: map<string, RefreshGrant>, n: string) {
    exists k :: k in m && m[k].principal.name == n
  }

  /** The tokens after the two atomic steps, in commit order. */
  function Serially(c: Codecs, docs: map<string, string>, token: string, g: RefreshGrant, n: string, issueFirst: bool): map<string, RefreshGrant> {
    if issueFirst then
      Tokens(c, DropTokensOf(c, Disk(IssueToken(c, Disk(docs, []), g, Some(token)).0.docs, []), n).0.docs)
    else
      Tokens(c, IssueToken(c, Disk(DropTokensOf(c, Disk(docs, []), n).0.docs, []), g, Some(token)).0.docs)
  }

  lemma SeriallyIsReplay(c: Codecs, docs: map<string, string>, token: string, g: RefreshGrant, n: string)
    requires RoundTrips(c.refresh) && n != "" && Readable(c.refresh, docs, REFRESH_TOKENS)
    ensures var s, m0 := Revoking(c, token, g, n), Tokens(c, docs);
      && Serially(c, docs, token, g, n, true) == Replay(s, m0, [0, 1])
      && Serially(c, docs, token, g, n, false) == Replay(s, m0, [1, 0])
  {
    var s, m0 := Revoking(c, token, g, n), Tokens(c, docs);
    var issue, drop := Put(token, g), DropWhere(NamedBy(n));
    MutateEffect(c.refresh, Disk(docs, []), REFRESH_TOKENS, issue);
    MutateEffect(c.refresh, Disk(docs, []), REFRESH_TOKENS, drop);
    MutateEffect(c.refresh, Disk(IssueToken(c, Disk(docs, []), g, Some(token)).0.docs, []), REFRESH_TOKENS, drop);
    MutateEffect(c.refresh, Disk(DropTokensOf(c, Disk(docs, []), n).0.docs, []), REFRESH_TOKENS, issue);
    Sequentially(s, m0, 0, 1);
    Sequentially(s, m0, 1, 0);
  }

  lemma RevokingMaps(c: Codecs, m0: map<string, RefreshGrant>, token: string, g: RefreshGrant, n: string)
    requires token !in m0 && g.principal.name != n && Holds(m0, n)
    ensures var s := Revoking(c, token, g, n);
      && AlwaysChange(s, m0)
      && Holds(s.fns[0](m0).m, n) && !Holds(s.fns[1](m0).m, n)
      && (forall log :: log == [0, 1] || log == [1, 0] ==>
            !Holds(Replay(s, m0, log), n) && token in Replay(s, m0, log) && token !in s.fns[1](m0).m)
  {
    var s := Revoking(c, token, g, n);
    var k :| k in m0 && m0[k].principal.name == n;
    assert NamedBy(n)(m0[k]) && k != token;
    var issued := m0[token := g];
    assert k in issued && NamedBy(n)(issued[k]);
    assert s.fns[0](m0).m == issued;
    Sequentially(s, m0, 0, 1);
    Sequentially(s, m0, 1, 0);
    assert token in issued && !NamedBy(n)(issued[token]);
  }

  /** Removing under a mutex of its own, exactly: over every schedule in which an issue to
      somebody else and the removal of n both succeed, a token of n's is left just when the
      issue had loaded before the removal saved and saved after it; and the document holds
      what the two atomic steps leave in commit order, as the runs of the state machine
      take them, just when neither loaded before and saved after the other's save. */
  lemma RemovalSurvivesExactly(c: Codecs, docs: map<string, string>, schedule: seq<Turn>, token: string, g: RefreshGrant, n: string)
    requires RoundTrips(c.refresh) && n != "" && g.principal.name != n
    requires token !in Tokens(c, docs) && Holds(Tokens(c, docs), n)
    requires BothSucceed(Revoking(c, token, g, n), TokenDoc(docs), schedule)
    ensures var s, doc := Revoking(c, token, g, n), TokenDoc(docs);
      var w := Run(s, Start(s, doc), schedule);
      && (Holds(Contents(c.refresh, w.doc), n) <==> Stale(s, doc, schedule, 0))
      && (Contents(c.refresh, w.doc) == Serially(c, docs, token, g, n, w.log == [0, 1]) <==>
            !Stale(s, doc, schedule, 0) && !Stale(s, doc, schedule, 1))
  {
    var s, doc := Revoking(c, token, g, n), TokenDoc(docs);
    RevokingMaps(c, Tokens(c, docs), token, g, n);
    LastSaveWins(s, doc, schedule);
    SeriallyIsReplay(c, docs, token, g, n);
  }
}
