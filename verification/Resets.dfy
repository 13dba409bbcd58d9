/** What a reset of the store forgets, and what outlives it: the running server goes on with
    its key, its pending codes and its requests until it is restarted. */
module Resets {
  import opened Wrappers
  import opened SecretStores
  import opened MapStores
  import opened Base64Url
  import opened Records
  import opened RefreshTokens
  import opened Clients
  import opened AccessTokens
  import opened PairingCodes
  import opened Normalizer
  import opened Pairings
  import opened Handlers
  import opened Machine
  import opened Lineage
  import opened Prospects
  import opened Provenance
  import opened Restarts

  const NOTHING_YET := History({}, {}, {}, [], map[], [])

  /** A generated code whose body is among bodies. */
  ghost predicate Coined(code: string, bodies: set<string>) {
    exists b: seq<byte> :: |b| == DRAW_BYTES && CodeOf(b) == code && Body(b) in bodies
  }

  ghost predicate CodesWithin(env: Env, s: State, past: History) {
    && (PAIRING_CODE in s.docs ==> Coined(s.docs[PAIRING_CODE], s.hist.bodies - past.bodies))
    && (forall n :: n in Principals(env.codecs, s.docs) ==>
          Coined(Principals(env.codecs, s.docs)[n].code, s.hist.bodies - past.bodies))
  }

  ghost predicate Extends(h: History, past: History) {
    && past.keys <= h.keys && past.used <= h.used && past.bodies <= h.bodies
    && |past.mints| <= |h.mints| && (forall j :: 0 <= j < |past.mints| ==> h.mints[j] == past.mints[j])
  }

  /** Everything stored was drawn after the history past. */
  ghost predicate StoredSince(env: Env, s: State, past: History) {
    && Extends(s.hist, past)
    && (SIGNING_KEY in s.docs ==>
          Base64Url.Decode(s.docs[SIGNING_KEY]).Some? && Base64Url.Decode(s.docs[SIGNING_KEY]).value in s.hist.keys - past.keys)
    && Tokens(env.codecs, s.docs).Keys <= s.hist.used - past.used
    && Registered(env.codecs, s.docs).Keys <= s.hist.used - past.used
    && CodesWithin(env, s, past)
  }

  /** Everything the running process holds was drawn after the history past. */
  ghost predicate ProcessSince(s: State, past: History) {
    && (s.proc.Some? ==> s.proc.value.issuer.key in s.hist.keys - past.keys)
    && Codes(s).Keys <= s.hist.used - past.used
  }

  /** Every token was signed with a key the history knows. */
  ghost predicate KeysRecorded(s: State) {
    forall j :: 0 <= j < |s.hist.mints| ==> s.hist.mints[j].token.key in s.hist.keys
  }

  lemma StepExtends(env: Env, s: State, e: Event, past: History)
    requires Extends(s.hist, past)
    ensures Extends(Step(env, s, e).hist, past) && Extends(Step(env, s, e).hist, s.hist)
  {
  }

  ghost predicate StoredKeySince(s: State, past: History) {
    SIGNING_KEY in s.docs ==>
      Base64Url.Decode(s.docs[SIGNING_KEY]).Some? && Base64Url.Decode(s.docs[SIGNING_KEY]).value in s.hist.keys - past.keys
  }

  /** A restart takes the stored key or stores a fresh one. */
  lemma RestartKeys(env: Env, s: State, e: Event, past: History)
    requires Extends(s.hist, past) && StoredKeySince(s, past) && Fresh(s, e) && e.Restart?
    ensures StoredKeySince(Step(env, s, e), past) && ProcessSince(Step(env, s, e), past)
  {
    KeyEffect(Disk(s.docs, e.faults), e.keyDraw);
    if e.keyDraw.Some? {
      DecodeEncode(e.keyDraw.value);
    }
    var s' := Step(env, s, e);
    assert s.hist.keys <= s'.hist.keys;
    if SIGNING_KEY in s'.docs {
      var key := Base64Url.Decode(s'.docs[SIGNING_KEY]);
      assert key.Some? && key.value in s'.hist.keys - past.keys;
    }
  }

  lemma StepStoredKey(env: Env, s: State, e: Event, past: History)
    requires Faithful(env.codecs) && Extends(s.hist, past) && StoredKeySince(s, past) && Fresh(s, e)
    ensures StoredKeySince(Step(env, s, e), past)
  {
    if e.Restart? {
      RestartKeys(env, s, e, past);
    } else {
      if !e.Reset? {
        StepTouches(env, s, e);
      }
      KeysDistinct();
      var s' := Step(env, s, e);
      assert SIGNING_KEY in s'.docs ==> SIGNING_KEY in s.docs && s'.docs[SIGNING_KEY] == s.docs[SIGNING_KEY];
      assert s'.hist.keys == s.hist.keys;
    }
  }

  /** Clients only ever appear under a value just drawn. */
  lemma StepClientKeys(env: Env, s: State, e: Event)
    requires Faithful(env.codecs) && Fresh(s, e)
    ensures var s' := Step(env, s, e);
      Registered(env.codecs, s'.docs).Keys <= Registered(env.codecs, s.docs).Keys + (s'.hist.used - s.hist.used)
  {
    match e
    case Register(uris, name, draw, faults) =>
      if draw.Some? {
        MutateEffect(env.codecs.clients, Disk(s.docs, faults), CLIENTS, Put(draw.value, Client(draw.value, uris, name)));
      }
    case Reset(_) =>
    case _ =>
      StepTouches(env, s, e);
      KeysDistinct();
      SameClients(env, s.docs, Step(env, s, e).docs, DocOf(e));
  }

  /** The stored shared code stays, goes, or is the one this step drew. */
  ghost predicate SharedCodeFrom(s: State, s': State, draw: Draw) {
    PAIRING_CODE in s'.docs ==>
      || (PAIRING_CODE in s.docs && s'.docs[PAIRING_CODE] == s.docs[PAIRING_CODE])
      || (draw.Some? && s'.docs[PAIRING_CODE] == CodeOf(draw.value) && Body(draw.value) in s'.hist.bodies)
  }

  /** The shared code after a step over docs that drew draw. */
  predicate CodeKeptOrDrawn(docs: map<string, string>, docs': map<string, string>, draw: Draw) {
    PAIRING_CODE in docs' ==>
      || (PAIRING_CODE in docs && docs'[PAIRING_CODE] == docs[PAIRING_CODE])
      || (draw.Some? && docs'[PAIRING_CODE] == CodeOf(draw.value))
  }

  lemma SharedCodeKept(d: Disk, draw: Draw)
    ensures CodeKeptOrDrawn(d.docs, SharedCode(d, draw).0.docs, draw)
  {
  }

  lemma SubmissionCode(env: Env, d: Disk, p: AuthParams, input: string, draw: Draw)
    ensures CodeKeptOrDrawn(d.docs, CheckSubmission(env, d, p, input, draw).0.docs, draw)
  {
    var (d1, client) := ValidateClientRedirect(env, d, p);
    assert d1.docs == d.docs;
    if client.Some? && ValidateAuthParams(p).None? {
      SharedCodeKept(d1, draw);
      IdentifyDocs(env.codecs, d1, input, draw);
    }
  }

  lemma EnterCode(env: Env, s: State, e: Event)
    requires e.Enter?
    ensures SharedCodeFrom(s, Step(env, s, e), e.pairDraw)
  {
    SubmissionCode(env, Disk(s.docs, e.faults), e.params, e.input, e.pairDraw);
    assert e.pairDraw.Some? ==> Body(e.pairDraw.value) in DrawnBody(e.pairDraw);
  }

  lemma StepSharedCode(env: Env, s: State, e: Event)
    requires Faithful(env.codecs)
    ensures SharedCodeFrom(s, Step(env, s, e), if e.Enter? || e.Rotate? then e.pairDraw else None)
  {
    match e
    case Enter(_, _, _, _, _) => EnterCode(env, s, e);
    case Rotate(_, _) =>
    case Reset(_) =>
    case _ =>
      StepTouches(env, s, e);
      KeysDistinct();
  }

  lemma CoinedLater(code: string, bodies: set<string>, bodies': set<string>)
    requires Coined(code, bodies) && bodies <= bodies'
    ensures Coined(code, bodies')
  {
  }

  lemma CoinedNow(draw: Draw, bodies: set<string>)
    requires draw.Some? && Body(draw.value) in bodies
    ensures Coined(CodeOf(draw.value), bodies)
  {
  }

  lemma StepCodes(env: Env, s: State, e: Event, past: History)
    requires Faithful(env.codecs) && Extends(s.hist, past) && CodesWithin(env, s, past) && Fresh(s, e)
    ensures CodesWithin(env, Step(env, s, e), past)
  {
    var s' := Step(env, s, e);
    var coined, coined' := s.hist.bodies - past.bodies, s'.hist.bodies - past.bodies;
    var draw: Draw := if e.Enter? || e.Rotate? || e.Add? then e.pairDraw else None;
    assert s.hist.bodies <= s'.hist.bodies;
    assert draw.Some? ==> Body(draw.value) in DrawnBody(draw) && Body(draw.value) !in past.bodies;
    StepSharedCode(env, s, e);
    if PAIRING_CODE in s'.docs {
      if PAIRING_CODE in s.docs && s'.docs[PAIRING_CODE] == s.docs[PAIRING_CODE] {
        CoinedLater(s.docs[PAIRING_CODE], coined, coined');
      } else {
        CoinedNow(draw, coined');
      }
    }
    forall n | n in Principals(env.codecs, s'.docs)
      ensures Coined(Principals(env.codecs, s'.docs)[n].code, coined')
    {
      StepRecords(env, s, e, n);
      var before := Principals(env.codecs, s.docs);
      if n in before && Principals(env.codecs, s'.docs)[n] == before[n] {
        CoinedLater(before[n].code, coined, coined');
      } else {
        CoinedNow(draw, coined');
      }
    }
  }

  lemma StepStored(env: Env, s: State, e: Event, past: History)
    requires Faithful(env.codecs) && StoredSince(env, s, past) && Fresh(s, e)
    ensures StoredSince(env, Step(env, s, e), past)
  {
    StepExtends(env, s, e, past);
    StepStoredKey(env, s, e, past);
    StepTokenKeys(env, s, e);
    StepClientKeys(env, s, e);
    StepCodes(env, s, e, past);
  }

  lemma StepProcess(env: Env, s: State, e: Event, past: History)
    requires Extends(s.hist, past) && StoredKeySince(s, past) && ProcessSince(s, past) && Fresh(s, e)
    ensures ProcessSince(Step(env, s, e), past)
  {
    if e.Restart? {
      RestartKeys(env, s, e, past);
    } else {
      var s' := Step(env, s, e);
      assert s'.hist.keys == s.hist.keys;
      assert s'.proc.Some? ==> s.proc.Some? && s'.proc.value.issuer == s.proc.value.issuer;
      assert Codes(s').Keys <= Codes(s).Keys + (s'.hist.used - s.hist.used);
    }
  }

  lemma StepRecorded(env: Env, s: State, e: Event)
    requires KeysRecorded(s) && (s.proc.Some? ==> s.proc.value.issuer.key in s.hist.keys)
    ensures KeysRecorded(Step(env, s, e))
  {
    StepExtends(env, s, e, s.hist);
  }

  lemma {:induction false} RunStored(env: Env, s: State, es: seq<Event>, past: History)
    requires Faithful(env.codecs) && StoredSince(env, s, past) && FreshRun(env, s, es)
    ensures StoredSince(env, Run(env, s, es), past)
    decreases |es|
  {
    if es != [] {
      RunStored(env, s, es[..|es| - 1], past);
      StepStored(env, Run(env, s, es[..|es| - 1]), es[|es| - 1], past);
    }
  }

  lemma {:induction false} RunProcess(env: Env, s: State, es: seq<Event>, past: History)
    requires Faithful(env.codecs) && StoredSince(env, s, past) && ProcessSince(s, past) && FreshRun(env, s, es)
    ensures ProcessSince(Run(env, s, es), past)
    decreases |es|
  {
    if es != [] {
      RunStored(env, s, es[..|es| - 1], past);
      RunProcess(env, s, es[..|es| - 1], past);
      StepProcess(env, Run(env, s, es[..|es| - 1]), es[|es| - 1], past);
    }
  }

  lemma {:induction false} RunRecorded(env: Env, start: int, es: seq<Event>)
    requires Faithful(env.codecs) && FreshRun(env, Initial(start), es)
    ensures var s := Run(env, Initial(start), es);
      StoredSince(env, s, NOTHING_YET) && ProcessSince(s, NOTHING_YET) && KeysRecorded(s)
    decreases |es|
  {
    InitialSince(env, start);
    if es != [] {
      RunRecorded(env, start, es[..|es| - 1]);
      StepRecorded(env, Run(env, Initial(start), es[..|es| - 1]), es[|es| - 1]);
    }
    RunStored(env, Initial(start), es, NOTHING_YET);
    RunProcess(env, Initial(start), es, NOTHING_YET);
  }

  lemma InitialSince(env: Env, start: int)
    ensures StoredSince(env, Initial(start), NOTHING_YET) && ProcessSince(Initial(start), NOTHING_YET)
  {
    assert Tokens(env.codecs, map[]) == map[] && Registered(env.codecs, map[]) == map[] && Principals(env.codecs, map[]) == map[];
  }

  /** The input is accepted as some stored code. */
  ghost predicate EntersStored(env: Env, docs: map<string, string>, input: string) {
    var n, records := NormalizePairing(input), Principals(env.codecs, docs);
    || (PAIRING_CODE in docs && Matches(n, docs[PAIRING_CODE]))
    || exists name :: name in records && Matches(n, records[name].code)
  }

  /** Codes with different bodies have no spelling in common. */
  lemma CoinedApart(input: string, code: string, code': string, bodies: set<string>, bodies': set<string>)
    requires Coined(code, bodies) && Coined(code', bodies') && bodies !! bodies'
    ensures !(Matches(NormalizePairing(input), code) && Matches(NormalizePairing(input), code'))
  {
    var b :| |b| == DRAW_BYTES && CodeOf(b) == code && Body(b) in bodies;
    var b' :| |b'| == DRAW_BYTES && CodeOf(b') == code' && Body(b') in bodies';
    MatchesIsEnters(input, b);
    MatchesIsEnters(input, b');
    AtMostOneEntered(input, b, b');
  }

  lemma StoredApart(env: Env, s: State, s': State, input: string)
    requires CodesWithin(env, s, NOTHING_YET) && CodesWithin(env, s', s.hist)
    requires EntersStored(env, s.docs, input)
    ensures !EntersStored(env, s'.docs, input)
  {
    var n := NormalizePairing(input);
    var code :| Coined(code, s.hist.bodies - {}) && Matches(n, code);
    forall code' | Coined(code', s'.hist.bodies - s.hist.bodies)
      ensures !Matches(n, code')
    {
      CoinedApart(input, code, code', s.hist.bodies - {}, s'.hist.bodies - s.hist.bodies);
    }
  }

  /** Nothing that was in force in s is in force in s', and no token signed with a key of
      before s is accepted, whenever it was signed. */
  ghost predicate Forgotten(env: Env, s: State, s': State) {
    && Extends(s'.hist, s.hist) && KeysRecorded(s)
    && (forall j, now :: 0 <= j < |s'.hist.mints| && s'.hist.mints[j].token.key in s.hist.keys && s'.proc.Some? ==>
          Protect(s'.proc.value.issuer, Some(s'.hist.mints[j].token), now).None?)
    && Tokens(env.codecs, s.docs).Keys !! Tokens(env.codecs, s'.docs).Keys
    && Codes(s).Keys !! Codes(s').Keys
    && Registered(env.codecs, s.docs).Keys !! Registered(env.codecs, s'.docs).Keys
    && (forall input :: EntersStored(env, s.docs, input) ==> !EntersStored(env, s'.docs, input))
  }

  lemma ApartForgets(env: Env, s: State, s': State)
    requires StoredSince(env, s, NOTHING_YET) && ProcessSince(s, NOTHING_YET) && KeysRecorded(s)
    requires StoredSince(env, s', s.hist) && ProcessSince(s', s.hist)
    ensures Forgotten(env, s, s')
  {
    forall input | EntersStored(env, s.docs, input)
      ensures !EntersStored(env, s'.docs, input)
    {
      StoredApart(env, s, s', input);
    }
  }

  lemma ResetStored(env: Env, s: State, faults: seq<bool>)
    requires !Disk(s.docs, faults).Fails()
    ensures StoredSince(env, Step(env, s, Reset(faults)), s.hist)
  {
    assert Tokens(env.codecs, map[]) == map[] && Registered(env.codecs, map[]) == map[] && Principals(env.codecs, map[]) == map[];
  }

  /** A successful reset, any steps of the running server and the operator, a restart, and
      any steps after it. */
  ghost predicate ResetRun(env: Env, s: State, faults: seq<bool>, between: seq<Event>, restart: Event, after: seq<Event>) {
    && !Disk(s.docs, faults).Fails() && restart.Restart?
    && FreshRun(env, Step(env, s, Reset(faults)), between + [restart] + after)
  }

  function ResetEnds(env: Env, s: State, faults: seq<bool>, between: seq<Event>, restart: Event, after: seq<Event>): State {
    Run(env, Step(env, s, Reset(faults)), between + [restart] + after)
  }

  /** The run piece by piece: before the restart, the restart, after it. */
  lemma ResetPieces(env: Env, s: State, faults: seq<bool>, between: seq<Event>, restart: Event, after: seq<Event>)
    ensures var r := Step(env, s, Reset(faults));
      var b := Run(env, r, between);
      && ResetEnds(env, s, faults, between, restart, after) == Run(env, Step(env, b, restart), after)
      && (ResetRun(env, s, faults, between, restart, after) <==>
            && !Disk(s.docs, faults).Fails() && restart.Restart?
            && FreshRun(env, r, between) && Fresh(b, restart) && FreshRun(env, Step(env, b, restart), after))
  {
    var r := Step(env, s, Reset(faults));
    RunAppend(env, r, between + [restart], after);
    RunAppend(env, r, between, [restart]);
    RunOne(env, Run(env, r, between), restart);
  }

  /** Once the store has been reset and the server restarted, whatever it did in between, no
      later state of any run accepts an access token signed with a key of before, holds a
      refresh token, code or client id of before, or matches a pairing code of before; until
      the restart the running process keeps its key and its pending codes. */
  lemma ResetForgets(env: Env, start: int, before: seq<Event>, faults: seq<bool>, between: seq<Event>, restart: Event, after: seq<Event>)
    requires Faithful(env.codecs) && FreshRun(env, Initial(start), before)
    requires ResetRun(env, Run(env, Initial(start), before), faults, between, restart, after)
    ensures var s := Run(env, Initial(start), before);
      Step(env, s, Reset(faults)).proc == s.proc && Forgotten(env, s, ResetEnds(env, s, faults, between, restart, after))
  {
    var s := Run(env, Initial(start), before);
    var r := Step(env, s, Reset(faults));
    var b := Run(env, r, between);
    RunRecorded(env, start, before);
    ResetPieces(env, s, faults, between, restart, after);
    ResetStored(env, s, faults);
    RunStored(env, r, between, s.hist);
    StepStored(env, b, restart, s.hist);
    RestartKeys(env, b, restart, s.hist);
    RunStored(env, Step(env, b, restart), after, s.hist);
    RunProcess(env, Step(env, b, restart), after, s.hist);
    ApartForgets(env, s, ResetEnds(env, s, faults, between, restart, after));
  }

  // Authority, which is not forgotten by itself.

  /** A code or request of before that can still end in tokens. */
  ghost predicate Outstanding(env: Env, s: State) {
    exists c: Credential :: !c.Token? && Lively(env, s, c)
  }

  /** Nothing lively descends from the first n approvals. */
  ghost predicate Cleared(env: Env, s: State, n: nat) {
    forall c, a: nat :: a < n && Descends(LedgerOf(env, s), c, a) ==> !Lively(env, s, c)
  }

  lemma StepCleared(env: Env, s: State, e: Event, n: nat)
    requires Faithful(env.codecs) && Inv(env, s) && Fresh(s, e) && Cleared(env, s, n) && n <= |s.hist.approvals|
    ensures Cleared(env, Step(env, s, e), n)
  {
    forall c', a: nat | a < n && Descends(LedgerOf(env, Step(env, s, e)), c', a) && Lively(env, Step(env, s, e), c')
      ensures false
    {
      var c := LivelyFrom(env, s, e, c', a);
    }
  }

  lemma ApprovalsGrow(env: Env, s: State, e: Event)
    ensures |s.hist.approvals| <= |Step(env, s, e).hist.approvals|
  {
  }

  lemma {:induction false} RunCleared(env: Env, s: State, es: seq<Event>, n: nat)
    requires Faithful(env.codecs) && Inv(env, s) && FreshRun(env, s, es) && Cleared(env, s, n) && n <= |s.hist.approvals|
    ensures Cleared(env, Run(env, s, es), n) && n <= |Run(env, s, es).hist.approvals|
    decreases |es|
  {
    if es != [] {
      var s' := Run(env, s, es[..|es| - 1]);
      RunCleared(env, s, es[..|es| - 1], n);
      RunKeeps(env, s, es[..|es| - 1]);
      StepCleared(env, s', es[|es| - 1], n);
      ApprovalsGrow(env, s', es[|es| - 1]);
    }
  }

  /** A live refresh token of an approval made before s. */
  ghost predicate Outlives(env: Env, s: State, s': State, k: string) {
    k in Tokens(env.codecs, s'.docs) && LineageOf(s', k) < |s.hist.approvals|
  }

  lemma ResetClears(env: Env, s: State, faults: seq<bool>)
    requires Inv(env, s) && !Disk(s.docs, faults).Fails() && !Outstanding(env, s)
    ensures Cleared(env, Step(env, s, Reset(faults)), |s.hist.approvals|)
  {
    var r := Step(env, s, Reset(faults));
    assert Tokens(env.codecs, map[]) == map[];
    forall c, a: nat | a < |s.hist.approvals| && Descends(LedgerOf(env, r), c, a) && Lively(env, r, c)
      ensures false
    {
      assert Lively(env, s, c);
    }
  }

  lemma NothingOutlives(env: Env, s: State, faults: seq<bool>, between: seq<Event>, restart: Event, after: seq<Event>, k: string)
    requires Faithful(env.codecs) && Inv(env, s) && !Outstanding(env, s) && ResetRun(env, s, faults, between, restart, after)
    ensures !Outlives(env, s, ResetEnds(env, s, faults, between, restart, after), k)
  {
    var r, s', es := Step(env, s, Reset(faults)), ResetEnds(env, s, faults, between, restart, after), between + [restart] + after;
    ResetKeeps(env, s, faults);
    ResetClears(env, s, faults);
    RunCleared(env, r, es, |s.hist.approvals|);
    RunKeeps(env, r, es);
    if k in Tokens(env.codecs, s'.docs) {
      assert k in LedgerOf(env, s').tokens;
      assert Descends(LedgerOf(env, s'), Token(k), LineageOf(s', k));
    }
  }

  lemma OriginMadeBefore(env: Env, s: State, c: Credential)
    requires Inv(env, s) && Lively(env, s, c)
    ensures OriginOf(s, c) < |s.hist.approvals|
  {
    var l := LedgerOf(env, s);
    match c
    case Token(k) => assert k in l.tokens;
    case Code(k) => assert k in l.codes;
    case Request(i) => assert FlightMatches(l.flights[i], l.approvals);
  }

  lemma RestartKeepsToken(env: Env, s: State, faults: seq<bool>, between: seq<Event>, restart: Event, k: string)
    requires !Disk(s.docs, faults).Fails() && restart.Restart?
    requires FreshRun(env, Step(env, s, Reset(faults)), between) && Fresh(Run(env, Step(env, s, Reset(faults)), between), restart)
    requires Outlives(env, s, Run(env, Step(env, s, Reset(faults)), between), k)
    ensures var s', b := ResetEnds(env, s, faults, between, restart, []), Run(env, Step(env, s, Reset(faults)), between);
      && ResetRun(env, s, faults, between, restart, [])
      && Outlives(env, s, s', k) && Tokens(env.codecs, s'.docs)[k] == Tokens(env.codecs, b.docs)[k]
  {
    ResetPieces(env, s, faults, between, restart, []);
    RestartLosesCodes(env, Run(env, Step(env, s, Reset(faults)), between), restart.cfg, restart.keyDraw, restart.faults);
  }

  /** The failing run: a code or request the running server still holds at the reset is
      carried through to a refresh token, no principal being added; and every restart then
      leaves the token live, with the client, scope and principal of the old approval. */
  lemma OutstandingOutlives(env: Env, s: State, faults: seq<bool>, c: Credential) returns (between: seq<Event>, k: string)
    requires Faithful(env.codecs) && Inv(env, s) && !Disk(s.docs, faults).Fails() && Lively(env, s, c) && !c.Token?
    ensures NoAdds(between)
    ensures forall restart: Event :: restart.Restart? && Fresh(Run(env, Step(env, s, Reset(faults)), between), restart) ==>
      var s' := ResetEnds(env, s, faults, between, restart, []);
      && ResetRun(env, s, faults, between, restart, [])
      && Outlives(env, s, s', k) && Tokens(env.codecs, s'.docs)[k] == Promise(s, c)
  {
    var r := Step(env, s, Reset(faults));
    assert Lively(env, r, c) && TokensReadable(env, r.docs);
    between, k := BecomesRefreshToken(env, r, c);
    OriginMadeBefore(env, s, c);
    var b := Run(env, r, between);
    forall restart: Event | restart.Restart? && Fresh(b, restart)
      ensures ResetRun(env, s, faults, between, restart, [])
      ensures Outlives(env, s, ResetEnds(env, s, faults, between, restart, []), k)
      ensures Tokens(env.codecs, ResetEnds(env, s, faults, between, restart, []).docs)[k] == Promise(s, c)
    {
      RestartKeepsToken(env, s, faults, between, restart, k);
    }
  }

  /** After a reset and a restart no live refresh token descends from an approval of before,
      in every run, exactly when at the reset no redeemable unexpired code was pending and no
      request under way. */
  lemma ResetExact(env: Env, s: State, faults: seq<bool>)
    requires Faithful(env.codecs) && Reachable(env, s) && !Disk(s.docs, faults).Fails()
    ensures (forall between, restart, after, k :: ResetRun(env, s, faults, between, restart, after) ==>
                !Outlives(env, s, ResetEnds(env, s, faults, between, restart, after), k)) <==>
            !Outstanding(env, s)
  {
    ReachableInv(env, s);
    if c: Credential :| !c.Token? && Lively(env, s, c) {
      var between, k := OutstandingOutlives(env, s, faults, c);
      var restart := Restart(Config("", "", 0, []), None, []);
      assert Fresh(Run(env, Step(env, s, Reset(faults)), between), restart);
      assert Outlives(env, s, ResetEnds(env, s, faults, between, restart, []), k);
    } else {
      forall between, restart, after, k | ResetRun(env, s, faults, between, restart, after)
        ensures !Outlives(env, s, ResetEnds(env, s, faults, between, restart, after), k)
      {
        NothingOutlives(env, s, faults, between, restart, after, k);
      }
    }
  }
}
