/** Removing a principal: from when on, and under exactly what condition, it holds nothing
    any more, and when its last access token dies. */
module Revocation {
  import opened Wrappers
  import opened SecretStores
  import opened MapStores
  import opened Base64Url
  import opened Records
  import opened RefreshTokens
  import opened AccessTokens
  import opened PairingCodes
  import opened Pairings
  import opened Pkce
  import opened Handlers
  import opened Machine
  import opened Lineage
  import opened Prospects

  function Named(env: Env, s: State): map<string, PrincipalRecord> {
    Principals(env.codecs, s.docs)
  }

  function PrincipalOf(f: Flight): string {
    match f
    case Entered(g, _) => g.principal.name
    case Redeemed(g, _) => g.principal.name
    case Signed(g, _) => g.principal.name
  }

  /** A pending code of n's that can still be redeemed. */
  ghost predicate LiveCode(env: Env, s: State, n: string, k: string) {
    Lively(env, s, Code(k)) && Codes(s)[k].principal.name == n
  }

  /** A request under way for n that can still end in tokens. */
  ghost predicate LiveRequest(env: Env, s: State, n: string, i: nat) {
    Lively(env, s, Request(i)) && PrincipalOf(s.flights[i]) == n
  }

  /** What removing n does not reach. */
  ghost predicate Threat(env: Env, s: State, n: string) {
    (exists k :: LiveCode(env, s, n, k)) || exists i :: LiveRequest(env, s, n, i)
  }

  /** No pairing record, no refresh token. */
  ghost predicate Removed(env: Env, s: State, n: string) {
    n !in Named(env, s) && forall k :: k in Tokens(env.codecs, s.docs) ==> Tokens(env.codecs, s.docs)[k].principal.name != n
  }

  ghost predicate Quiet(env: Env, s: State, n: string) {
    n != "" && Removed(env, s, n) && !Threat(env, s, n)
  }

  predicate Adds(e: Event, n: string) {
    e.Add? && e.name == n
  }

  predicate NeverAdds(es: seq<Event>, n: string) {
    forall i :: 0 <= i < |es| ==> !Adds(es[i], n)
  }

  lemma RecordsElsewhere(env: Env, docs: map<string, string>, docs': map<string, string>, key: string)
    requires SameExcept(docs, docs', key) && key in {PAIRING_CODE, CLIENTS, SIGNING_KEY, REFRESH_TOKENS}
    ensures Principals(env.codecs, docs') == Principals(env.codecs, docs)
  {
    KeysDistinct();
    ViewFrame(env.codecs.principals, docs, docs', key, PRINCIPALS);
  }

  /** A step that adds no record, token, code or request of n's leaves it quiet. */
  lemma StaysQuiet(env: Env, s: State, s': State, n: string)
    requires Quiet(env, s, n) && s.now <= s'.now
    requires s'.proc.Some? && s'.flights != map[] ==> s.proc.Some?
    requires n !in Named(env, s')
    requires var t, t' := Tokens(env.codecs, s.docs), Tokens(env.codecs, s'.docs);
      forall k :: k in t' && !(k in t && t'[k] == t[k]) ==> t'[k].principal.name != n
    requires forall k :: k in Codes(s') && !(k in Codes(s) && Codes(s')[k] == Codes(s)[k]) ==>
      Codes(s')[k].principal.name != n || !Redeemable(env, Codes(s')[k])
    requires forall i :: i in s'.flights && !(i in s.flights && s'.flights[i] == s.flights[i]) ==>
      PrincipalOf(s'.flights[i]) != n
    ensures Quiet(env, s', n)
  {
    forall k
      ensures !LiveCode(env, s', n, k)
    {
      assert !LiveCode(env, s, n, k);
    }
    forall i
      ensures !LiveRequest(env, s', n, i)
    {
      assert !LiveRequest(env, s, n, i);
    }
  }

  lemma QuietElsewhere(env: Env, s: State, s': State, n: string, key: string)
    requires Quiet(env, s, n) && s'.proc == s.proc && s'.flights == s.flights && s'.now == s.now
    requires SameExcept(s.docs, s'.docs, key) && key in {PAIRING_CODE, CLIENTS, SIGNING_KEY}
    ensures Quiet(env, s', n)
  {
    TokensElsewhere(env, s.docs, s'.docs, key);
    RecordsElsewhere(env, s.docs, s'.docs, key);
    StaysQuiet(env, s, s', n);
  }

  lemma RegisterQuiet(env: Env, s: State, n: string, uris: seq<string>, name: string, draw: Option<string>, faults: seq<bool>)
    requires Faithful(env.codecs) && Quiet(env, s, n)
    ensures Quiet(env, DoRegister(env, s, uris, name, draw, faults), n)
  {
    if draw.Some? {
      MutateEffect(env.codecs.clients, Disk(s.docs, faults), CLIENTS, Put(draw.value, Client(draw.value, uris, name)));
    }
    QuietElsewhere(env, s, DoRegister(env, s, uris, name, draw, faults), n, CLIENTS);
  }

  /** Whoever enters a code now is the operator or has a record. */
  lemma EnteredHasRecord(env: Env, d: Disk, p: AuthParams, input: string, draw: Draw)
    ensures var (d', checked) := CheckSubmission(env, d, p, input, draw);
      checked.Approved? && checked.principal != OPERATOR ==> checked.principal.name in Principals(env.codecs, d.docs)
  {
    var d1 := ValidateClientRedirect(env, d, p).0;
    CheckSubmissionDocs(env, d, p, input, draw);
    RecordsElsewhere(env, d.docs, CheckSubmission(env, d, p, input, draw).0.docs, PAIRING_CODE);
    IdentifySource(env.codecs, d1, input, draw);
  }

  lemma EnterQuiet(env: Env, s: State, n: string, id: nat, p: AuthParams, input: string, draw: Draw, faults: seq<bool>)
    requires Quiet(env, s, n)
    ensures Quiet(env, DoEnter(env, s, id, p, input, draw, faults), n)
  {
    if s.proc.Some? && id !in s.flights && s.proc.value.cfg.Settled() {
      var s' := DoEnter(env, s, id, p, input, draw, faults);
      CheckSubmissionDocs(env, Disk(s.docs, faults), p, input, draw);
      TokensElsewhere(env, s.docs, s'.docs, PAIRING_CODE);
      RecordsElsewhere(env, s.docs, s'.docs, PAIRING_CODE);
      EnteredHasRecord(env, Disk(s.docs, faults), p, input, draw);
      StaysQuiet(env, s, s', n);
    }
  }

  lemma SendCodeQuiet(env: Env, s: State, n: string, id: nat, draw: Option<string>)
    requires Quiet(env, s, n)
    ensures Quiet(env, DoSendCode(env, s, id, draw), n)
  {
    if s.proc.Some? && id in s.flights && s.flights[id].Entered? {
      var s' := DoSendCode(env, s, id, draw);
      assert !LiveRequest(env, s, n, id);
      if draw.Some? {
        var g, g' := s.flights[id].code, Codes(s')[draw.value];
        if Redeemable(env, g') {
          var v :| VerifyPKCE(env.sha, g'.codeChallenge, g'.codeChallengeMethod, v);
          assert VerifyPKCE(env.sha, g.codeChallenge, g.codeChallengeMethod, v);
        }
      }
      StaysQuiet(env, s, s', n);
    }
  }

  lemma RedeemQuiet(env: Env, s: State, n: string, id: nat, r: CodeRequest)
    requires Quiet(env, s, n)
    ensures Quiet(env, DoRedeem(env, s, id, r), n)
  {
    if s.proc.Some? && id !in s.flights {
      assert !LiveCode(env, s, n, r.code);
      StaysQuiet(env, s, DoRedeem(env, s, id, r), n);
    }
  }

  lemma RefreshQuiet(env: Env, s: State, n: string, id: nat, token: string, clientID: string, faults: seq<bool>)
    requires Faithful(env.codecs) && Quiet(env, s, n)
    ensures Quiet(env, DoRefresh(env, s, id, token, clientID, faults), n)
  {
    if s.proc.Some? && id !in s.flights {
      var s' := DoRefresh(env, s, id, token, clientID, faults);
      ExchangeEffect(env, Disk(s.docs, faults), token);
      RecordsElsewhere(env, s.docs, s'.docs, REFRESH_TOKENS);
      StaysQuiet(env, s, s', n);
    }
  }

  lemma SignQuiet(env: Env, s: State, n: string, id: nat, signs: bool)
    requires Quiet(env, s, n)
    ensures Quiet(env, DoSign(env, s, id, signs), n)
  {
    if s.proc.Some? && id in s.flights && s.flights[id].Redeemed? {
      assert !LiveRequest(env, s, n, id);
      StaysQuiet(env, s, DoSign(env, s, id, signs), n);
    }
  }

  lemma SendTokensQuiet(env: Env, s: State, n: string, id: nat, draw: Option<string>, faults: seq<bool>)
    requires Faithful(env.codecs) && Quiet(env, s, n)
    ensures Quiet(env, DoSendTokens(env, s, id, draw, faults), n)
  {
    if s.proc.Some? && id in s.flights && s.flights[id].Signed? {
      var s' := DoSendTokens(env, s, id, draw, faults);
      assert !LiveRequest(env, s, n, id);
      IssueEffect(env, Disk(s.docs, faults), s.flights[id].grant, draw);
      RecordsElsewhere(env, s.docs, s'.docs, REFRESH_TOKENS);
      StaysQuiet(env, s, s', n);
    }
  }

  lemma AddQuiet(env: Env, s: State, n: string, name: string, binding: map<string, string>, draw: Draw, faults: seq<bool>)
    requires Faithful(env.codecs) && Quiet(env, s, n) && name != n
    ensures Quiet(env, DoAdd(env, s, name, binding, draw, faults), n)
  {
    var s' := DoAdd(env, s, name, binding, draw, faults);
    if draw.Some? {
      MutateEffect(env.codecs.principals, Disk(s.docs, faults), PRINCIPALS, Put(name, PrincipalRecord(CodeOf(draw.value), binding)));
    }
    TokensElsewhere(env, s.docs, s'.docs, PRINCIPALS);
    StaysQuiet(env, s, s', n);
  }

  /** Dropping a record removes it, or on an error changes nothing. */
  lemma DropRecordEffect(env: Env, d: Disk, name: string)
    requires Faithful(env.codecs)
    ensures var (d', r) := DropRecord(env.codecs, d, name);
      var before, after := Principals(env.codecs, d.docs), Principals(env.codecs, d'.docs);
      && SameExcept(d.docs, d'.docs, PRINCIPALS)
      && (r.Ok? ==> after == before - {name} && (r.value.Some? <==> name in before))
      && (r.Failed? ==> d'.docs == d.docs)
  {
    MutateEffect(env.codecs.principals, d, PRINCIPALS, Take(name));
  }

  lemma RemoveRecordQuiet(env: Env, s: State, n: string, name: string, faults: seq<bool>)
    requires Faithful(env.codecs) && Quiet(env, s, n)
    ensures Quiet(env, Step(env, s, RemoveRecord(name, faults)), n)
  {
    var s' := Step(env, s, RemoveRecord(name, faults));
    DropRecordEffect(env, Disk(s.docs, faults), name);
    TokensElsewhere(env, s.docs, s'.docs, PRINCIPALS);
    StaysQuiet(env, s, s', n);
  }

  lemma RemoveTokensQuiet(env: Env, s: State, n: string, name: string, faults: seq<bool>)
    requires Faithful(env.codecs) && Quiet(env, s, n)
    ensures Quiet(env, Step(env, s, RemoveTokens(name, faults)), n)
  {
    var s' := Step(env, s, RemoveTokens(name, faults));
    DropEffect(env, Disk(s.docs, faults), name);
    RecordsElsewhere(env, s.docs, s'.docs, REFRESH_TOKENS);
    StaysQuiet(env, s, s', n);
  }

  lemma RestartQuiet(env: Env, s: State, n: string, cfg: Config, draw: Option<seq<byte>>, faults: seq<bool>)
    requires Quiet(env, s, n)
    ensures Quiet(env, DoRestart(env, s, cfg, draw, faults), n)
  {
    var s' := DoRestart(env, s, cfg, draw, faults);
    TokensElsewhere(env, s.docs, s'.docs, SIGNING_KEY);
    RecordsElsewhere(env, s.docs, s'.docs, SIGNING_KEY);
    StaysQuiet(env, s, s', n);
  }

  lemma ResetQuiet(env: Env, s: State, n: string, faults: seq<bool>)
    requires Quiet(env, s, n)
    ensures Quiet(env, Step(env, s, Reset(faults)), n)
  {
    StaysQuiet(env, s, Step(env, s, Reset(faults)), n);
  }

  lemma TickQuiet(env: Env, s: State, n: string, elapsed: nat)
    requires Quiet(env, s, n)
    ensures Quiet(env, Step(env, s, Tick(elapsed)), n)
  {
    StaysQuiet(env, s, Step(env, s, Tick(elapsed)), n);
  }

  predicate IsRequest(e: Event) {
    e.Register? || e.Enter? || e.SendCode? || e.Redeem? || e.Refresh? || e.Sign? || e.SendTokens?
  }

  lemma RequestQuiet(env: Env, s: State, n: string, e: Event)
    requires Faithful(env.codecs) && Quiet(env, s, n) && IsRequest(e)
    ensures Quiet(env, Step(env, s, e), n)
  {
    match e
    case Register(uris, name, draw, faults) => RegisterQuiet(env, s, n, uris, name, draw, faults);
    case Enter(id, p, input, draw, faults) => EnterQuiet(env, s, n, id, p, input, draw, faults);
    case SendCode(id, draw) => SendCodeQuiet(env, s, n, id, draw);
    case Redeem(id, r) => RedeemQuiet(env, s, n, id, r);
    case Refresh(id, token, clientID, faults) => RefreshQuiet(env, s, n, id, token, clientID, faults);
    case Sign(id, signs) => SignQuiet(env, s, n, id, signs);
    case SendTokens(id, draw, faults) => SendTokensQuiet(env, s, n, id, draw, faults);
  }

  lemma StepQuiet(env: Env, s: State, n: string, e: Event)
    requires Faithful(env.codecs) && Quiet(env, s, n) && !Adds(e, n)
    ensures Quiet(env, Step(env, s, e), n)
  {
    match e
    case Add(name, binding, draw, faults) => AddQuiet(env, s, n, name, binding, draw, faults);
    case RemoveRecord(name, faults) => RemoveRecordQuiet(env, s, n, name, faults);
    case RemoveTokens(name, faults) => RemoveTokensQuiet(env, s, n, name, faults);
    case Rotate(draw, faults) => QuietElsewhere(env, s, DoRotate(env, s, draw, faults), n, PAIRING_CODE);
    case Reset(faults) => ResetQuiet(env, s, n, faults);
    case Restart(cfg, draw, faults) => RestartQuiet(env, s, n, cfg, draw, faults);
    case Tick(elapsed) => TickQuiet(env, s, n, elapsed);
    case _ => RequestQuiet(env, s, n, e);
  }

  lemma {:induction false} RunQuiet(env: Env, s: State, n: string, es: seq<Event>)
    requires Faithful(env.codecs) && Quiet(env, s, n) && NeverAdds(es, n)
    ensures Quiet(env, Run(env, s, es), n)
    decreases |es|
  {
    if es != [] {
      RunQuiet(env, s, n, es[..|es| - 1]);
      StepQuiet(env, Run(env, s, es[..|es| - 1]), n, es[|es| - 1]);
    }
  }

  // When the last access token dies.

  /** No process of the run was configured with a lifetime over l. */
  predicate LifetimesWithin(es: seq<Event>, l: int) {
    forall i :: 0 <= i < |es| && es[i].Restart? && Settle(es[i].cfg).Some? ==> Settle(es[i].cfg).value.ttl <= l
  }

  ghost predicate MintsWithin(s: State, l: int) {
    && (s.proc.Some? ==> s.proc.value.issuer.ttl <= l)
    && (forall j :: 0 <= j < |s.hist.mints| ==>
          s.hist.mints[j].at <= s.now && s.hist.mints[j].token.claims.expiresAt <= s.hist.mints[j].at + l)
  }

  lemma StepMints(env: Env, s: State, e: Event, l: int)
    requires MintsWithin(s, l) && LifetimesWithin([e], l)
    ensures MintsWithin(Step(env, s, e), l)
  {
    assert e == [e][0];
  }

  lemma {:induction false} RunMints(env: Env, s: State, es: seq<Event>, l: int)
    requires MintsWithin(s, l) && LifetimesWithin(es, l)
    ensures MintsWithin(Run(env, s, es), l)
    decreases |es|
  {
    if es != [] {
      RunMints(env, s, es[..|es| - 1], l);
      StepMints(env, Run(env, s, es[..|es| - 1]), es[|es| - 1], l);
    }
  }

  /** Access tokens signed for n. */
  predicate MintedFor(m: Mint, n: string) {
    m.token.claims.principal.name == n
  }

  /** A later state's tokens for n were all signed before. */
  ghost predicate NoNewMints(s: State, s': State, n: string) {
    && |s.hist.mints| <= |s'.hist.mints|
    && (forall j :: 0 <= j < |s.hist.mints| ==> s'.hist.mints[j] == s.hist.mints[j])
    && (forall j :: |s.hist.mints| <= j < |s'.hist.mints| ==> !MintedFor(s'.hist.mints[j], n))
  }

  lemma StepNoNewMints(env: Env, s: State, e: Event, n: string)
    requires Quiet(env, s, n)
    ensures NoNewMints(s, Step(env, s, e), n)
  {
    if e.Sign? {
      assert !LiveRequest(env, s, n, e.id);
    }
  }

  lemma {:induction false} RunNoNewMints(env: Env, s: State, es: seq<Event>, n: string)
    requires Faithful(env.codecs) && Quiet(env, s, n) && NeverAdds(es, n)
    ensures NoNewMints(s, Run(env, s, es), n)
    decreases |es|
  {
    if es != [] {
      var front := es[..|es| - 1];
      RunNoNewMints(env, s, front, n);
      RunQuiet(env, s, n, front);
      StepNoNewMints(env, Run(env, s, front), es[|es| - 1], n);
    }
  }

  /** n holds nothing in s', and no issuer accepts an access token of n's from limit on. */
  ghost predicate Revoked(env: Env, s': State, n: string, limit: int) {
    && Removed(env, s', n)
    && (forall j, i: Issuer, now :: 0 <= j < |s'.hist.mints| && MintedFor(s'.hist.mints[j], n) && now >= limit ==>
          i.Validate(s'.hist.mints[j].token, now).None?)
  }

  lemma QuietRevokes(env: Env, s: State, n: string, after: seq<Event>, l: int)
    requires Faithful(env.codecs) && MintsWithin(s, l) && Quiet(env, s, n) && NeverAdds(after, n)
    ensures Revoked(env, Run(env, s, after), n, s.now + l)
  {
    RunQuiet(env, s, n, after);
    RunNoNewMints(env, s, after, n);
  }

  // What removal establishes.

  lemma StepNoRecord(env: Env, s: State, e: Event, n: string)
    requires Faithful(env.codecs) && n !in Named(env, s) && !Adds(e, n)
    ensures n !in Named(env, Step(env, s, e))
  {
    match e
    case Add(_, _, _, _) => AddTouches(env, s, e);
    case RemoveRecord(name, faults) => DropRecordEffect(env, Disk(s.docs, faults), name);
    case Reset(_) =>
    case _ =>
      StepTouches(env, s, e);
      KeysDistinct();
      ViewFrame(env.codecs.principals, s.docs, Step(env, s, e).docs, DocOf(e), PRINCIPALS);
  }

  lemma {:induction false} RunNoRecord(env: Env, s: State, es: seq<Event>, n: string)
    requires Faithful(env.codecs) && n !in Named(env, s) && NeverAdds(es, n)
    ensures n !in Named(env, Run(env, s, es))
    decreases |es|
  {
    if es != [] {
      RunNoRecord(env, s, es[..|es| - 1], n);
      StepNoRecord(env, Run(env, s, es[..|es| - 1]), es[|es| - 1], n);
    }
  }

  /** RemovePrincipal: once both of its mutations have succeeded, whatever ran in between,
      n has neither record nor refresh token. */
  lemma RemovalCompletes(env: Env, s: State, n: string, faults: seq<bool>, between: seq<Event>, faults': seq<bool>)
    requires Faithful(env.codecs) && n != "" && NeverAdds(between, n)
    requires DropRecord(env.codecs, Disk(s.docs, faults), n).1.Ok?
    requires var s' := Run(env, Step(env, s, RemoveRecord(n, faults)), between);
      DropTokensOf(env.codecs, Disk(s'.docs, faults'), n).1.Ok?
    ensures var s' := Run(env, Step(env, s, RemoveRecord(n, faults)), between);
      Removed(env, Step(env, s', RemoveTokens(n, faults')), n)
  {
    DropRecordEffect(env, Disk(s.docs, faults), n);
    var s1 := Step(env, s, RemoveRecord(n, faults));
    RunNoRecord(env, s1, between, n);
    var s2 := Run(env, s1, between);
    StepNoRecord(env, s2, RemoveTokens(n, faults'), n);
    DropEffect(env, Disk(s2.docs, faults'), n);
  }

  /** What RemovePrincipal leaves when it succeeds. */
  lemma RemovedAtOnce(env: Env, s: State, n: string, faults: seq<bool>)
    requires Faithful(env.codecs) && n != "" && RemoveNamed(env.codecs, Disk(s.docs, faults), n).1.Ok?
    ensures Removed(env, s.(docs := RemoveNamed(env.codecs, Disk(s.docs, faults), n).0.docs), n)
  {
    var d := DropRecord(env.codecs, Disk(s.docs, faults), n).0;
    DropRecordEffect(env, Disk(s.docs, faults), n);
    DropEffect(env, d, n);
    RecordsElsewhere(env, d.docs, DropTokensOf(env.codecs, d, n).0.docs, REFRESH_TOKENS);
  }

  /** Bounded revocation: a successful removal of n, while no redeemable code of n's is
      pending and no request of n's under way, is final: in every run that does not add n
      again n never holds a record or a refresh token, and every access token of n's is
      rejected once the longest configured lifetime has passed since. */
  lemma BoundedRevocation(env: Env, start: int, before: seq<Event>, n: string, faults: seq<bool>, after: seq<Event>, l: int)
    requires Faithful(env.codecs) && n != "" && LifetimesWithin(before, l) && NeverAdds(after, n)
    requires var s := Run(env, Initial(start), before);
      !Threat(env, s, n) && RemoveNamed(env.codecs, Disk(s.docs, faults), n).1.Ok?
    ensures var s := Run(env, Initial(start), before);
      var s' := s.(docs := RemoveNamed(env.codecs, Disk(s.docs, faults), n).0.docs);
      Revoked(env, Run(env, s', after), n, s.now + l)
  {
    var s := Run(env, Initial(start), before);
    var s' := s.(docs := RemoveNamed(env.codecs, Disk(s.docs, faults), n).0.docs);
    RunMints(env, Initial(start), before, l);
    RemovedAtOnce(env, s, n, faults);
    SameThreats(env, s, s', n);
    QuietRevokes(env, s', n, after, l);
  }

  /** The state between the removal's two mutations once other steps have run. */
  function Between(env: Env, s: State, n: string, faults: seq<bool>, between: seq<Event>): State {
    Run(env, Step(env, s, RemoveRecord(n, faults)), between)
  }

  lemma InterruptedQuiet(env: Env, s: State, n: string, faults: seq<bool>, between: seq<Event>, faults': seq<bool>, l: int)
    requires Faithful(env.codecs) && n != "" && MintsWithin(s, l) && LifetimesWithin(between, l) && NeverAdds(between, n)
    requires DropRecord(env.codecs, Disk(s.docs, faults), n).1.Ok?
    requires var s' := Between(env, s, n, faults, between);
      DropTokensOf(env.codecs, Disk(s'.docs, faults'), n).1.Ok? && !Threat(env, s', n)
    ensures var s'' := Step(env, Between(env, s, n, faults, between), RemoveTokens(n, faults'));
      Quiet(env, s'', n) && MintsWithin(s'', l)
  {
    var s' := Between(env, s, n, faults, between);
    RunMints(env, Step(env, s, RemoveRecord(n, faults)), between, l);
    RemovalCompletes(env, s, n, faults, between, faults');
    SameThreats(env, s', Step(env, s', RemoveTokens(n, faults')), n);
  }

  /** The same when other steps come between the two mutations, judged after both. */
  lemma InterruptedRevocation(env: Env, start: int, before: seq<Event>, n: string, faults: seq<bool>, between: seq<Event>, faults': seq<bool>, after: seq<Event>, l: int)
    requires Faithful(env.codecs) && n != "" && LifetimesWithin(before, l) && LifetimesWithin(between, l)
    requires NeverAdds(between, n) && NeverAdds(after, n)
    requires DropRecord(env.codecs, Disk(Run(env, Initial(start), before).docs, faults), n).1.Ok?
    requires var s := Between(env, Run(env, Initial(start), before), n, faults, between);
      DropTokensOf(env.codecs, Disk(s.docs, faults'), n).1.Ok? && !Threat(env, s, n)
    ensures var s := Between(env, Run(env, Initial(start), before), n, faults, between);
      Revoked(env, Run(env, Step(env, s, RemoveTokens(n, faults')), after), n, s.now + l)
  {
    var s0 := Run(env, Initial(start), before);
    RunMints(env, Initial(start), before, l);
    InterruptedQuiet(env, s0, n, faults, between, faults', l);
    QuietRevokes(env, Step(env, Between(env, s0, n, faults, between), RemoveTokens(n, faults')), n, after, l);
  }

  lemma SameThreats(env: Env, s: State, s': State, n: string)
    requires s'.proc == s.proc && s'.flights == s.flights && s'.now == s.now && !Threat(env, s, n)
    ensures !Threat(env, s', n)
  {
    assert forall k :: LiveCode(env, s', n, k) ==> LiveCode(env, s, n, k);
    assert forall i :: LiveRequest(env, s', n, i) ==> LiveRequest(env, s, n, i);
  }

  // Every threat is real.

  /** A fresh run without another Add of n after which n holds something. */
  ghost predicate Reaches(env: Env, s: State, n: string, es: seq<Event>) {
    FreshRun(env, s, es) && NeverAdds(es, n) && !Removed(env, Run(env, s, es), n)
  }

  lemma ThreatIsReal(env: Env, s: State, n: string) returns (es: seq<Event>)
    requires Faithful(env.codecs) && TokensReadable(env, s.docs) && Threat(env, s, n)
    ensures Reaches(env, s, n, es)
  {
    var c: Credential;
    if code :| LiveCode(env, s, n, code) {
      c := Code(code);
    } else {
      var i :| LiveRequest(env, s, n, i);
      c := Request(i);
    }
    var k;
    es, k := BecomesRefreshToken(env, s, c);
    assert Promise(s, c).principal.name == n;
    assert k in Tokens(env.codecs, Run(env, s, es).docs);
  }

  /** Removal is final exactly when n has no redeemable code pending and no request
      under way: otherwise some run without another Add of n hands it a refresh token. */
  lemma RevocationExact(env: Env, s: State, n: string)
    requires Faithful(env.codecs) && Reachable(env, s) && n != "" && Removed(env, s, n)
    ensures (forall es :: FreshRun(env, s, es) && NeverAdds(es, n) ==> Removed(env, Run(env, s, es), n)) <==>
            !Threat(env, s, n)
  {
    ReachableInv(env, s);
    if Threat(env, s, n) {
      var es := ThreatIsReal(env, s, n);
      assert Reaches(env, s, n, es);
    } else {
      forall es | FreshRun(env, s, es) && NeverAdds(es, n)
        ensures Removed(env, Run(env, s, es), n)
      {
        RunQuiet(env, s, n, es);
      }
    }
  }
}
