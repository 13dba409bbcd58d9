/** What every step keeps: each approval has at most one live credential, and every
    credential carries exactly its approval's client, scope and principal. */
module Lineage {
  import opened Wrappers
  import opened SecretStores
  import opened MapStores
  import opened Base64Url
  import opened Records
  import opened RefreshTokens
  import opened PairingCodes
  import opened Pairings
  import opened Handlers
  import opened Machine

  /** Something that can still turn into tokens: a pending code, a refresh token, or a
      request under way. */
  datatype Credential = Code(code: string) | Token(token: string) | Request(id: nat)

  /** The live credentials of a state, and the history they are judged against. */
  datatype Ledger = Ledger(
    codes: map<string, AuthGrant>, tokens: map<string, RefreshGrant>, flights: map<nat, Flight>,
    used: set<string>, approvals: seq<Approval>, lineage: map<string, nat>, mints: seq<Mint>)

  function Codes(s: State): map<string, AuthGrant> {
    if s.proc.None? then map[] else s.proc.value.codes
  }

  function LedgerOf(env: Env, s: State): Ledger {
    Ledger(Codes(s), Tokens(env.codecs, s.docs), s.flights,
           s.hist.used, s.hist.approvals, s.hist.lineage, s.hist.mints)
  }

  /** Credential c is live and descends from approval a. */
  ghost predicate Descends(l: Ledger, c: Credential, a: nat) {
    match c
    case Code(k) => k in l.codes && k in l.lineage && l.lineage[k] == a
    case Token(k) => k in l.tokens && k in l.lineage && l.lineage[k] == a
    case Request(i) => i in l.flights && l.flights[i].approval == a
  }

  ghost predicate AtMostOne(l: Ledger) {
    forall c, d, a :: Descends(l, c, a) && Descends(l, d, a) ==> c == d
  }

  /** What an approval's refresh tokens carry. */
  function Carried(g: AuthGrant): RefreshGrant {
    RefreshGrant(g.clientID, g.scope, g.principal)
  }

  /** An approval's grant, up to the expiry its code was given. */
  predicate SameGrant(code: AuthGrant, g: AuthGrant) {
    code.(expiresAt := g.expiresAt) == g
  }

  ghost predicate FlightMatches(f: Flight, approvals: seq<Approval>) {
    && f.approval < |approvals|
    && (match f
        case Entered(g, a) => g == approvals[a].grant
        case Redeemed(g, a) => g == Carried(approvals[a].grant)
        case Signed(g, a) => g == Carried(approvals[a].grant))
  }

  ghost predicate MintMatches(m: Mint, approvals: seq<Approval>) {
    && m.approval < |approvals|
    && var g, c := approvals[m.approval].grant, m.token.claims;
      c.subject == g.clientID && c.scope == g.scope && c.principal == g.principal
  }

  ghost predicate Linked(l: Ledger) {
    && (forall k :: k in l.lineage ==> k in l.used && l.lineage[k] < |l.approvals|)
    && (forall k :: k in l.codes ==> k in l.lineage && SameGrant(l.codes[k], l.approvals[l.lineage[k]].grant))
    && (forall k :: k in l.tokens ==> k in l.lineage && l.tokens[k] == Carried(l.approvals[l.lineage[k]].grant))
    && (forall i :: i in l.flights ==> FlightMatches(l.flights[i], l.approvals))
    && (forall j :: 0 <= j < |l.mints| ==> MintMatches(l.mints[j], l.approvals))
  }

  ghost predicate Inv(env: Env, s: State) {
    Linked(LedgerOf(env, s)) && AtMostOne(LedgerOf(env, s)) && TokensReadable(env, s.docs)
  }

  predicate TokensReadable(env: Env, docs: map<string, string>) {
    Readable(env.codecs.refresh, docs, REFRESH_TOKENS)
  }

  // What each kind of step does to the ledger, and why it keeps the invariant.

  ghost predicate Kept(l: Ledger) {
    Linked(l) && AtMostOne(l)
  }

  lemma Moved(l: Ledger, l': Ledger, from: Credential, to: Credential, a0: nat)
    requires AtMostOne(l) && Descends(l, from, a0)
    requires forall c, a :: Descends(l', c, a) ==> (c == to && a == a0) || (c != from && Descends(l, c, a))
    ensures AtMostOne(l')
  {
    forall c, d, a | Descends(l', c, a) && Descends(l', d, a)
      ensures c == d
    {
      assert c != to ==> Descends(l, c, a) && c != from;
      assert d != to ==> Descends(l, d, a) && d != from;
    }
  }

  /** Credentials disappear and random values are used up. */
  lemma Shrinks(l: Ledger, l': Ledger)
    requires Kept(l)
    requires forall k :: k in l'.codes ==> k in l.codes && l'.codes[k] == l.codes[k]
    requires forall k :: k in l'.tokens ==> k in l.tokens && l'.tokens[k] == l.tokens[k]
    requires forall i :: i in l'.flights ==> i in l.flights && l'.flights[i] == l.flights[i]
    requires l.used <= l'.used
    requires l'.lineage == l.lineage && l'.approvals == l.approvals && l'.mints == l.mints
    ensures Kept(l')
  {
    assert forall c, a :: Descends(l', c, a) ==> Descends(l, c, a);
  }

  lemma Approves(l: Ledger, id: nat, approval: Approval)
    requires Kept(l) && id !in l.flights
    ensures Kept(l.(flights := l.flights[id := Entered(approval.grant, |l.approvals|)],
                    approvals := l.approvals + [approval]))
  {
    var n := |l.approvals|;
    var l' := l.(flights := l.flights[id := Entered(approval.grant, n)], approvals := l.approvals + [approval]);
    assert forall a :: 0 <= a < n ==> l'.approvals[a] == l.approvals[a];
    forall c, a | Descends(l', c, a)
      ensures if a == n then c == Request(id) else Descends(l, c, a)
    {
      assert forall i :: i in l.flights ==> l.flights[i].approval < n;
    }
  }

  /** A request turns into a pending code under a fresh value. */
  lemma BecomesCode(l: Ledger, id: nat, k: string, code: AuthGrant)
    requires Kept(l) && id in l.flights && l.flights[id].Entered? && k !in l.used
    requires SameGrant(code, l.flights[id].code)
    ensures Kept(l.(codes := l.codes[k := code], flights := l.flights - {id}, used := l.used + {k},
                    lineage := l.lineage[k := l.flights[id].approval]))
  {
    var a := l.flights[id].approval;
    var l' := l.(codes := l.codes[k := code], flights := l.flights - {id}, used := l.used + {k}, lineage := l.lineage[k := a]);
    assert FlightMatches(l.flights[id], l.approvals);
    assert k !in l.lineage && k !in l.codes && k !in l.tokens;
    Moved(l, l', Request(id), Code(k), a);
  }

  /** A pending code turns into a request. */
  lemma CodeBecomesRequest(l: Ledger, id: nat, k: string)
    requires Kept(l) && id !in l.flights && k in l.codes
    ensures k in l.lineage
    ensures Kept(l.(codes := l.codes - {k}, flights := l.flights[id := Redeemed(Carried(l.codes[k]), l.lineage[k])]))
  {
    var l' := l.(codes := l.codes - {k}, flights := l.flights[id := Redeemed(Carried(l.codes[k]), l.lineage[k])]);
    Moved(l, l', Code(k), Request(id), l.lineage[k]);
  }

  /** A refresh token turns into a request. */
  lemma TokenBecomesRequest(l: Ledger, id: nat, k: string)
    requires Kept(l) && id !in l.flights && k in l.tokens
    ensures k in l.lineage
    ensures Kept(l.(tokens := l.tokens - {k}, flights := l.flights[id := Redeemed(l.tokens[k], l.lineage[k])]))
  {
    var l' := l.(tokens := l.tokens - {k}, flights := l.flights[id := Redeemed(l.tokens[k], l.lineage[k])]);
    Moved(l, l', Token(k), Request(id), l.lineage[k]);
  }

  lemma Signs(l: Ledger, id: nat, m: Mint)
    requires Kept(l) && id in l.flights && l.flights[id].Redeemed? && m.approval == l.flights[id].approval
    requires var g, c := l.flights[id].grant, m.token.claims; c.subject == g.clientID && c.scope == g.scope && c.principal == g.principal
    ensures Kept(l.(flights := l.flights[id := Signed(l.flights[id].grant, l.flights[id].approval)], mints := l.mints + [m]))
  {
    var l' := l.(flights := l.flights[id := Signed(l.flights[id].grant, l.flights[id].approval)], mints := l.mints + [m]);
    assert FlightMatches(l.flights[id], l.approvals);
    assert MintMatches(m, l.approvals);
    forall c, a | Descends(l', c, a)
      ensures Descends(l, c, a)
    {
    }
  }

  /** A request turns into a refresh token under a fresh value. */
  lemma BecomesToken(l: Ledger, id: nat, k: string)
    requires Kept(l) && id in l.flights && l.flights[id].Signed? && k !in l.used
    ensures Kept(l.(tokens := l.tokens[k := l.flights[id].grant], flights := l.flights - {id}, used := l.used + {k},
                    lineage := l.lineage[k := l.flights[id].approval]))
  {
    var a := l.flights[id].approval;
    var l' := l.(tokens := l.tokens[k := l.flights[id].grant], flights := l.flights - {id}, used := l.used + {k}, lineage := l.lineage[k := a]);
    assert FlightMatches(l.flights[id], l.approvals);
    assert k !in l.lineage && k !in l.codes && k !in l.tokens;
    Moved(l, l', Request(id), Token(k), a);
  }

  // Event by event.

  lemma TokensElsewhere(env: Env, docs: map<string, string>, docs': map<string, string>, key: string)
    requires SameExcept(docs, docs', key) && key in {PAIRING_CODE, PRINCIPALS, CLIENTS, SIGNING_KEY}
    ensures Tokens(env.codecs, docs') == Tokens(env.codecs, docs)
    ensures TokensReadable(env, docs') <==> TokensReadable(env, docs)
  {
    KeysDistinct();
    ViewFrame(env.codecs.refresh, docs, docs', key, REFRESH_TOKENS);
  }

  lemma RegisterKeeps(env: Env, s: State, uris: seq<string>, name: string, draw: Option<string>, faults: seq<bool>)
    requires Faithful(env.codecs) && Inv(env, s)
    ensures Inv(env, DoRegister(env, s, uris, name, draw, faults))
  {
    var s' := DoRegister(env, s, uris, name, draw, faults);
    if draw.Some? {
      MutateEffect(env.codecs.clients, Disk(s.docs, faults), CLIENTS, Put(draw.value, Client(draw.value, uris, name)));
    }
    TokensElsewhere(env, s.docs, s'.docs, CLIENTS);
    Shrinks(LedgerOf(env, s), LedgerOf(env, s'));
  }

  lemma AddKeeps(env: Env, s: State, name: string, binding: map<string, string>, draw: Draw, faults: seq<bool>)
    requires Faithful(env.codecs) && Inv(env, s)
    ensures Inv(env, DoAdd(env, s, name, binding, draw, faults))
  {
    var s' := DoAdd(env, s, name, binding, draw, faults);
    if draw.Some? {
      var record := PrincipalRecord(CodeOf(draw.value), binding);
      MutateEffect(env.codecs.principals, Disk(s.docs, faults), PRINCIPALS, Put(name, record));
    }
    TokensElsewhere(env, s.docs, s'.docs, PRINCIPALS);
    Shrinks(LedgerOf(env, s), LedgerOf(env, s'));
  }

  lemma RotateKeeps(env: Env, s: State, draw: Draw, faults: seq<bool>)
    requires Inv(env, s)
    ensures Inv(env, DoRotate(env, s, draw, faults))
  {
    var s' := DoRotate(env, s, draw, faults);
    TokensElsewhere(env, s.docs, s'.docs, PAIRING_CODE);
    Shrinks(LedgerOf(env, s), LedgerOf(env, s'));
  }

  lemma RemoveRecordKeeps(env: Env, s: State, name: string, faults: seq<bool>)
    requires Faithful(env.codecs) && Inv(env, s)
    ensures Inv(env, Step(env, s, RemoveRecord(name, faults)))
  {
    var s' := Step(env, s, RemoveRecord(name, faults));
    MutateEffect(env.codecs.principals, Disk(s.docs, faults), PRINCIPALS, Take(name));
    TokensElsewhere(env, s.docs, s'.docs, PRINCIPALS);
    Shrinks(LedgerOf(env, s), LedgerOf(env, s'));
  }

  /** Dropping a principal's tokens keeps every other token, and on success leaves none
      of a named principal's. */
  lemma DropEffect(env: Env, d: Disk, name: string)
    requires Faithful(env.codecs)
    ensures var (d', r) := DropTokensOf(env.codecs, d, name);
      var before, after := Tokens(env.codecs, d.docs), Tokens(env.codecs, d'.docs);
      && SameExcept(d.docs, d'.docs, REFRESH_TOKENS)
      && (TokensReadable(env, d.docs) ==> TokensReadable(env, d'.docs) && (d.faults == [] ==> r.Ok?))
      && (forall k :: k in after ==> k in before && after[k] == before[k])
      && (forall k :: k in before && before[k].principal.name != name ==> k in after)
      && (r.Failed? ==> d'.docs == d.docs)
      && (r.Ok? && name != "" ==> forall k :: k in after ==> after[k].principal.name != name)
      && ((forall k :: k in before ==> before[k].principal.name != name) ==> d'.docs == d.docs)
  {
    if name != "" {
      var before := Tokens(env.codecs, d.docs);
      MutateEffect(env.codecs.refresh, d, REFRESH_TOKENS, DropWhere(NamedBy(name)));
      MutateExactly(env.codecs.refresh, d, REFRESH_TOKENS, DropWhere(NamedBy(name)));
      if forall k :: k in before ==> before[k].principal.name != name {
        assert !DropWhere(NamedBy(name))(before).changed;
      }
    }
  }

  lemma RemoveTokensKeeps(env: Env, s: State, name: string, faults: seq<bool>)
    requires Faithful(env.codecs) && Inv(env, s)
    ensures Inv(env, Step(env, s, RemoveTokens(name, faults)))
  {
    DropEffect(env, Disk(s.docs, faults), name);
    Shrinks(LedgerOf(env, s), LedgerOf(env, Step(env, s, RemoveTokens(name, faults))));
  }

  lemma ResetKeeps(env: Env, s: State, faults: seq<bool>)
    requires Inv(env, s)
    ensures Inv(env, Step(env, s, Reset(faults)))
  {
    Shrinks(LedgerOf(env, s), LedgerOf(env, Step(env, s, Reset(faults))));
  }

  lemma RestartKeeps(env: Env, s: State, cfg: Config, draw: Option<seq<byte>>, faults: seq<bool>)
    requires Inv(env, s)
    ensures Inv(env, DoRestart(env, s, cfg, draw, faults))
  {
    var s' := DoRestart(env, s, cfg, draw, faults);
    TokensElsewhere(env, s.docs, s'.docs, SIGNING_KEY);
    Shrinks(LedgerOf(env, s), LedgerOf(env, s'));
  }

  lemma EnterKeeps(env: Env, s: State, id: nat, p: AuthParams, input: string, draw: Draw, faults: seq<bool>)
    requires Inv(env, s)
    ensures Inv(env, DoEnter(env, s, id, p, input, draw, faults))
  {
    if s.proc.Some? && id !in s.flights && s.proc.value.cfg.Settled() {
      var s', l := DoEnter(env, s, id, p, input, draw, faults), LedgerOf(env, s);
      CheckSubmissionDocs(env, Disk(s.docs, faults), p, input, draw);
      TokensElsewhere(env, s.docs, s'.docs, PAIRING_CODE);
      if id in s'.flights {
        var approval := s'.hist.approvals[|s.hist.approvals|];
        Approves(l, id, approval);
        assert LedgerOf(env, s') == l.(flights := l.flights[id := Entered(approval.grant, |l.approvals|)],
                                       approvals := l.approvals + [approval]);
      } else {
        assert LedgerOf(env, s') == l;
      }
    }
  }

  lemma SendCodeKeeps(env: Env, s: State, id: nat, draw: Option<string>)
    requires Inv(env, s) && Drawn(draw) !! s.hist.used
    ensures Inv(env, DoSendCode(env, s, id, draw))
  {
    if s.proc.Some? && id in s.flights && s.flights[id].Entered? {
      var s', l := DoSendCode(env, s, id, draw), LedgerOf(env, s);
      if draw.Some? {
        assert draw.value in Drawn(draw);
        BecomesCode(l, id, draw.value, Codes(s')[draw.value]);
      } else {
        Shrinks(l, LedgerOf(env, s'));
      }
    }
  }

  lemma RedeemKeeps(env: Env, s: State, id: nat, r: CodeRequest)
    requires Inv(env, s)
    ensures Inv(env, DoRedeem(env, s, id, r))
  {
    if s.proc.Some? && id !in s.flights {
      var s', l := DoRedeem(env, s, id, r), LedgerOf(env, s);
      if id in s'.flights {
        CodeBecomesRequest(l, id, r.code);
      } else {
        Shrinks(l, LedgerOf(env, s'));
      }
    }
  }

  /** Exchanging a token either takes exactly it away or changes nothing. */
  lemma ExchangeEffect(env: Env, d: Disk, token: string)
    requires Faithful(env.codecs)
    ensures var (d', r) := ExchangeToken(env.codecs, d, token);
      var before, after := Tokens(env.codecs, d.docs), Tokens(env.codecs, d'.docs);
      && SameExcept(d.docs, d'.docs, REFRESH_TOKENS)
      && (TokensReadable(env, d.docs) ==> TokensReadable(env, d'.docs) && (d.faults == [] ==> r.Ok?))
      && (r.Ok? && r.value.Some? ==> token in before && r.value.value == before[token] && after == before - {token})
      && (r.Failed? || r.value.None? ==> d'.docs == d.docs)
      && (r.Ok? ==> (r.value.Some? <==> token in before))
  {
    MutateEffect(env.codecs.refresh, d, REFRESH_TOKENS, Take(token));
  }

  lemma RefreshKeeps(env: Env, s: State, id: nat, token: string, clientID: string, faults: seq<bool>)
    requires Faithful(env.codecs) && Inv(env, s)
    ensures Inv(env, DoRefresh(env, s, id, token, clientID, faults))
  {
    if s.proc.Some? && id !in s.flights {
      var s', l := DoRefresh(env, s, id, token, clientID, faults), LedgerOf(env, s);
      ExchangeEffect(env, Disk(s.docs, faults), token);
      if id in s'.flights {
        TokenBecomesRequest(l, id, token);
      } else {
        Shrinks(l, LedgerOf(env, s'));
      }
    }
  }

  lemma SignKeeps(env: Env, s: State, id: nat, signs: bool)
    requires Inv(env, s)
    ensures Inv(env, DoSign(env, s, id, signs))
  {
    if s.proc.Some? && id in s.flights && s.flights[id].Redeemed? {
      var s', l := DoSign(env, s, id, signs), LedgerOf(env, s);
      if signs {
        Signs(l, id, s'.hist.mints[|s.hist.mints|]);
      } else {
        Shrinks(l, LedgerOf(env, s'));
      }
    }
  }

  /** Issuing a token either adds exactly it or changes nothing. */
  lemma IssueEffect(env: Env, d: Disk, g: RefreshGrant, draw: Option<string>)
    requires Faithful(env.codecs)
    ensures var (d', r) := IssueToken(env.codecs, d, g, draw);
      var before, after := Tokens(env.codecs, d.docs), Tokens(env.codecs, d'.docs);
      && SameExcept(d.docs, d'.docs, REFRESH_TOKENS)
      && (TokensReadable(env, d.docs) ==> TokensReadable(env, d'.docs) && (d.faults == [] && draw.Some? ==> r.Ok?))
      && (r.Ok? ==> draw == Some(r.value) && after == before[r.value := g])
      && (r.Failed? ==> d'.docs == d.docs)
  {
    if draw.Some? {
      MutateEffect(env.codecs.refresh, d, REFRESH_TOKENS, Put(draw.value, g));
    }
  }

  lemma SendTokensKeeps(env: Env, s: State, id: nat, draw: Option<string>, faults: seq<bool>)
    requires Faithful(env.codecs) && Inv(env, s) && Drawn(draw) !! s.hist.used
    ensures Inv(env, DoSendTokens(env, s, id, draw, faults))
  {
    if s.proc.Some? && id in s.flights && s.flights[id].Signed? {
      var s', l := DoSendTokens(env, s, id, draw, faults), LedgerOf(env, s);
      IssueEffect(env, Disk(s.docs, faults), s.flights[id].grant, draw);
      if IssueToken(env.codecs, Disk(s.docs, faults), s.flights[id].grant, draw).1.Ok? {
        assert draw.value in Drawn(draw);
        BecomesToken(l, id, draw.value);
      } else {
        Shrinks(l, LedgerOf(env, s'));
      }
    }
  }

  lemma StepKeeps(env: Env, s: State, e: Event)
    requires Faithful(env.codecs) && Inv(env, s) && Fresh(s, e)
    ensures Inv(env, Step(env, s, e))
  {
    match e
    case Register(uris, name, draw, faults) => RegisterKeeps(env, s, uris, name, draw, faults);
    case Enter(id, p, input, draw, faults) => EnterKeeps(env, s, id, p, input, draw, faults);
    case SendCode(id, draw) => SendCodeKeeps(env, s, id, draw);
    case Redeem(id, r) => RedeemKeeps(env, s, id, r);
    case Refresh(id, token, clientID, faults) => RefreshKeeps(env, s, id, token, clientID, faults);
    case Sign(id, signs) => SignKeeps(env, s, id, signs);
    case SendTokens(id, draw, faults) => SendTokensKeeps(env, s, id, draw, faults);
    case Add(name, binding, draw, faults) => AddKeeps(env, s, name, binding, draw, faults);
    case RemoveRecord(name, faults) => RemoveRecordKeeps(env, s, name, faults);
    case RemoveTokens(name, faults) => RemoveTokensKeeps(env, s, name, faults);
    case Rotate(draw, faults) => RotateKeeps(env, s, draw, faults);
    case Reset(faults) => ResetKeeps(env, s, faults);
    case Restart(cfg, draw, faults) => RestartKeeps(env, s, cfg, draw, faults);
    case Tick(_) => assert LedgerOf(env, Step(env, s, e)) == LedgerOf(env, s);
  }

  /** The one document an event may touch; a reset, which touches all, apart. */
  function DocOf(e: Event): string {
    match e
    case Register(_, _, _, _) => CLIENTS
    case Enter(_, _, _, _, _) => PAIRING_CODE
    case Refresh(_, _, _, _) => REFRESH_TOKENS
    case SendTokens(_, _, _) => REFRESH_TOKENS
    case Add(_, _, _, _) => PRINCIPALS
    case RemoveRecord(_, _) => PRINCIPALS
    case RemoveTokens(_, _) => REFRESH_TOKENS
    case Rotate(_, _) => PAIRING_CODE
    case Restart(_, _, _) => SIGNING_KEY
    case _ => ""
  }

  lemma RegisterTouches(env: Env, s: State, e: Event)
    requires Faithful(env.codecs) && e.Register?
    ensures SameExcept(s.docs, Step(env, s, e).docs, CLIENTS)
  {
    if e.draw.Some? {
      MutateEffect(env.codecs.clients, Disk(s.docs, e.faults), CLIENTS, Put(e.draw.value, Client(e.draw.value, e.uris, e.name)));
    }
  }

  lemma AddTouches(env: Env, s: State, e: Event)
    requires Faithful(env.codecs) && e.Add?
    ensures SameExcept(s.docs, Step(env, s, e).docs, PRINCIPALS)
    ensures Principals(env.codecs, Step(env, s, e).docs).Keys <= Principals(env.codecs, s.docs).Keys + {e.name}
  {
    if e.pairDraw.Some? {
      var record := PrincipalRecord(CodeOf(e.pairDraw.value), e.binding);
      MutateEffect(env.codecs.principals, Disk(s.docs, e.faults), PRINCIPALS, Put(e.name, record));
    }
  }

  lemma EnterTouches(env: Env, s: State, e: Event)
    requires e.Enter?
    ensures SameExcept(s.docs, Step(env, s, e).docs, PAIRING_CODE)
  {
    CheckSubmissionDocs(env, Disk(s.docs, e.faults), e.params, e.input, e.pairDraw);
  }

  lemma TokensTouched(env: Env, s: State, e: Event)
    requires Faithful(env.codecs) && (e.Refresh? || e.SendTokens? || e.RemoveTokens?)
    ensures SameExcept(s.docs, Step(env, s, e).docs, REFRESH_TOKENS)
  {
    match e
    case Refresh(_, token, _, faults) => ExchangeEffect(env, Disk(s.docs, faults), token);
    case SendTokens(id, draw, faults) =>
      if id in s.flights && s.flights[id].Signed? {
        IssueEffect(env, Disk(s.docs, faults), s.flights[id].grant, draw);
      }
    case RemoveTokens(name, faults) => DropEffect(env, Disk(s.docs, faults), name);
  }

  lemma NothingTouched(env: Env, s: State, e: Event)
    requires e.SendCode? || e.Redeem? || e.Sign? || e.Tick?
    ensures Step(env, s, e).docs == s.docs
  {
  }

  lemma RemoveRecordTouches(env: Env, s: State, e: Event)
    requires Faithful(env.codecs) && e.RemoveRecord?
    ensures SameExcept(s.docs, Step(env, s, e).docs, PRINCIPALS)
  {
    MutateEffect(env.codecs.principals, Disk(s.docs, e.faults), PRINCIPALS, Take(e.name));
  }

  lemma RotateTouches(env: Env, s: State, e: Event)
    requires e.Rotate?
    ensures SameExcept(s.docs, Step(env, s, e).docs, PAIRING_CODE)
  {
  }

  lemma RestartTouches(env: Env, s: State, e: Event)
    requires e.Restart?
    ensures SameExcept(s.docs, Step(env, s, e).docs, SIGNING_KEY)
    ensures SIGNING_KEY in s.docs ==> Step(env, s, e).docs == s.docs
  {
  }

  lemma StepTouches(env: Env, s: State, e: Event)
    requires Faithful(env.codecs) && !e.Reset?
    ensures SameExcept(s.docs, Step(env, s, e).docs, DocOf(e))
  {
    match e
    case Register(_, _, _, _) => RegisterTouches(env, s, e);
    case Enter(_, _, _, _, _) => EnterTouches(env, s, e);
    case Refresh(_, _, _, _) => TokensTouched(env, s, e);
    case SendTokens(_, _, _) => TokensTouched(env, s, e);
    case RemoveTokens(_, _) => TokensTouched(env, s, e);
    case Add(_, _, _, _) => AddTouches(env, s, e);
    case RemoveRecord(_, _) => RemoveRecordTouches(env, s, e);
    case Rotate(_, _) => RotateTouches(env, s, e);
    case Restart(_, _, _) => RestartTouches(env, s, e);
    case _ => NothingTouched(env, s, e);
  }

  lemma {:induction false} RunKeeps(env: Env, s: State, es: seq<Event>)
    requires Faithful(env.codecs) && Inv(env, s) && FreshRun(env, s, es)
    ensures Inv(env, Run(env, s, es))
    decreases |es|
  {
    if es != [] {
      RunKeeps(env, s, es[..|es| - 1]);
      StepKeeps(env, Run(env, s, es[..|es| - 1]), es[|es| - 1]);
    }
  }

  lemma InitialInv(env: Env, now: int)
    ensures Inv(env, Initial(now))
  {
    assert TokensReadable(env, map[]);
    assert LedgerOf(env, Initial(now)) == Ledger(map[], map[], map[], {}, [], map[], []);
  }

  lemma ReachableInv(env: Env, s: State)
    requires Faithful(env.codecs) && Reachable(env, s)
    ensures Inv(env, s)
  {
    var now, es :| FreshRun(env, Initial(now), es) && s == Run(env, Initial(now), es);
    InitialInv(env, now);
    RunKeeps(env, Initial(now), es);
  }

  /** Lineage conservation: in every reachable state each approval has at most one live
      credential among its pending code, the refresh tokens descended from it and the
      requests under way for it; and every code and refresh token has its approval. */
  lemma LineageConservation(env: Env, s: State)
    requires Faithful(env.codecs) && Reachable(env, s)
    ensures var l := LedgerOf(env, s);
      && (forall c, d, a :: Descends(l, c, a) && Descends(l, d, a) ==> c == d)
      && (forall k :: k in l.tokens ==> k in l.lineage && l.lineage[k] < |l.approvals| && Descends(l, Token(k), l.lineage[k]))
      && (forall k :: k in l.codes ==> k in l.lineage && l.lineage[k] < |l.approvals| && Descends(l, Code(k), l.lineage[k]))
  {
    ReachableInv(env, s);
  }
}
