/** The handlers and the operator's removal over a store whose every operation may fail:
    an error reply leaves no new credential behind. */
module StoreFailures {
  import opened Wrappers
  import opened SecretStores
  import opened MapStores
  import opened Records
  import opened RefreshTokens
  import opened Clients
  import opened AccessTokens
  import opened Pairings
  import opened Handlers
  import opened Machine
  import opened Lineage
  import opened Revocation
  import opened Provenance

  /** Nothing live in m' that was not in m. */
  predicate NoMore<V(==)>(m: map<string, V>, m': map<string, V>) {
    forall k :: k in m' ==> k in m && m'[k] == m[k]
  }

  /** No new pending code and no new refresh token. */
  predicate NoGrowth(env: Env, s: Core, s': Core) {
    NoMore(s.codes, s'.codes) && NoMore(Tokens(env.codecs, s.disk.docs), Tokens(env.codecs, s'.disk.docs))
  }

  /** The reply hands the client a code. */
  predicate HandsCode(reply: AuthorizeReply) {
    reply.Redirect? && "code" in reply.params
  }

  lemma IssueTokensEffect(env: Env, issuer: Issuer, d: Disk, g: RefreshGrant, signs: bool, draw: Option<string>, now: int)
    requires Faithful(env.codecs)
    ensures var (d', reply) := IssueTokens(env, issuer, d, g, signs, draw, now);
      match reply
      case Rejected(status) => status == 500 && d'.docs == d.docs
      case Granted(access, expiresIn, refresh, scope) =>
        && draw == Some(refresh) && scope == g.scope && access == issuer.Mint(g, now)
        && expiresIn * SECOND <= issuer.ttl < (expiresIn + 1) * SECOND
        && Tokens(env.codecs, d'.docs) == Tokens(env.codecs, d.docs)[refresh := g]
  {
    IssueEffect(env, d, g, draw);
  }

  /** The code endpoint: an error reply, whether of the request's or of the store's making,
      leaves no new credential; a success leaves exactly one. */
  lemma CodeExchangeFailsSafe(env: Env, issuer: Issuer, s: Core, r: CodeRequest, signs: bool, draw: Option<string>, now: int)
    requires Faithful(env.codecs)
    ensures var (s', reply) := GrantAuthCode(env, issuer, s, r, signs, draw, now);
      && r.code !in s'.codes && NoMore(s.codes, s'.codes)
      && (reply.Rejected? ==> NoGrowth(env, s, s'))
      && (reply.Granted? ==>
            && draw == Some(reply.refresh)
            && Tokens(env.codecs, s'.disk.docs) ==
               Tokens(env.codecs, s.disk.docs)[reply.refresh := RedeemCode(env, s.codes, r, now).1.value])
  {
    var g := RedeemCode(env, s.codes, r, now).1;
    if g.Some? {
      IssueTokensEffect(env, issuer, s.disk, g.value, signs, draw, now);
    }
  }

  /** The refresh endpoint: an error reply leaves no new credential; a success trades the
      presented token, live and presented with its client's id or none, for exactly one new one;
      and a 400 says it was not, and leaves it dead. */
  lemma RefreshFailsSafe(env: Env, issuer: Issuer, s: Core, token: string, clientID: string, signs: bool, draw: Option<string>, now: int)
    requires Faithful(env.codecs)
    ensures var (s', reply) := GrantRefresh(env, issuer, s, token, clientID, signs, draw, now);
      var before, after := Tokens(env.codecs, s.disk.docs), Tokens(env.codecs, s'.disk.docs);
      && s'.codes == s.codes
      && (reply.Rejected? ==> NoGrowth(env, s, s'))
      && (reply.Granted? ==>
            && token in before && (clientID == "" || clientID == before[token].clientID) && signs
            && draw == Some(reply.refresh) && after == (before - {token})[reply.refresh := before[token]])
      && (reply == Rejected(400) ==>
            token !in after && (token in before ==> clientID != "" && clientID != before[token].clientID))
  {
    ExchangeEffect(env, s.disk, token);
    var (d', g) := RedeemRefresh(env, s.disk, token, clientID);
    if g.Ok? && g.value.Some? {
      IssueTokensEffect(env, issuer, d', g.value.value, signs, draw, now);
    }
  }

  /** A registered redirect URI parses, so the reply to an issued code can be written. */
  lemma ApprovedRedirects(env: Env, d: Disk, p: AuthParams, input: string, draw: Draw)
    requires ClientsSound(env, d.docs) && CheckSubmission(env, d, p, input, draw).1.Approved?
    ensures env.parse(p.redirectURI).Some?
  {
    var client := ValidateClientRedirect(env, d, p).1.value;
    var cs := Registered(env.codecs, d.docs);
    assert p.clientID in cs && client == cs[p.clientID] && ClientSound(env, p.clientID, client);
    var i :| 0 <= i < |client.redirectURIs| && client.redirectURIs[i] == p.redirectURI;
    assert ValidRedirectURI(env.parse, client.redirectURIs[i]);
  }

  lemma RefusedHandsNothing(env: Env, d: Disk, p: AuthParams, input: string, draw: Draw)
    ensures var checked := CheckSubmission(env, d, p, input, draw).1; checked.Refused? ==> !HandsCode(checked.reply)
  {
  }

  /** What the reply to a checked submission says and leaves. */
  lemma AnswerEffect(env: Env, cfg: Config, codes: map<string, AuthGrant>, p: AuthParams, checked: Checked, draw: Option<string>, now: int)
    requires cfg.Settled()
    requires checked.Refused? ==> !HandsCode(checked.reply)
    requires checked.Approved? ==> env.parse(p.redirectURI).Some?
    ensures var (codes', reply) := AnswerSubmission(env, cfg, codes, p, checked, draw, now);
      && (!HandsCode(reply) ==> codes' == codes)
      && (HandsCode(reply) ==>
            && checked.Approved? && draw == Some(reply.params["code"]) && reply.to == p.redirectURI
            && codes' == codes[draw.value := GrantOf(cfg, p, checked.client, checked.principal).(expiresAt := now + AUTH_CODE_TTL)])
  {
  }

  /** The grant is for what the client asked for, or for the default scope. */
  ghost predicate AsRequested(cfg: Config, p: AuthParams, g: AuthGrant)
    requires cfg.Settled()
  {
    && g.clientID == p.clientID && g.redirectURI == p.redirectURI
    && g.codeChallenge == p.codeChallenge && g.codeChallengeMethod == p.codeChallengeMethod
    && (p.scope != "" ==> g.scope == p.scope) && (p.scope == "" ==> g.scope == cfg.scopes[0])
  }

  lemma GatesNameClient(env: Env, d: Disk, p: AuthParams, input: string, draw: Draw)
    ensures var checked := CheckSubmission(env, d, p, input, draw).1;
      checked.Approved? || checked.reply.Redirect? ==>
        p.clientID in Registered(env.codecs, d.docs) && p.redirectURI in Registered(env.codecs, d.docs)[p.clientID].redirectURIs
  {
    var client := ValidateClientRedirect(env, d, p).1;
    if client.Some? {
      var cs := Registered(env.codecs, d.docs);
      assert p.clientID in cs && client.value == cs[p.clientID] && client.value.AllowsRedirect(p.redirectURI);
    }
  }

  lemma ErrorRedirect(env: Env, d: Disk, p: AuthParams, input: string, draw: Draw)
    ensures var checked := CheckSubmission(env, d, p, input, draw).1;
      && (checked.Approved? ==> p.responseType == "code")
      && (checked.Refused? && checked.reply.Redirect? ==>
            && checked.reply.to == p.redirectURI && "code" !in checked.reply.params && "error" in checked.reply.params
            && (p.state != "" ==> "state" in checked.reply.params && checked.reply.params["state"] == p.state)
            && (p.responseType != "code" ==> checked.reply.params["error"] == "unsupported_response_type"))
  {
  }

  /** A browser is only ever sent back to a URI registered for the client it names, with
      the client's state, and with either a code or an error. */
  lemma RedirectsOnlyRegistered(env: Env, cfg: Config, s: Core, p: AuthParams, input: string, pairDraw: Draw, codeDraw: Option<string>, now: int)
    requires cfg.Settled()
    ensures var reply := AuthorizeSubmit(env, cfg, s, p, input, pairDraw, codeDraw, now).1;
      var cs := Registered(env.codecs, s.disk.docs);
      reply.Redirect? ==>
        && p.clientID in cs && reply.to == p.redirectURI && p.redirectURI in cs[p.clientID].redirectURIs
        && (ClientsSound(env, s.disk.docs) ==> Secure(env.parse, reply.to))
        && (p.state != "" ==> "state" in reply.params && reply.params["state"] == p.state)
        && ("code" in reply.params <==> "error" !in reply.params)
        && (p.responseType != "code" ==> "error" in reply.params && reply.params["error"] == "unsupported_response_type")
  {
    GatesNameClient(env, s.disk, p, input, pairDraw);
    ErrorRedirect(env, s.disk, p, input, pairDraw);
    AnswerRedirect(env, cfg, s.codes, p, CheckSubmission(env, s.disk, p, input, pairDraw).1, codeDraw, now);
  }

  /** In every reachable state each registered client is filed under its own id and all its
      redirect URIs are https, or http to this machine; so no browser is ever sent, with a
      code or an error, over plain http to another host. */
  lemma RedirectsAreSecure(env: Env, st: State, faults: seq<bool>, p: AuthParams, input: string, pairDraw: Draw, codeDraw: Option<string>)
    requires Faithful(env.codecs) && Reachable(env, st) && st.proc.Some? && st.proc.value.cfg.Settled()
    ensures var cs := Registered(env.codecs, st.docs);
      && (forall k :: k in cs ==> cs[k].id == k && forall i :: 0 <= i < |cs[k].redirectURIs| ==> Secure(env.parse, cs[k].redirectURIs[i]))
      && var reply := AuthorizeSubmit(env, st.proc.value.cfg, Core(Disk(st.docs, faults), Codes(st)), p, input, pairDraw, codeDraw, st.now).1;
        reply.Redirect? ==> Secure(env.parse, reply.to)
  {
    var start, es :| FreshRun(env, Initial(start), es) && st == Run(env, Initial(start), es);
    assert Registered(env.codecs, map[]) == map[];
    RunClients(env, Initial(start), es);
    RedirectsOnlyRegistered(env, st.proc.value.cfg, Core(Disk(st.docs, faults), Codes(st)), p, input, pairDraw, codeDraw, st.now);
  }

  lemma AnswerRedirect(env: Env, cfg: Config, codes: map<string, AuthGrant>, p: AuthParams, checked: Checked, draw: Option<string>, now: int)
    requires cfg.Settled()
    ensures var reply := AnswerSubmission(env, cfg, codes, p, checked, draw, now).1;
      && (checked.Refused? ==> reply == checked.reply)
      && (checked.Approved? && reply.Redirect? ==>
            && reply.to == p.redirectURI && "code" in reply.params && "error" !in reply.params
            && (p.state != "" ==> "state" in reply.params && reply.params["state"] == p.state))
  {
  }

  /** The approval endpoint: a reply without a code leaves no new credential, and a reply
      with one goes to the registered redirect URI and leaves exactly that code, for
      whoever's pairing code was entered. */
  lemma SubmitFailsSafe(env: Env, cfg: Config, s: Core, p: AuthParams, input: string, pairDraw: Draw, codeDraw: Option<string>, now: int)
    requires ClientsSound(env, s.disk.docs) && cfg.Settled()
    ensures var (s', reply) := AuthorizeSubmit(env, cfg, s, p, input, pairDraw, codeDraw, now);
      && Tokens(env.codecs, s'.disk.docs) == Tokens(env.codecs, s.disk.docs)
      && (!HandsCode(reply) ==> s'.codes == s.codes)
      && (HandsCode(reply) ==>
            && codeDraw == Some(reply.params["code"]) && reply.to == p.redirectURI
            && (exists g :: s'.codes == s.codes[codeDraw.value := g] && g.expiresAt == now + 60_000_000_000
                            && AsRequested(cfg, p, g) && ApprovalSound(env, Approval(g.(expiresAt := 0), input, s'.disk.docs))))
  {
    var (d', checked) := CheckSubmission(env, s.disk, p, input, pairDraw);
    CheckSubmissionDocs(env, s.disk, p, input, pairDraw);
    TokensElsewhere(env, s.disk.docs, d'.docs, PAIRING_CODE);
    RefusedHandsNothing(env, s.disk, p, input, pairDraw);
    if checked.Approved? {
      ApprovedRedirects(env, s.disk, p, input, pairDraw);
      SubmissionSound(env, cfg, s.disk, p, input, pairDraw);
    }
    AnswerEffect(env, cfg, s.codes, p, checked, codeDraw, now);
    if HandsCode(AnswerSubmission(env, cfg, s.codes, p, checked, codeDraw, now).1) {
      var g := GrantOf(cfg, p, checked.client, checked.principal);
      assert g.(expiresAt := now + AUTH_CODE_TTL).(expiresAt := 0) == g;
    }
  }

  /** Registration: an error reply changes no document, and a success files exactly the
      client it reports. */
  lemma RegisterFailsSafe(env: Env, d: Disk, uris: seq<string>, name: string, draw: Option<string>)
    requires Faithful(env.codecs)
    ensures var (d', reply) := HandleRegister(env, d, uris, name, draw);
      && (reply.BadRequest? <==> uris == [] || exists i :: 0 <= i < |uris| && !Secure(env.parse, uris[i]))
      && (!reply.Created? ==> d'.docs == d.docs)
      && (reply.Created? ==>
            && draw.Some? && reply.client == Client(draw.value, uris, name)
            && Registered(env.codecs, d'.docs) == Registered(env.codecs, d.docs)[draw.value := reply.client])
      && (reply.Created? <== !reply.BadRequest? && draw.Some? && d.faults == [] && Readable(env.codecs.clients, d.docs, CLIENTS))
  {
    forall i | 0 <= i < |uris|
      ensures ValidRedirectURI(env.parse, uris[i]) <==> Secure(env.parse, uris[i])
    {
      ValidIsSecure(env.parse, uris[i]);
    }
    if draw.Some? {
      MutateEffect(env.codecs.clients, d, CLIENTS, Put(draw.value, Client(draw.value, uris, name)));
    }
  }

  // Removing a principal.

  /** RemovePrincipal: success is complete revocation of a non-empty name, whatever an
      earlier call left behind; a failure has removed nothing, or the record and nothing else. */
  lemma RemoveNamedEffect(env: Env, d: Disk, n: string)
    requires Faithful(env.codecs)
    ensures var (d', r) := RemoveNamed(env.codecs, d, n);
      var before, after := Principals(env.codecs, d.docs), Principals(env.codecs, d'.docs);
      var held, holds := Tokens(env.codecs, d.docs), Tokens(env.codecs, d'.docs);
      && NoMore(held, holds)
      && (forall k :: k in held && held[k].principal.name != n ==> k in holds)
      && (r.Ok? ==>
            && after == before - {n} && (r.value <==> n in before)
            && (n == "" ==> holds == held)
            && (n != "" ==> forall k :: k in holds ==> holds[k].principal.name != n))
      && (r.Failed? ==> holds == held && (d'.docs == d.docs || after == before - {n}))
  {
    var (d1, r1) := DropRecord(env.codecs, d, n);
    DropRecordEffect(env, d, n);
    TokensElsewhere(env, d.docs, d1.docs, PRINCIPALS);
    if r1.Ok? {
      var d2 := DropTokensOf(env.codecs, d1, n).0;
      DropEffect(env, d1, n);
      RecordsElsewhere(env, d1.docs, d2.docs, REFRESH_TOKENS);
    }
  }

  /** A retry after a half-done removal, once the store works, finishes it. */
  lemma RetryCompletes(env: Env, d: Disk, n: string)
    requires Faithful(env.codecs) && n != ""
    requires Readable(env.codecs.principals, d.docs, PRINCIPALS) && TokensReadable(env, d.docs)
    ensures var half := RemoveNamed(env.codecs, d, n).0;
      var (done, r) := RemoveNamed(env.codecs, Disk(half.docs, []), n);
      && r.Ok?
      && Principals(env.codecs, done.docs) == Principals(env.codecs, d.docs) - {n}
      && (forall k :: k in Tokens(env.codecs, done.docs) <==>
            k in Tokens(env.codecs, d.docs) && Tokens(env.codecs, d.docs)[k].principal.name != n)
  {
    RemovalReadable(env, d, n);
    RemoveNamedEffect(env, d, n);
    var half := Disk(RemoveNamed(env.codecs, d, n).0.docs, []);
    RemovalReadable(env, half, n);
    RemoveNamedEffect(env, half, n);
  }

  lemma RemovalReadable(env: Env, d: Disk, n: string)
    requires Faithful(env.codecs)
    requires Readable(env.codecs.principals, d.docs, PRINCIPALS) && TokensReadable(env, d.docs)
    ensures var (d', r) := RemoveNamed(env.codecs, d, n);
      && Readable(env.codecs.principals, d'.docs, PRINCIPALS) && TokensReadable(env, d'.docs)
      && (d.faults == [] ==> r.Ok?)
  {
    var (d1, r1) := DropRecord(env.codecs, d, n);
    MutateEffect(env.codecs.principals, d, PRINCIPALS, Take(n));
    TokensElsewhere(env, d.docs, d1.docs, PRINCIPALS);
    DropEffect(env, d1, n);
    if r1.Ok? {
      KeysDistinct();
      ViewFrame(env.codecs.principals, d1.docs, DropTokensOf(env.codecs, d1, n).0.docs, REFRESH_TOKENS, PRINCIPALS);
    }
  }
}
