/** What each endpoint answers over a working store: every reply, with the exact condition
    under which it is given and all it leaves behind, in terms of the stored maps. */
module Answers {
  import opened Wrappers
  import opened SecretStores
  import opened MapStores
  import opened Base64Url
  import opened Strings
  import opened Records
  import opened RefreshTokens
  import opened Clients
  import opened AccessTokens
  import opened PairingCodes
  import opened Pairings
  import opened Handlers
  import opened Lineage
  import opened Redemption
  import opened Provenance
  import opened StoreFailures

  // Booting, and the gate.

  /** A server comes up exactly when it has a public URL and a key: 32 bytes or more in store,
      or drawn and stored now. Its tokens then name the public URL as issuer and the resource
      as audience, both without trailing slashes, and live for the configured time or an hour. */
  lemma BootAnswer(d: Disk, cfg: Config, draw: Option<seq<byte>>)
    requires d.faults == []
    ensures var (d', r) := Boot(d, cfg, draw);
      && (r.Ok? <==>
            && TrimSpace(cfg.publicURL) != ""
            && if SIGNING_KEY in d.docs then LongKey(Base64Url.Decode(d.docs[SIGNING_KEY])) else draw.Some?)
      && (r.Ok? ==>
            var i := IssuerOf(r.value.0, r.value.1);
            && i.key == (if SIGNING_KEY in d.docs then Base64Url.Decode(d.docs[SIGNING_KEY]).value else draw.value)
            && d'.docs == (if SIGNING_KEY in d.docs then d.docs else d.docs[SIGNING_KEY := Encode(draw.value)])
            && Unslashed(cfg.publicURL, i.issuer)
            && (if forall k :: 0 <= k < |cfg.resource| ==> cfg.resource[k] == '/' then i.audience == i.issuer
                else Unslashed(cfg.resource, i.audience))
            && i.ttl == (if cfg.ttl > 0 then cfg.ttl else 3600 * 1_000_000_000)
            && r.value.0.scopes == (if cfg.scopes == [] then ["mcp"] else cfg.scopes))
      && (r.Failed? ==> d'.docs == d.docs)
  {
    KeyExactly(d, draw);
    TrimSlashesTrims(cfg.publicURL);
    TrimSlashesTrims(cfg.resource);
  }

  predicate LongKey(key: Option<seq<byte>>) {
    key.Some? && |key.value| >= 32
  }

  /** t is s without the slashes at its end. */
  predicate Unslashed(s: string, t: string) {
    t <= s && (forall i | |t| <= i < |s| :: s[i] == '/') && (t == "" || t[|t| - 1] != '/')
  }

  /** The gate: a token another issuer minted is let in exactly if that issuer has the same
      key, name and audience and its last whole second has not come; the request then acts
      for whom the token was minted. Without a token nobody is let in. */
  lemma GateAnswer(gate: Issuer, minter: Issuer, g: RefreshGrant, minted: int, now: int)
    ensures Protect(gate, None, now).None?
    ensures var v := Protect(gate, Some(minter.Mint(g, minted)), now);
      && (v.Some? <==>
            && gate.key == minter.key && gate.issuer == minter.issuer && gate.audience == minter.audience
            && now < minter.Mint(g, minted).claims.expiresAt)
      && (v.Some? ==>
            && v.value.clientID == g.clientID && v.value.scope == g.scope && v.value.principal == g.principal
            && v.value.expiresAt == minter.Mint(g, minted).claims.expiresAt
            && now < v.value.expiresAt <= minted + minter.ttl < v.value.expiresAt + 1_000_000_000)
  {
    MintedClaims(minter, g, minted);
  }

  // Registration.

  /** A registration is refused exactly if it names no URI or one that is not secure, and
      otherwise, with an id drawn, files exactly the client asked for. */
  lemma RegisterAnswer(env: Env, d: Disk, uris: seq<string>, name: string, draw: Option<string>)
    requires Faithful(env.codecs) && d.faults == [] && Readable(env.codecs.clients, d.docs, CLIENTS)
    ensures var (d', reply) := HandleRegister(env, d, uris, name, draw);
      var cs := Registered(env.codecs, d.docs);
      reply == (if uris == [] || exists i :: 0 <= i < |uris| && !Secure(env.parse, uris[i]) then BadRequest
                else if draw.None? then ServerError
                else Created(Client(draw.value, uris, name)))
      && Registered(env.codecs, d'.docs) == (if reply.Created? then cs[draw.value := Client(draw.value, uris, name)] else cs)
  {
    RegisterFailsSafe(env, d, uris, name, draw);
  }

  // Approval.

  /** The request names a registered client and one of its URIs. */
  predicate Known(cs: map<string, Client>, p: AuthParams) {
    p.clientID != "" && p.redirectURI != "" && p.clientID in cs && p.redirectURI in cs[p.clientID].redirectURIs
  }

  /** It asks for a code, with an S256 challenge. */
  predicate WellAsked(p: AuthParams) {
    p.responseType == "code" && p.codeChallenge != "" && p.codeChallengeMethod == "S256"
  }

  /** The parameters a browser is sent back with. */
  function Returned(p: AuthParams, key: string, value: string): map<string, string> {
    if p.state != "" then map[key := value, "state" := p.state] else map[key := value]
  }

  lemma SentBack(env: Env, p: AuthParams, key: string, value: string)
    ensures RedirectWith(env, p, map[key := value]) ==
      if env.parse(p.redirectURI).None? then ErrorPage else Redirect(p.redirectURI, Returned(p, key, value))
  {
    assert map[key := value] + map["state" := p.state] == map[key := value, "state" := p.state];
    assert map[key := value] + map[] == map[key := value];
  }

  /** The error a request that is not well asked is sent back with. */
  function WhatIsWrong(p: AuthParams): string {
    if p.responseType != "code" then "unsupported_response_type" else "invalid_request"
  }

  predicate StoreWorks(env: Env, d: Disk) {
    d.faults == [] && Readable(env.codecs.clients, d.docs, CLIENTS) && Readable(env.codecs.principals, d.docs, PRINCIPALS)
  }

  /** Requests refused before any pairing code is looked at: the store is left alone; a
      request that is not known is shown an error, one that is not well asked is sent back. */
  lemma GateKept(env: Env, d: Disk, p: AuthParams, input: string, draw: Draw)
    requires StoreWorks(env, d)
    ensures var (d', checked) := CheckSubmission(env, d, p, input, draw);
      var known := Known(Registered(env.codecs, d.docs), p);
      && (!known ==> checked == Refused(ErrorPage) && d'.docs == d.docs)
      && (known && !WellAsked(p) ==>
            && d'.docs == d.docs
            && checked == Refused(if env.parse(p.redirectURI).None? then ErrorPage
                                  else Redirect(p.redirectURI, Returned(p, "error", WhatIsWrong(p)))))
      && (known && WellAsked(p) ==>
            var (d2, who) := Identify(env.codecs, Disk(d.docs, []), input, draw);
            && d'.docs == d2.docs
            && checked == (if who.Failed? then Refused(ErrorPage)
                           else if who.value.None? then Refused(FormAgain)
                           else Approved(Registered(env.codecs, d.docs)[p.clientID], who.value.value)))
  {
    LookupExactly(env.codecs.clients, d, CLIENTS, p.clientID);
    var (d', client) := ValidateClientRedirect(env, d, p);
    assert d' == Disk(d.docs, []);
    assert client.Some? <==> Known(Registered(env.codecs, d.docs), p);
    assert ValidateAuthParams(p) == if WellAsked(p) then None else Some(WhatIsWrong(p));
    SentBack(env, p, "error", WhatIsWrong(p));
  }

  /** The shared code, read or drawn. */
  function SharedNow(docs: map<string, string>, draw: Draw): Option<string> {
    if PAIRING_CODE in docs then Some(docs[PAIRING_CODE]) else if draw.Some? then Some(CodeOf(draw.value)) else None
  }

  /** What the gates make of a request whose input belongs to who. */
  function Verdict(env: Env, cs: map<string, Client>, p: AuthParams, shared: Option<string>, who: Option<PrincipalGrant>): Checked {
    if !Known(cs, p) then Refused(ErrorPage)
    else if !WellAsked(p) then
      Refused(if env.parse(p.redirectURI).None? then ErrorPage else Redirect(p.redirectURI, Returned(p, "error", WhatIsWrong(p))))
    else if shared.None? then Refused(ErrorPage)
    else if who.None? then Refused(FormAgain)
    else Approved(cs[p.clientID], who.value)
  }

  lemma CheckAnswer(env: Env, d: Disk, p: AuthParams, input: string, draw: Draw) returns (who: Option<PrincipalGrant>)
    requires StoreWorks(env, d)
    ensures var (d', checked) := CheckSubmission(env, d, p, input, draw);
      var cs, shared := Registered(env.codecs, d.docs), SharedNow(d.docs, draw);
      && (shared.Some? ==> Belongs(shared.value, Principals(env.codecs, d.docs), input, who))
      && (shared.None? ==> who.None?)
      && checked == Verdict(env, cs, p, shared, who)
      && d'.docs == (if Known(cs, p) && WellAsked(p) && shared.Some? then d.docs[PAIRING_CODE := shared.value] else d.docs)
  {
    GateKept(env, d, p, input, draw);
    IdentifyExactly(env.codecs, Disk(d.docs, []), input, draw);
    var r := Identify(env.codecs, Disk(d.docs, []), input, draw).1;
    who := if r.Ok? then r.value else None;
  }

  /** The grant a code is issued for. */
  function Asked(cfg: Config, id: string, p: AuthParams, who: PrincipalGrant, now: int): AuthGrant
    requires cfg.Settled()
  {
    AuthGrant(id, p.redirectURI, p.codeChallenge, p.codeChallengeMethod, if p.scope != "" then p.scope else cfg.scopes[0],
              who, now + 60_000_000_000)
  }

  lemma CodeGiven(env: Env, cfg: Config, codes: map<string, AuthGrant>, p: AuthParams, checked: Checked, draw: Option<string>, now: int)
    requires cfg.Settled()
    ensures var (codes', reply) := AnswerSubmission(env, cfg, codes, p, checked, draw, now);
      if checked.Approved? && draw.Some? then
        && codes' == codes[draw.value := Asked(cfg, checked.client.id, p, checked.principal, now)]
        && reply == (if env.parse(p.redirectURI).None? then ErrorPage else Redirect(p.redirectURI, Returned(p, "code", draw.value)))
      else codes' == codes && reply == if checked.Approved? then ErrorPage else checked.reply
  {
    if draw.Some? {
      SentBack(env, p, "code", draw.value);
    }
  }

  /** Approval, completely: with who the input belongs to, a known and well-asked request gets
      its browser back with a code exactly if there is such a holder; the code is for a
      minute, for that holder and for what was asked; the form comes again exactly if the
      input belongs to nobody; and nothing else changes but a shared code first needed now. */
  lemma SubmitAnswer(env: Env, cfg: Config, s: Core, p: AuthParams, input: string, pairDraw: Draw, codeDraw: Option<string>, now: int)
    returns (who: Option<PrincipalGrant>)
    requires cfg.Settled() && StoreWorks(env, s.disk)
    ensures var (s', reply) := AuthorizeSubmit(env, cfg, s, p, input, pairDraw, codeDraw, now);
      var docs, cs := s.disk.docs, Registered(env.codecs, s.disk.docs);
      var shared, asked := SharedNow(docs, pairDraw), Known(cs, p) && WellAsked(p);
      && (shared.Some? ==> Belongs(shared.value, Principals(env.codecs, docs), input, who))
      && (shared.None? ==> who.None?)
      && (reply.FormAgain? <==> asked && shared.Some? && who.None?)
      && (reply.Redirect? <==> Known(cs, p) && env.parse(p.redirectURI).Some? && (!WellAsked(p) || (who.Some? && codeDraw.Some?)))
      && (reply.Redirect? ==>
            reply == Redirect(p.redirectURI, if asked then Returned(p, "code", codeDraw.value) else Returned(p, "error", WhatIsWrong(p))))
      && s'.codes == (if asked && who.Some? && codeDraw.Some?
                      then s.codes[codeDraw.value := Asked(cfg, cs[p.clientID].id, p, who.value, now)] else s.codes)
      && s'.disk.docs == (if asked && shared.Some? then docs[PAIRING_CODE := shared.value] else docs)
  {
    who := CheckAnswer(env, s.disk, p, input, pairDraw);
    CodeGiven(env, cfg, s.codes, p, CheckSubmission(env, s.disk, p, input, pairDraw).1, codeDraw, now);
  }

  // Exchanging a code, and a refresh token.

  /** A code exchange, completely: tokens exactly for a pending code presented in time, by its
      client, for its redirect URI and with its verifier; a 400 exactly otherwise, unless
      signing or drawing fails; and the code is gone in any case. */
  lemma CodeAnswer(env: Env, issuer: Issuer, s: Core, r: CodeRequest, signs: bool, draw: Option<string>, now: int)
    requires Faithful(env.codecs) && s.disk.faults == [] && TokensReadable(env, s.disk.docs)
    ensures var (s', reply) := GrantAuthCode(env, issuer, s, r, signs, draw, now);
      var before, after := Tokens(env.codecs, s.disk.docs), Tokens(env.codecs, s'.disk.docs);
      var bound := r.code in s.codes && Bound(env, s.codes[r.code], s.codes[r.code].expiresAt, r, now);
      && s'.codes == s.codes - {r.code}
      && (reply.Granted? <==> bound && signs && draw.Some?)
      && (reply == Rejected(400) <==> !bound) && (reply == Rejected(500) <==> bound && !(signs && draw.Some?))
      && (reply.Granted? ==>
            && Issued(issuer, Carried(s.codes[r.code]), draw.value, now, reply)
            && after == before[draw.value := Carried(s.codes[r.code])])
      && (reply.Rejected? ==> after == before)
  {
    var g := RedeemCode(env, s.codes, r, now).1;
    if g.Some? {
      IssueEffect(env, s.disk, g.value, draw);
    }
  }

  /** The reply carries an access token for g, signed now, its lifetime in whole seconds, and
      the refresh token under which g is stored. */
  predicate Issued(issuer: Issuer, g: RefreshGrant, refresh: string, now: int, reply: TokenReply) {
    && reply.Granted? && reply.access == issuer.Mint(g, now) && reply.refresh == refresh && reply.scope == g.scope
    && reply.expiresIn * 1_000_000_000 <= issuer.ttl < (reply.expiresIn + 1) * 1_000_000_000
  }

  /** A refresh, completely: tokens exactly for a live refresh token presented with no client
      id or its client's; a 400 exactly otherwise, unless signing or drawing fails; and the
      token presented is gone in any case. */
  lemma RefreshAnswer(env: Env, issuer: Issuer, s: Core, token: string, clientID: string, signs: bool, draw: Option<string>, now: int)
    requires Faithful(env.codecs) && s.disk.faults == [] && TokensReadable(env, s.disk.docs)
    ensures var (s', reply) := GrantRefresh(env, issuer, s, token, clientID, signs, draw, now);
      var before, after := Tokens(env.codecs, s.disk.docs), Tokens(env.codecs, s'.disk.docs);
      var owned := token in before && (clientID == "" || clientID == before[token].clientID);
      && s'.codes == s.codes
      && (reply.Granted? <==> owned && signs && draw.Some?)
      && (reply == Rejected(400) <==> !owned) && (reply == Rejected(500) <==> owned && !(signs && draw.Some?))
      && (reply.Granted? ==>
            && Issued(issuer, before[token], draw.value, now, reply)
            && after == (before - {token})[draw.value := before[token]])
      && (reply.Rejected? ==> after == before - {token})
  {
    ExchangeEffect(env, s.disk, token);
    var (d', g) := RedeemRefresh(env, s.disk, token, clientID);
    if g.value.Some? {
      IssueEffect(env, d', g.value.value, draw);
    }
  }

  // Removing a principal, whatever the store does.

  /** The number of store operations a mutation takes. */
  function Operations(changed: bool): nat {
    if changed then 2 else 1
  }

  /** A removal stops at the first store operation that fails, and fails exactly if one does
      or a document does not decode: the record is read, and saved if it was there; then, for
      a non-empty name, the tokens are read, and saved if any was the name's. */
  lemma RemoveAnswer(env: Env, d: Disk, n: string)
    requires Faithful(env.codecs)
    ensures var (d', r) := RemoveNamed(env.codecs, d, n);
      var recorded := n in Principals(env.codecs, d.docs);
      var held := exists k :: k in Tokens(env.codecs, d.docs) && Tokens(env.codecs, d.docs)[k].principal.name == n;
      var used := Operations(recorded);
      var first := FailsAt(d, 0) || !Readable(env.codecs.principals, d.docs, PRINCIPALS) || (recorded && FailsAt(d, 1));
      var second := n != "" && (FailsAt(d, used) || !TokensReadable(env, d.docs) || (held && FailsAt(d, used + 1)));
      && (r.Failed? <==> first || second)
      && (r.Ok? ==> r.value == recorded)
      && Principals(env.codecs, d'.docs) == (if first then Principals(env.codecs, d.docs) else Principals(env.codecs, d.docs) - {n})
      && (first || second ==> Tokens(env.codecs, d'.docs) == Tokens(env.codecs, d.docs))
  {
    var (d1, r1) := DropRecord(env.codecs, d, n);
    MutateExactly(env.codecs.principals, d, PRINCIPALS, Take(n));
    MutateEffect(env.codecs.principals, d, PRINCIPALS, Take(n));
    TokensElsewhere(env, d.docs, d1.docs, PRINCIPALS);
    RemoveNamedEffect(env, d, n);
    if r1.Ok? {
      assert d1.faults == if |d.faults| <= Operations(n in Principals(env.codecs, d.docs)) then [] else d.faults[Operations(n in Principals(env.codecs, d.docs))..];
      DropFails(env, d1, n);
    }
  }

  lemma DropFails(env: Env, d: Disk, n: string)
    ensures var held := exists k :: k in Tokens(env.codecs, d.docs) && Tokens(env.codecs, d.docs)[k].principal.name == n;
      DropTokensOf(env.codecs, d, n).1.Failed? <==>
        n != "" && (FailsAt(d, 0) || !TokensReadable(env, d.docs) || (held && FailsAt(d, 1)))
  {
    if n != "" {
      var tokens := Tokens(env.codecs, d.docs);
      MutateExactly(env.codecs.refresh, d, REFRESH_TOKENS, DropWhere(NamedBy(n)));
      assert forall k :: k in tokens ==> (NamedBy(n)(tokens[k]) <==> tokens[k].principal.name == n);
    }
  }
}
