/** The OAuth endpoints as functions of the server's state: what they return, what they
    leave in the store and in the code table, and which store operations they make. */
module Handlers {
  import opened Wrappers
  import opened SecretStores
  import opened MapStores
  import opened Base64Url
  import opened Strings
  import opened Records
  import opened RefreshTokens
  import opened AuthCodes
  import opened Clients
  import opened AccessTokens
  import opened Pairings
  import opened Pkce

  /** What the source calls out to: JSON, URL parsing, SHA-256. */
  datatype Env = Env(codecs: Codecs, parse: Parser, sha: Sha256)

  const DEFAULT_TOKEN_TTL := 3600 * SECOND
  const AUTH_CODE_TTL := 60 * SECOND
  const DEFAULT_SCOPE := "mcp"

  datatype Config = Config(publicURL: string, resource: string, ttl: int, scopes: seq<string>) {
    predicate Settled() {
      ttl > 0 && |scopes| > 0
    }
  }

  function TrimSlashes(s: string): string {
    if s != "" && s[|s| - 1] == '/' then TrimSlashes(s[..|s| - 1]) else s
  }

  /** New's validation and defaults. */
  function Settle(cfg: Config): Option<Config> {
    if TrimSpace(cfg.publicURL) == "" then None
    else
      var url, resource := TrimSlashes(cfg.publicURL), TrimSlashes(cfg.resource);
      Some(Config(url,
                  if resource == "" then url else resource,
                  if cfg.ttl <= 0 then DEFAULT_TOKEN_TTL else cfg.ttl,
                  if cfg.scopes == [] then [DEFAULT_SCOPE] else cfg.scopes))
  }

  lemma {:induction false} TrimSlashesTrims(s: string)
    ensures TrimSlashes(s) <= s && forall i :: |TrimSlashes(s)| <= i < |s| ==> s[i] == '/'
    ensures TrimSlashes(s) == "" || TrimSlashes(s)[|TrimSlashes(s)| - 1] != '/'
  {
    if s != "" && s[|s| - 1] == '/' {
      TrimSlashesTrims(s[..|s| - 1]);
    }
  }

  /** A configuration settles exactly when it has a public URL; settled, its URLs have lost
      their trailing slashes and nothing else, and what was left out has its default. */
  lemma SettlesTo(cfg: Config)
    ensures Settle(cfg).Some? <==> TrimSpace(cfg.publicURL) != ""
    ensures Settle(cfg).Some? ==>
      var c := Settle(cfg).value;
      && c.Settled()
      && c.publicURL <= cfg.publicURL && (forall i :: |c.publicURL| <= i < |cfg.publicURL| ==> cfg.publicURL[i] == '/')
      && (c.publicURL == "" || c.publicURL[|c.publicURL| - 1] != '/')
      && (c.resource == c.publicURL || (c.resource != "" && c.resource <= cfg.resource))
      && ((forall i :: 0 <= i < |cfg.resource| ==> cfg.resource[i] == '/') ==> c.resource == c.publicURL)
      && (cfg.ttl > 0 ==> c.ttl == cfg.ttl) && (cfg.ttl <= 0 ==> c.ttl == DEFAULT_TOKEN_TTL)
      && (cfg.scopes != [] ==> c.scopes == cfg.scopes) && (cfg.scopes == [] ==> c.scopes == [DEFAULT_SCOPE])
  {
    TrimSlashesTrims(cfg.publicURL);
    TrimSlashesTrims(cfg.resource);
  }

  function IssuerOf(cfg: Config, key: seq<byte>): Issuer {
    Issuer(key, cfg.publicURL, cfg.resource, cfg.ttl)
  }

  /** The mutable state the handlers share. */
  datatype Core = Core(disk: Disk, codes: map<string, AuthGrant>)

  datatype AuthParams = AuthParams(
    clientID: string, redirectURI: string, state: string, scope: string,
    codeChallenge: string, codeChallengeMethod: string, responseType: string)

  datatype AuthorizeReply = ErrorPage | FormAgain | Redirect(to: string, params: map<string, string>)

  function ValidateClientRedirect(env: Env, d: Disk, p: AuthParams): (Disk, Option<Client>) {
    if p.clientID == "" then (d, None)
    else
      var (d', c) := GetClient(env.codecs, d, p.clientID);
      if c.Failed? || c.value.None? then (d', None)
      else if p.redirectURI == "" || !c.value.value.AllowsRedirect(p.redirectURI) then (d', None)
      else (d', Some(c.value.value))
  }

  /** An OAuth error code, or nothing. */
  function ValidateAuthParams(p: AuthParams): Option<string> {
    if p.responseType != "code" then Some("unsupported_response_type")
    else if p.codeChallenge == "" || p.codeChallengeMethod != S256 then Some("invalid_request")
    else None
  }

  function GrantedScope(cfg: Config, requested: string): string
    requires cfg.Settled()
  {
    if requested != "" then requested else cfg.scopes[0]
  }

  function RedirectWith(env: Env, p: AuthParams, extra: map<string, string>): AuthorizeReply {
    if env.parse(p.redirectURI).None? then ErrorPage
    else Redirect(p.redirectURI, extra + (if p.state != "" then map["state" := p.state] else map[]))
  }

  /** The gates of a submission, before any code is issued. */
  datatype Checked = Refused(reply: AuthorizeReply) | Approved(client: Client, principal: PrincipalGrant)

  function CheckSubmission(env: Env, d: Disk, p: AuthParams, input: string, draw: Draw): (Disk, Checked) {
    var (d', client) := ValidateClientRedirect(env, d, p);
    if client.None? then (d', Refused(ErrorPage))
    else
      var bad := ValidateAuthParams(p);
      if bad.Some? then (d', Refused(RedirectWith(env, p, map["error" := bad.value])))
      else
        var (d'', who) := Identify(env.codecs, d', input, draw);
        if who.Failed? then (d'', Refused(ErrorPage))
        else if who.value.None? then (d'', Refused(FormAgain))
        else (d'', Approved(client.value, who.value.value))
  }

  /** A submission touches no document but the shared pairing code. */
  lemma CheckSubmissionDocs(env: Env, d: Disk, p: AuthParams, input: string, draw: Draw)
    ensures SameExcept(d.docs, CheckSubmission(env, d, p, input, draw).0.docs, PAIRING_CODE)
  {
    var (d', client) := ValidateClientRedirect(env, d, p);
    assert d'.docs == d.docs;
    if client.Some? && ValidateAuthParams(p).None? {
      IdentifyDocs(env.codecs, d', input, draw);
    }
  }

  function GrantOf(cfg: Config, p: AuthParams, client: Client, principal: PrincipalGrant): AuthGrant
    requires cfg.Settled()
  {
    AuthGrant(client.id, p.redirectURI, p.codeChallenge, p.codeChallengeMethod, GrantedScope(cfg, p.scope), principal, 0)
  }

  function AuthorizeSubmit(env: Env, cfg: Config, s: Core, p: AuthParams, input: string, pairDraw: Draw, codeDraw: Option<string>, now: int):
    (Core, AuthorizeReply)
    requires cfg.Settled()
  {
    var (d', checked) := CheckSubmission(env, s.disk, p, input, pairDraw);
    var (codes', reply) := AnswerSubmission(env, cfg, s.codes, p, checked, codeDraw, now);
    (Core(d', codes'), reply)
  }

  function AnswerSubmission(env: Env, cfg: Config, codes: map<string, AuthGrant>, p: AuthParams, checked: Checked, draw: Option<string>, now: int):
    (map<string, AuthGrant>, AuthorizeReply)
    requires cfg.Settled()
  {
    if checked.Refused? then (codes, checked.reply)
    else
      var (codes', code) := IssueCode(codes, GrantOf(cfg, p, checked.client, checked.principal), draw, now + AUTH_CODE_TTL);
      (codes', if code.Failed? then ErrorPage else RedirectWith(env, p, map["code" := code.value]))
  }

  datatype CodeRequest = CodeRequest(code: string, clientID: string, redirectURI: string, verifier: string)

  datatype TokenReply = Rejected(status: nat) | Granted(access: Jwt, expiresIn: int, refresh: string, scope: string)

  /** Consuming a code and checking the request against it. */
  function RedeemCode(env: Env, codes: map<string, AuthGrant>, r: CodeRequest, now: int): (map<string, AuthGrant>, Option<RefreshGrant>) {
    var (codes', grant) := ConsumeCode(codes, r.code, now);
    if grant.None? then (codes', None)
    else
      var g := grant.value;
      if g.clientID != r.clientID || g.redirectURI != r.redirectURI then (codes', None)
      else if !VerifyPKCE(env.sha, g.codeChallenge, g.codeChallengeMethod, r.verifier) then (codes', None)
      else (codes', Some(RefreshGrant(g.clientID, g.scope, g.principal)))
  }

  /** Exchanging a refresh token and checking the presented client, if any. */
  function RedeemRefresh(env: Env, d: Disk, token: string, clientID: string): (Disk, Result<Option<RefreshGrant>>) {
    var (d', r) := ExchangeToken(env.codecs, d, token);
    if r.Failed? || r.value.None? then (d', r)
    else if clientID != "" && clientID != r.value.value.clientID then (d', Ok(None))
    else (d', r)
  }

  function IssueTokens(env: Env, issuer: Issuer, d: Disk, g: RefreshGrant, signs: bool, draw: Option<string>, now: int): (Disk, TokenReply) {
    if !signs then (d, Rejected(500))
    else
      var (d', refresh) := IssueToken(env.codecs, d, g, draw);
      (d', if refresh.Failed? then Rejected(500)
           else Granted(issuer.Mint(g, now), issuer.ttl / SECOND, refresh.value, g.scope))
  }

  function GrantAuthCode(env: Env, issuer: Issuer, s: Core, r: CodeRequest, signs: bool, draw: Option<string>, now: int): (Core, TokenReply) {
    var (codes', g) := RedeemCode(env, s.codes, r, now);
    if g.None? then (s.(codes := codes'), Rejected(400))
    else
      var (d', reply) := IssueTokens(env, issuer, s.disk, g.value, signs, draw, now);
      (Core(d', codes'), reply)
  }

  function GrantRefresh(env: Env, issuer: Issuer, s: Core, token: string, clientID: string, signs: bool, draw: Option<string>, now: int): (Core, TokenReply) {
    var (d', g) := RedeemRefresh(env, s.disk, token, clientID);
    if g.Failed? then (s.(disk := d'), Rejected(500))
    else if g.value.None? then (s.(disk := d'), Rejected(400))
    else
      var (d'', reply) := IssueTokens(env, issuer, d', g.value.value, signs, draw, now);
      (s.(disk := d''), reply)
  }

  datatype RegisterReply = BadRequest | ServerError | Created(client: Client)

  function HandleRegister(env: Env, d: Disk, uris: seq<string>, name: string, draw: Option<string>): (Disk, RegisterReply) {
    if uris == [] || exists i | 0 <= i < |uris| :: !ValidRedirectURI(env.parse, uris[i]) then (d, BadRequest)
    else
      var (d', c) := RegisterClient(env.codecs, d, uris, name, draw);
      (d', if c.Failed? then ServerError else Created(c.value))
  }

  /** The gate on the MCP endpoint: the identity attached to an admitted request. */
  function Protect(issuer: Issuer, bearer: Option<Jwt>, now: int): Option<Verified> {
    if bearer.None? then None else issuer.Validate(bearer.value, now)
  }

  /** The server object: its stores, and the handlers as methods over them. */
  class OAuthServer {
    const env: Env
    const cfg: Config
    const issuer: Issuer
    const store: SecretStore
    const pairing: Pairing
    const codes: AuthCodeStore
    const clients: ClientRegistry
    const refresh: RefreshStore

    constructor (env: Env, cfg: Config, key: seq<byte>, store: SecretStore)
      requires cfg.Settled()
      ensures Valid() && this.env == env && this.cfg == cfg && this.store == store && codes.m == map[]
      ensures issuer == IssuerOf(cfg, key)
    {
      this.env, this.cfg, this.store := env, cfg, store;
      issuer := IssuerOf(cfg, key);
      pairing := new Pairing(store, env.codecs);
      codes := new AuthCodeStore(AUTH_CODE_TTL);
      clients := new ClientRegistry(store, env.codecs);
      refresh := new RefreshStore(store, env.codecs);
    }

    ghost predicate Valid() {
      && cfg.Settled()
      && pairing.Valid() && pairing.store == store && pairing.codecs == env.codecs
      && codes.ttl == AUTH_CODE_TTL
      && clients.Valid() && clients.clients.store == store && clients.codecs == env.codecs
      && refresh.Valid() && refresh.grants.store == store && refresh.codecs == env.codecs
    }

    function State(): Core
      reads store, codes
    {
      Core(store.Image(), codes.m)
    }

    method CheckClientRedirect(p: AuthParams) returns (r: Option<Client>)
      requires Valid()
      modifies store
      ensures (store.Image(), r) == ValidateClientRedirect(env, old(store.Image()), p)
    {
      if p.clientID == "" {
        return None;
      }
      var c := clients.Get(p.clientID);
      if c.Failed? || c.value.None? {
        return None;
      }
      var allowed := ScanRedirects(c.value.value, p.redirectURI);
      if p.redirectURI == "" || !allowed {
        return None;
      }
      return c.value;
    }

    method Check(p: AuthParams, input: string, draw: Draw) returns (checked: Checked)
      requires Valid()
      modifies store
      ensures (store.Image(), checked) == CheckSubmission(env, old(store.Image()), p, input, draw)
    {
      var client := CheckClientRedirect(p);
      if client.None? {
        return Refused(ErrorPage);
      }
      var bad := ValidateAuthParams(p);
      if bad.Some? {
        return Refused(RedirectWith(env, p, map["error" := bad.value]));
      }
      var who := pairing.VerifyPrincipal(input, draw);
      if who.Failed? {
        return Refused(ErrorPage);
      }
      return if who.value.None? then Refused(FormAgain) else Approved(client.value, who.value.value);
    }

    method SubmitAuthorize(p: AuthParams, input: string, pairDraw: Draw, codeDraw: Option<string>, now: int) returns (reply: AuthorizeReply)
      requires Valid()
      modifies store, codes
      ensures (State(), reply) == AuthorizeSubmit(env, cfg, old(State()), p, input, pairDraw, codeDraw, now)
    {
      var checked := Check(p, input, pairDraw);
      reply := Answer(p, checked, codeDraw, now);
    }

    method Answer(p: AuthParams, checked: Checked, draw: Option<string>, now: int) returns (reply: AuthorizeReply)
      requires Valid()
      modifies codes
      ensures (codes.m, reply) == AnswerSubmission(env, cfg, old(codes.m), p, checked, draw, now)
    {
      if checked.Refused? {
        return checked.reply;
      }
      var code := codes.Issue(GrantOf(cfg, p, checked.client, checked.principal), draw, now);
      return if code.Failed? then ErrorPage else RedirectWith(env, p, map["code" := code.value]);
    }

    method MintAndIssue(g: RefreshGrant, signs: bool, draw: Option<string>, now: int) returns (reply: TokenReply)
      requires Valid()
      modifies store
      ensures (store.Image(), reply) == IssueTokens(env, issuer, old(store.Image()), g, signs, draw, now)
    {
      if !signs {
        return Rejected(500);
      }
      var access := issuer.Mint(g, now);
      var token := refresh.Issue(g, draw);
      if token.Failed? {
        return Rejected(500);
      }
      return Granted(access, issuer.ttl / SECOND, token.value, g.scope);
    }

    method ExchangeCode(r: CodeRequest, signs: bool, draw: Option<string>, now: int) returns (reply: TokenReply)
      requires Valid()
      modifies store, codes
      ensures (State(), reply) == GrantAuthCode(env, issuer, old(State()), r, signs, draw, now)
    {
      var grant := codes.Consume(r.code, now);
      if grant.None? {
        return Rejected(400);
      }
      var g := grant.value;
      if g.clientID != r.clientID || g.redirectURI != r.redirectURI {
        return Rejected(400);
      }
      if !VerifyPKCE(env.sha, g.codeChallenge, g.codeChallengeMethod, r.verifier) {
        return Rejected(400);
      }
      reply := MintAndIssue(RefreshGrant(g.clientID, g.scope, g.principal), signs, draw, now);
    }

    method ExchangeRefresh(token: string, clientID: string, signs: bool, draw: Option<string>, now: int) returns (reply: TokenReply)
      requires Valid()
      modifies store, codes
      ensures (State(), reply) == GrantRefresh(env, issuer, old(State()), token, clientID, signs, draw, now)
    {
      var g := refresh.Exchange(token);
      if g.Failed? {
        return Rejected(500);
      }
      if g.value.None? {
        return Rejected(400);
      }
      if clientID != "" && clientID != g.value.value.clientID {
        return Rejected(400);
      }
      reply := MintAndIssue(g.value.value, signs, draw, now);
    }

    method RegisterOne(uris: seq<string>, name: string, draw: Option<string>) returns (reply: RegisterReply)
      requires Valid()
      modifies store
      ensures (store.Image(), reply) == HandleRegister(env, old(store.Image()), uris, name, draw)
    {
      if uris == [] {
        return BadRequest;
      }
      for i := 0 to |uris|
        invariant forall j :: 0 <= j < i ==> ValidRedirectURI(env.parse, uris[j])
        invariant store.Image() == old(store.Image())
      {
        if !ValidRedirectURI(env.parse, uris[i]) {
          return BadRequest;
        }
      }
      var c := clients.Register(uris, name, draw);
      return if c.Failed? then ServerError else Created(c.value);
    }
  }

  /** New: the settled configuration and the key its issuer signs with. */
  function Boot(d: Disk, cfg: Config, draw: Option<seq<byte>>): (Disk, Result<(Config, seq<byte>)>) {
    var settled := Settle(cfg);
    if settled.None? then (d, Failed)
    else
      var (d', key) := LoadOrCreateKey(d, draw);
      (d', if key.Failed? then Failed else Ok((settled.value, key.value)))
  }

  method New(env: Env, cfg: Config, store: SecretStore, draw: Option<seq<byte>>) returns (server: OAuthServer?)
    modifies store
    ensures var (d', r) := Boot(old(store.Image()), cfg, draw);
      && store.Image() == d'
      && (server == null <==> r.Failed?)
      && (server != null ==>
            && server.Valid() && server.env == env && server.store == store && server.codes.m == map[]
            && server.cfg == r.value.0 && server.issuer == IssuerOf(r.value.0, r.value.1))
  {
    var settled := Settle(cfg);
    if settled.None? {
      return null;
    }
    var key := LoadOrCreateSigningKey(store, draw);
    if key.Failed? {
      return null;
    }
    server := new OAuthServer(env, settled.value, key.value, store);
  }
}
