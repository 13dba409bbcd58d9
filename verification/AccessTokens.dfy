/** Access tokens: claims, expiry arithmetic and the persisted signing key. */
module AccessTokens {
  import opened Wrappers
  import opened SecretStores
  import opened Base64Url
  import opened Records

  /** Times are nanoseconds; JWT dates are whole seconds. */
  const SECOND := 1_000_000_000
  const KEY_BYTES := 32

  function Truncate(t: int): (s: int)
    ensures s <= t < s + SECOND && s % SECOND == 0
  {
    t / SECOND * SECOND
  }

  datatype Claims = Claims(
    issuer: string, subject: string, audience: string, scope: string, principal: PrincipalGrant,
    issuedAt: int, expiresAt: int)

  /** A token and the key its signature verifies under. */
  datatype Jwt = Jwt(claims: Claims, key: seq<byte>)

  datatype Verified = Verified(clientID: string, scope: string, principal: PrincipalGrant, expiresAt: int)

  datatype Issuer = Issuer(key: seq<byte>, issuer: string, audience: string, ttl: int) {
    function Mint(g: RefreshGrant, now: int): Jwt {
      Jwt(Claims(issuer, g.clientID, audience, g.scope, g.principal, Truncate(now), Truncate(now + ttl)), key)
    }

    predicate Addressed(c: Claims) {
      c.issuer == issuer && c.audience == audience
    }

    /** Signature, issuer, audience, and the clock strictly before exp (section 4.1.4 of RFC 7519). */
    function Validate(token: Jwt, now: int): Option<Verified> {
      var c := token.claims;
      if token.key == key && Addressed(c) && now < c.expiresAt
      then Some(Verified(c.subject, c.scope, c.principal, c.expiresAt))
      else None
    }
  }

  function LoadOrCreateKey(d: Disk, draw: Option<seq<byte>>): (Disk, Result<seq<byte>>) {
    var (d', v) := d.Get(SIGNING_KEY);
    if v.Failed? then (d', Failed)
    else if v.value.Some? then
      var key := Decode(v.value.value);
      (d', if key.None? || |key.value| < KEY_BYTES then Failed else Ok(key.value))
    else if draw.None? then (d', Failed)
    else
      var (d'', r) := d'.Set(SIGNING_KEY, Encode(draw.value));
      (d'', if r.Failed? then Failed else Ok(draw.value))
  }

  method LoadOrCreateSigningKey(store: SecretStore, draw: Option<seq<byte>>) returns (r: Result<seq<byte>>)
    modifies store
    ensures (store.Image(), r) == LoadOrCreateKey(old(store.Image()), draw)
  {
    var v := store.Get(SIGNING_KEY);
    if v.Failed? {
      return Failed;
    }
    if v.value.Some? {
      var key := Decode(v.value.value);
      return if key.None? || |key.value| < KEY_BYTES then Failed else Ok(key.value);
    }
    if draw.None? {
      return Failed;
    }
    var saved := store.Set(SIGNING_KEY, Encode(draw.value));
    return if saved.Failed? then Failed else Ok(draw.value);
  }

  /** Loading either reads the stored key or stores the one drawn. */
  lemma KeyEffect(d: Disk, draw: Option<seq<byte>>)
    requires draw.Some? ==> |draw.value| == KEY_BYTES
    ensures var (d', r) := LoadOrCreateKey(d, draw);
      && (d'.docs == d.docs || (SIGNING_KEY !in d.docs && draw.Some? && d'.docs == d.docs[SIGNING_KEY := Encode(draw.value)]))
      && (r.Ok? ==> SIGNING_KEY in d'.docs && Decode(d'.docs[SIGNING_KEY]) == Some(r.value) && |r.value| >= KEY_BYTES)
  {
    if draw.Some? {
      DecodeEncode(draw.value);
    }
  }

  /** Which key is loaded: a stored one of 32 bytes or more, as decoded; with none stored the
      one drawn, which is then stored; and an error otherwise. */
  lemma KeyExactly(d: Disk, draw: Option<seq<byte>>)
    ensures var (d', r) := LoadOrCreateKey(d, draw);
      if SIGNING_KEY in d.docs then
        && d'.docs == d.docs
        && (r.Ok? <==> !FailsAt(d, 0) && Decode(d.docs[SIGNING_KEY]).Some? && |Decode(d.docs[SIGNING_KEY]).value| >= 32)
        && (r.Ok? ==> Decode(d.docs[SIGNING_KEY]) == Some(r.value))
      else
        && (r.Ok? <==> !FailsAt(d, 0) && draw.Some? && !FailsAt(d, 1))
        && (r.Ok? ==> r.value == draw.value && d'.docs == d.docs[SIGNING_KEY := Encode(draw.value)])
        && (r.Failed? ==> d'.docs == d.docs)
  {
  }

  /** A key once created is the key every later load returns, store errors aside. */
  lemma KeyPersists(d: Disk, draw: Option<seq<byte>>, faults: seq<bool>, later: Option<seq<byte>>)
    requires draw.Some? ==> |draw.value| == KEY_BYTES
    requires LoadOrCreateKey(d, draw).1.Ok?
    ensures var (d', r) := LoadOrCreateKey(d, draw);
      var (d'', r') := LoadOrCreateKey(Disk(d'.docs, faults), later);
      d''.docs == d'.docs && (r' == r || (r'.Failed? && Disk(d'.docs, faults).Fails()))
  {
    if draw.Some? {
      DecodeEncode(draw.value);
    }
  }

  /** A token validates for its own issuer from minting until the second its lifetime ends in. */
  lemma MintedValidates(i: Issuer, g: RefreshGrant, minted: int, now: int)
    ensures i.Validate(i.Mint(g, minted), now) ==
      if now < Truncate(minted + i.ttl)
      then Some(Verified(g.clientID, g.scope, g.principal, Truncate(minted + i.ttl)))
      else None
    ensures now >= minted + i.ttl ==> i.Validate(i.Mint(g, minted), now).None?
  {
  }

  /** What a minted token says: who issued it, for whom and where, and the whole seconds it
      was signed in and dies in. */
  lemma MintedClaims(i: Issuer, g: RefreshGrant, now: int)
    ensures var t := i.Mint(g, now);
      && t.key == i.key && t.claims.issuer == i.issuer && t.claims.audience == i.audience
      && t.claims.subject == g.clientID && t.claims.scope == g.scope && t.claims.principal == g.principal
      && t.claims.issuedAt % 1_000_000_000 == 0 && t.claims.issuedAt <= now < t.claims.issuedAt + 1_000_000_000
      && t.claims.expiresAt % 1_000_000_000 == 0 && t.claims.expiresAt <= now + i.ttl < t.claims.expiresAt + 1_000_000_000
  {
  }
}
