/** Rotating refresh tokens, persisted as one map document. */
module RefreshTokens {
  import opened Wrappers
  import opened SecretStores
  import opened MapStores
  import opened Records

  function IssueToken(c: Codecs, d: Disk, g: RefreshGrant, draw: Option<string>): (Disk, Result<string>) {
    if draw.None? then (d, Failed)
    else
      var (d', r) := Mutate(c.refresh, d, REFRESH_TOKENS, Put(draw.value, g));
      (d', if r.Failed? then Failed else Ok(draw.value))
  }

  function ExchangeToken(c: Codecs, d: Disk, token: string): (Disk, Result<Option<RefreshGrant>>) {
    Mutate(c.refresh, d, REFRESH_TOKENS, Take(token))
  }

  function NamedBy(name: string): RefreshGrant -> bool {
    (g: RefreshGrant) => g.principal.name == name
  }

  function DropTokensOf(c: Codecs, d: Disk, name: string): (Disk, Result<()>) {
    if name == "" then (d, Ok(()))
    else Mutate(c.refresh, d, REFRESH_TOKENS, DropWhere(NamedBy(name)))
  }

  /** The live refresh tokens. */
  function Tokens(c: Codecs, docs: map<string, string>): map<string, RefreshGrant> {
    View(c.refresh, docs, REFRESH_TOKENS)
  }

  class RefreshStore {
    const codecs: Codecs
    const grants: JsonMapStore<RefreshGrant>

    constructor (store: SecretStore, codecs: Codecs)
      ensures Valid() && grants.store == store && this.codecs == codecs
    {
      this.codecs := codecs;
      grants := new JsonMapStore(store, REFRESH_TOKENS, codecs.refresh);
    }

    ghost predicate Valid() {
      grants.key == REFRESH_TOKENS && grants.codec == codecs.refresh
    }

    method Issue(g: RefreshGrant, draw: Option<string>) returns (r: Result<string>)
      requires Valid()
      modifies grants.store
      ensures (grants.store.Image(), r) == IssueToken(codecs, old(grants.store.Image()), g, draw)
    {
      if draw.None? {
        return Failed;
      }
      var saved := grants.Update(Put(draw.value, g));
      return if saved.Failed? then Failed else Ok(draw.value);
    }

    method Exchange(token: string) returns (r: Result<Option<RefreshGrant>>)
      requires Valid()
      modifies grants.store
      ensures (grants.store.Image(), r) == ExchangeToken(codecs, old(grants.store.Image()), token)
    {
      r := grants.Update(Take(token));
    }

    method RemoveForPrincipal(name: string) returns (r: Result<()>)
      requires Valid()
      modifies grants.store
      ensures (grants.store.Image(), r) == DropTokensOf(codecs, old(grants.store.Image()), name)
    {
      if name == "" {
        return Ok(());
      }
      r := grants.Update(DropWhere(NamedBy(name)));
    }
  }
}
