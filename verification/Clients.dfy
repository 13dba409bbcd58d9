/** Dynamically registered clients, and the redirect check behind every stored URI. */
module Clients {
  import opened Wrappers
  import opened SecretStores
  import opened MapStores
  import opened Records

  /** What net/url reports of a parsed URL. */
  datatype Url = Url(scheme: string, host: string, hostname: string)

  type Parser = string -> Option<Url>

  predicate ValidRedirectURI(parse: Parser, s: string) {
    match parse(s)
    case None => false
    case Some(u) =>
      && u.scheme != "" && u.host != ""
      && (u.scheme == "https" || (u.scheme == "http" && u.hostname in {"localhost", "127.0.0.1", "::1"}))
  }

  function RegisterClient(c: Codecs, d: Disk, uris: seq<string>, name: string, draw: Option<string>): (Disk, Result<Client>) {
    if draw.None? then (d, Failed)
    else
      var client := Client(draw.value, uris, name);
      var (d', r) := Mutate(c.clients, d, CLIENTS, Put(draw.value, client));
      (d', if r.Failed? then Failed else Ok(client))
  }

  function GetClient(c: Codecs, d: Disk, id: string): (Disk, Result<Option<Client>>) {
    Lookup(c.clients, d, CLIENTS, id)
  }

  function Registered(c: Codecs, docs: map<string, string>): map<string, Client> {
    View(c.clients, docs, CLIENTS)
  }

  class ClientRegistry {
    const codecs: Codecs
    const clients: JsonMapStore<Client>

    constructor (store: SecretStore, codecs: Codecs)
      ensures Valid() && clients.store == store && this.codecs == codecs
    {
      this.codecs := codecs;
      clients := new JsonMapStore(store, CLIENTS, codecs.clients);
    }

    ghost predicate Valid() {
      clients.key == CLIENTS && clients.codec == codecs.clients
    }

    method Register(uris: seq<string>, name: string, draw: Option<string>) returns (r: Result<Client>)
      requires Valid()
      modifies clients.store
      ensures (clients.store.Image(), r) == RegisterClient(codecs, old(clients.store.Image()), uris, name, draw)
    {
      if draw.None? {
        return Failed;
      }
      var client := Client(draw.value, uris, name);
      var saved := clients.Update(Put(draw.value, client));
      return if saved.Failed? then Failed else Ok(client);
    }

    method Get(id: string) returns (r: Result<Option<Client>>)
      requires Valid()
      modifies clients.store
      ensures (clients.store.Image(), r) == GetClient(codecs, old(clients.store.Image()), id)
    {
      r := clients.Fetch(id);
    }
  }

  /** allowsRedirect's scan finds exactly the registered URIs. */
  method ScanRedirects(client: Client, uri: string) returns (allowed: bool)
    ensures allowed <==> uri in client.redirectURIs
    ensures allowed == client.AllowsRedirect(uri)
  {
    for i := 0 to |client.redirectURIs|
      invariant forall j :: 0 <= j < i ==> client.redirectURIs[j] != uri
    {
      if client.redirectURIs[i] == uri {
        return true;
      }
    }
    return false;
  }
}
