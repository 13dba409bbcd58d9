/** The values the OAuth layer stores and passes around. */
module Records {
  import opened MapStores

  /** The identity a pairing established; the zero value is the anonymous operator. */
  datatype PrincipalGrant = PrincipalGrant(name: string, binding: map<string, string>) {
    predicate IsAnonymous() {
      name == "" && |binding| == 0
    }
  }

  const OPERATOR := PrincipalGrant("", map[])

  datatype PrincipalRecord = PrincipalRecord(code: string, binding: map<string, string>)

  datatype Client = Client(id: string, redirectURIs: seq<string>, name: string) {
    predicate AllowsRedirect(uri: string) {
      exists i | 0 <= i < |redirectURIs| :: redirectURIs[i] == uri
    }
  }

  datatype AuthGrant = AuthGrant(
    clientID: string, redirectURI: string, codeChallenge: string, codeChallengeMethod: string,
    scope: string, principal: PrincipalGrant, expiresAt: int)

  datatype RefreshGrant = RefreshGrant(clientID: string, scope: string, principal: PrincipalGrant)

  /** The JSON codecs of the three map documents. */
  datatype Codecs = Codecs(
    clients: Codec<Client>, principals: Codec<PrincipalRecord>, refresh: Codec<RefreshGrant>)

  ghost predicate Faithful(c: Codecs) {
    RoundTrips(c.clients) && RoundTrips(c.principals) && RoundTrips(c.refresh)
  }
}
