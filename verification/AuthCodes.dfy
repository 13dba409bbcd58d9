/** Single-use authorization codes, kept in memory. */
module AuthCodes {
  import opened Wrappers
  import opened Records

  function IssueCode(codes: map<string, AuthGrant>, g: AuthGrant, draw: Option<string>, expiresAt: int):
    (map<string, AuthGrant>, Result<string>)
  {
    if draw.None? then (codes, Failed)
    else (codes[draw.value := g.(expiresAt := expiresAt)], Ok(draw.value))
  }

  /** The code goes whether or not it is still valid; it is valid up to and including its expiry. */
  function ConsumeCode(codes: map<string, AuthGrant>, code: string, now: int): (map<string, AuthGrant>, Option<AuthGrant>) {
    (codes - {code}, if code in codes && now <= codes[code].expiresAt then Some(codes[code]) else None)
  }

  class AuthCodeStore {
    var m: map<string, AuthGrant>
    const ttl: int

    constructor (ttl: int)
      ensures m == map[] && this.ttl == ttl
    {
      m, this.ttl := map[], ttl;
    }

    method Issue(g: AuthGrant, draw: Option<string>, now: int) returns (r: Result<string>)
      modifies this
      ensures (m, r) == IssueCode(old(m), g, draw, now + ttl)
    {
      if draw.None? {
        return Failed;
      }
      m := m[draw.value := g.(expiresAt := now + ttl)];
      return Ok(draw.value);
    }

    method Consume(code: string, now: int) returns (r: Option<AuthGrant>)
      modifies this
      ensures (m, r) == ConsumeCode(old(m), code, now)
    {
      var grant := if code in m then Some(m[code]) else None;
      m := m - {code};
      if grant.None? || now > grant.value.expiresAt {
        return None;
      }
      return grant;
    }
  }
}
