/** Exchanging codes and refresh tokens over whole runs: each is spent at most once, and a
    code yields tokens only for the client, redirect URI and verifier it was approved for,
    within its minute. */
module Redemption {
  import opened Wrappers
  import opened SecretStores
  import opened Base64Url
  import opened Records
  import opened RefreshTokens
  import opened Handlers
  import opened Machine
  import opened Lineage
  import opened Prospects

  // Single use.

  /** Event i hands code k to consume, which finds it. */
  ghost predicate Consumes(env: Env, s: State, es: seq<Event>, i: nat, k: string)
    requires i < |es|
  {
    var at := Run(env, s, es[..i]);
    es[i].Redeem? && es[i].request.code == k && at.proc.Some? && es[i].id !in at.flights && k in Codes(at)
  }

  /** Event i exchanges refresh token k with success. */
  ghost predicate Exchanges(env: Env, s: State, es: seq<Event>, i: nat, k: string)
    requires i < |es|
  {
    var at := Run(env, s, es[..i]);
    && es[i].Refresh? && es[i].token == k && at.proc.Some? && es[i].id !in at.flights
    && var r := ExchangeToken(env.codecs, Disk(at.docs, es[i].faults), k).1; r.Ok? && r.value.Some?
  }

  /** Drawn before, and live neither as a code nor as a refresh token. */
  ghost predicate Spent(env: Env, s: State, k: string) {
    k in s.hist.used && k !in Codes(s) && k !in Tokens(env.codecs, s.docs)
  }

  lemma StepSpent(env: Env, s: State, e: Event, k: string)
    requires Faithful(env.codecs) && Spent(env, s, k) && Fresh(s, e)
    ensures Spent(env, Step(env, s, e), k)
  {
    StepTokenKeys(env, s, e);
    if e.SendCode? && e.draw.Some? {
      assert e.draw.value in Drawn(e.draw);
    }
  }

  lemma {:induction false} RunSpent(env: Env, s: State, es: seq<Event>, k: string)
    requires Faithful(env.codecs) && Spent(env, s, k) && FreshRun(env, s, es)
    ensures Spent(env, Run(env, s, es), k)
    decreases |es|
  {
    if es != [] {
      RunSpent(env, s, es[..|es| - 1], k);
      StepSpent(env, Run(env, s, es[..|es| - 1]), es[|es| - 1], k);
    }
  }

  /** A pending code is no refresh token, and spending either kind leaves neither. */
  lemma RedeemSpends(env: Env, s: State, id: nat, r: CodeRequest)
    requires Inv(env, s) && s.proc.Some? && id !in s.flights && r.code in Codes(s)
    ensures Spent(env, DoRedeem(env, s, id, r), r.code)
  {
    var l := LedgerOf(env, s);
    if r.code in l.tokens {
      assert Descends(l, Code(r.code), l.lineage[r.code]) && Descends(l, Token(r.code), l.lineage[r.code]);
    }
  }

  lemma RefreshSpends(env: Env, s: State, id: nat, token: string, clientID: string, faults: seq<bool>)
    requires Faithful(env.codecs) && Inv(env, s) && s.proc.Some? && id !in s.flights
    requires var r := ExchangeToken(env.codecs, Disk(s.docs, faults), token).1; r.Ok? && r.value.Some?
    ensures Spent(env, DoRefresh(env, s, id, token, clientID, faults), token)
  {
    var l := LedgerOf(env, s);
    ExchangeEffect(env, Disk(s.docs, faults), token);
    if token in l.codes {
      assert Descends(l, Code(token), l.lineage[token]) && Descends(l, Token(token), l.lineage[token]);
    }
  }

  lemma SplitAt(env: Env, s: State, es: seq<Event>, i: nat)
    requires FreshRun(env, s, es) && i <= |es|
    ensures FreshRun(env, Run(env, s, es[..i]), es[i..]) && Run(env, s, es) == Run(env, Run(env, s, es[..i]), es[i..])
  {
    assert es == es[..i] + es[i..];
    RunAppend(env, s, es[..i], es[i..]);
  }

  lemma PrefixReachable(env: Env, start: int, es: seq<Event>, i: nat)
    requires FreshRun(env, Initial(start), es) && i <= |es|
    ensures FreshRun(env, Initial(start), es[..i]) && Reachable(env, Run(env, Initial(start), es[..i]))
  {
    assert es == es[..i] + es[i..];
    RunAppend(env, Initial(start), es[..i], es[i..]);
  }

  /** Event i spends k, as a code or as a refresh token. */
  ghost predicate Spends(env: Env, s: State, es: seq<Event>, i: nat, k: string)
    requires i < |es|
  {
    Consumes(env, s, es, i, k) || Exchanges(env, s, es, i, k)
  }

  lemma SpendsSpent(env: Env, start: int, es: seq<Event>, i: nat, k: string)
    requires Faithful(env.codecs) && FreshRun(env, Initial(start), es) && i < |es| && Spends(env, Initial(start), es, i, k)
    ensures Spent(env, Run(env, Initial(start), es[..i + 1]), k)
  {
    PrefixReachable(env, start, es, i);
    var s := Run(env, Initial(start), es[..i]);
    ReachableInv(env, s);
    assert es[..i + 1][..i] == es[..i];
    if es[i].Redeem? {
      RedeemSpends(env, s, es[i].id, es[i].request);
    } else {
      RefreshSpends(env, s, es[i].id, es[i].token, es[i].clientID, es[i].faults);
    }
  }

  lemma SpentIsFinal(env: Env, start: int, es: seq<Event>, i: nat, j: nat, k: string)
    requires Faithful(env.codecs) && FreshRun(env, Initial(start), es) && i < j < |es| && Spends(env, Initial(start), es, i, k)
    ensures Spent(env, Run(env, Initial(start), es[..j]), k)
  {
    SpendsSpent(env, start, es, i, k);
    PrefixReachable(env, start, es, j);
    SplitAt(env, Initial(start), es[..j], i + 1);
    assert es[..j][..i + 1] == es[..i + 1];
    RunSpent(env, Run(env, Initial(start), es[..i + 1]), es[..j][i + 1..], k);
  }

  lemma SpentNeverSpends(env: Env, s: State, es: seq<Event>, j: nat, k: string)
    requires Faithful(env.codecs) && j < |es| && Spent(env, Run(env, s, es[..j]), k)
    ensures !Spends(env, s, es, j, k)
  {
    if es[j].Refresh? {
      ExchangeEffect(env, Disk(Run(env, s, es[..j]).docs, es[j].faults), k);
    }
  }

  /** Single use: over any run a code passes consume at most once, whatever became of that
      exchange, and a refresh token is exchanged at most once. */
  lemma SingleUse(env: Env, start: int, es: seq<Event>, i: nat, j: nat, k: string)
    requires Faithful(env.codecs) && FreshRun(env, Initial(start), es) && i < |es| && j < |es|
    requires Spends(env, Initial(start), es, i, k) && Spends(env, Initial(start), es, j, k)
    ensures i == j
  {
    if i < j {
      SpentIsFinal(env, start, es, i, j, k);
      SpentNeverSpends(env, Initial(start), es, j, k);
    } else if j < i {
      SpentIsFinal(env, start, es, j, i, k);
      SpentNeverSpends(env, Initial(start), es, i, k);
    }
  }

  // What an exchange is bound to.

  /** Event j of the run issued code k, to expire at expiresAt. */
  ghost predicate IssuedAt(env: Env, s: State, es: seq<Event>, j: nat, k: string, expiresAt: int) {
    j < |es| && es[j].SendCode? && es[j].draw == Some(k) && expiresAt == Run(env, s, es[..j]).now + 60_000_000_000
  }

  lemma {:induction false} CodesIssued(env: Env, start: int, es: seq<Event>, k: string) returns (j: nat)
    requires k in Codes(Run(env, Initial(start), es))
    ensures IssuedAt(env, Initial(start), es, j, k, Codes(Run(env, Initial(start), es))[k].expiresAt)
    decreases |es|
  {
    var front := es[..|es| - 1];
    var s := Run(env, Initial(start), front);
    CodeFrom(env, s, es[|es| - 1], k);
    if k in Codes(s) && Codes(Run(env, Initial(start), es))[k] == Codes(s)[k] {
      j := CodesIssued(env, start, front, k);
      assert es[..j] == front[..j];
    } else {
      j := |front|;
    }
  }

  /** The exchange is the approval's: unexpired, with its client and redirect URI, and with a
      verifier whose SHA-256, base64url-encoded, is the challenge. */
  ghost predicate Bound(env: Env, g: AuthGrant, expiresAt: int, r: CodeRequest, now: int) {
    && now <= expiresAt && r.clientID == g.clientID && r.redirectURI == g.redirectURI
    && g.codeChallengeMethod == "S256" && g.codeChallenge != ""
    && r.verifier != "" && Encode(env.sha(r.verifier)) == g.codeChallenge
  }

  /** What becomes of a request for code k descending from approval a. */
  ghost predicate Settles(env: Env, s: State, s': State, id: nat, r: CodeRequest, a: nat, expiresAt: int)
    requires a < |s.hist.approvals|
  {
    var g := s.hist.approvals[a].grant;
    && (id in s'.flights <==> Bound(env, g, expiresAt, r, s.now))
    && (id in s'.flights ==> s'.flights[id] == Redeemed(Carried(g), a))
  }

  lemma RedeemSettles(env: Env, s: State, id: nat, r: CodeRequest)
    requires Inv(env, s) && s.proc.Some? && id !in s.flights && r.code in Codes(s)
    ensures r.code !in Codes(DoRedeem(env, s, id, r))
    ensures r.code in s.hist.lineage && s.hist.lineage[r.code] < |s.hist.approvals|
    ensures Settles(env, s, DoRedeem(env, s, id, r), id, r, s.hist.lineage[r.code], Codes(s)[r.code].expiresAt)
  {
    var l := LedgerOf(env, s);
    assert SameGrant(l.codes[r.code], l.approvals[l.lineage[r.code]].grant);
  }

  /** Code exchange binding: a request for a code of a reachable state goes through exactly
      when it is bound to the approval the code descends from; it then carries that
      approval's client, scope and principal; and the code was issued a minute before its
      expiry. */
  lemma ExchangeBinding(env: Env, start: int, es: seq<Event>, id: nat, r: CodeRequest) returns (issue: nat)
    requires Faithful(env.codecs) && FreshRun(env, Initial(start), es)
    requires Run(env, Initial(start), es).proc.Some? && id !in Run(env, Initial(start), es).flights
    requires r.code in Codes(Run(env, Initial(start), es))
    ensures var s := Run(env, Initial(start), es);
      && r.code !in Codes(DoRedeem(env, s, id, r))
      && r.code in s.hist.lineage && s.hist.lineage[r.code] < |s.hist.approvals|
      && Settles(env, s, DoRedeem(env, s, id, r), id, r, s.hist.lineage[r.code], Codes(s)[r.code].expiresAt)
      && IssuedAt(env, Initial(start), es, issue, r.code, Codes(s)[r.code].expiresAt)
  {
    var s := Run(env, Initial(start), es);
    assert Reachable(env, s);
    ReachableInv(env, s);
    RedeemSettles(env, s, id, r);
    issue := CodesIssued(env, start, es, r.code);
  }

  /** Refreshing: in every reachable state, with the store working, a request for a refresh
      token goes through exactly when the token is live and the client id, if any is given,
      is that of the approval the token descends from; it then carries that approval's
      client, scope and principal; and the token is gone in any case. */
  lemma RefreshSettles(env: Env, s: State, id: nat, token: string, clientID: string)
    requires Faithful(env.codecs) && Reachable(env, s) && s.proc.Some? && id !in s.flights
    ensures var s', held := DoRefresh(env, s, id, token, clientID, []), Tokens(env.codecs, s.docs);
      && Tokens(env.codecs, s'.docs) == held - {token}
      && (token in held ==> token in s.hist.lineage && s.hist.lineage[token] < |s.hist.approvals|)
      && (id in s'.flights <==>
            token in held && (clientID == "" || clientID == s.hist.approvals[s.hist.lineage[token]].grant.clientID))
      && (id in s'.flights ==>
            s'.flights[id] == Redeemed(Carried(s.hist.approvals[s.hist.lineage[token]].grant), s.hist.lineage[token]))
  {
    ReachableInv(env, s);
    ExchangeEffect(env, Disk(s.docs, []), token);
    var l := LedgerOf(env, s);
    assert token in l.tokens ==> token in l.lineage && l.tokens[token] == Carried(l.approvals[l.lineage[token]].grant);
  }
}
