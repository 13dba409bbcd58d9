/** What a live credential can still become: each pending code and each request under way
    can be carried through to a refresh token, and none comes to life but from another. */
module Prospects {
  import opened Wrappers
  import opened SecretStores
  import opened MapStores
  import opened Records
  import opened RefreshTokens
  import opened Pkce
  import opened Handlers
  import opened Machine
  import opened Lineage

  /** Some verifier answers the grant's challenge. */
  ghost predicate Redeemable(env: Env, g: AuthGrant) {
    exists v :: VerifyPKCE(env.sha, g.codeChallenge, g.codeChallengeMethod, v)
  }

  /** The credential can still end in tokens: a refresh token, a code unexpired and
      redeemable, or a request under way, before its code redeemable. */
  ghost predicate Lively(env: Env, s: State, c: Credential) {
    match c
    case Token(k) => k in Tokens(env.codecs, s.docs)
    case Code(k) => k in Codes(s) && s.now <= Codes(s)[k].expiresAt && Redeemable(env, Codes(s)[k])
    case Request(i) => s.proc.Some? && i in s.flights && (s.flights[i].Entered? ==> Redeemable(env, s.flights[i].code))
  }

  /** What the tokens of a code or a request would carry. */
  function Promise(s: State, c: Credential): RefreshGrant
    requires !c.Token? && (c.Code? ==> c.code in Codes(s)) && (c.Request? ==> c.id in s.flights)
  {
    match c
    case Code(k) => Carried(Codes(s)[k])
    case Request(i) => if s.flights[i].Entered? then Carried(s.flights[i].code) else s.flights[i].grant
  }

  // Carrying a credential through.

  lemma {:induction false} LongestOf(used: set<string>) returns (l: nat)
    ensures forall k :: k in used ==> |k| <= l
  {
    if used == {} {
      return 0;
    }
    var k :| k in used;
    l := LongestOf(used - {k});
    l := if |k| > l then |k| else l;
  }

  lemma UnusedString(used: set<string>) returns (k: string)
    ensures k !in used
  {
    var l := LongestOf(used);
    k := seq(l + 1, _ => 'k');
  }

  lemma {:induction false} UnusedId(ids: set<nat>) returns (id: nat)
    ensures forall i :: i in ids ==> i < id
  {
    if ids == {} {
      return 0;
    }
    var i :| i in ids;
    var rest := UnusedId(ids - {i});
    assert forall j :: j in ids ==> j == i || j in ids - {i};
    id := if i >= rest then i + 1 else rest;
  }

  predicate NoAdds(es: seq<Event>) {
    forall i :: 0 <= i < |es| ==> !es[i].Add?
  }

  /** A fresh run that adds no principal and leaves refresh token k, of approval a and grant g. */
  ghost predicate Yields(env: Env, s: State, a: nat, g: RefreshGrant, es: seq<Event>, k: string) {
    && FreshRun(env, s, es) && NoAdds(es)
    && var s' := Run(env, s, es);
      k in Tokens(env.codecs, s'.docs) && Tokens(env.codecs, s'.docs)[k] == g && k in s'.hist.lineage && s'.hist.lineage[k] == a
  }

  lemma YieldsLater(env: Env, s: State, a: nat, g: RefreshGrant, e: Event, es: seq<Event>, k: string)
    requires Fresh(s, e) && !e.Add? && Yields(env, Step(env, s, e), a, g, es, k)
    ensures Yields(env, s, a, g, [e] + es, k)
  {
    RunOne(env, s, e);
    RunAppend(env, s, [e], es);
  }

  lemma FromSigned(env: Env, s: State, i: nat) returns (es: seq<Event>, k: string)
    requires Faithful(env.codecs) && TokensReadable(env, s.docs) && Lively(env, s, Request(i)) && s.flights[i].Signed?
    ensures Yields(env, s, s.flights[i].approval, Promise(s, Request(i)), es, k)
  {
    k := UnusedString(s.hist.used);
    var e := SendTokens(i, Some(k), []);
    IssueEffect(env, Disk(s.docs, []), s.flights[i].grant, Some(k));
    RunOne(env, s, e);
    es := [e];
  }

  lemma FromRedeemed(env: Env, s: State, i: nat) returns (es: seq<Event>, k: string)
    requires Faithful(env.codecs) && TokensReadable(env, s.docs) && Lively(env, s, Request(i)) && s.flights[i].Redeemed?
    ensures Yields(env, s, s.flights[i].approval, Promise(s, Request(i)), es, k)
  {
    es, k := FromSigned(env, Step(env, s, Sign(i, true)), i);
    YieldsLater(env, s, s.flights[i].approval, Promise(s, Request(i)), Sign(i, true), es, k);
    es := [Sign(i, true)] + es;
  }

  lemma FromCode(env: Env, s: State, c: string) returns (es: seq<Event>, k: string)
    requires Faithful(env.codecs) && TokensReadable(env, s.docs) && Lively(env, s, Code(c))
    ensures Yields(env, s, LineageOf(s, c), Promise(s, Code(c)), es, k)
  {
    var g := Codes(s)[c];
    var v :| VerifyPKCE(env.sha, g.codeChallenge, g.codeChallengeMethod, v);
    var id := UnusedId(s.flights.Keys);
    var e := Redeem(id, CodeRequest(c, g.clientID, g.redirectURI, v));
    es, k := FromRedeemed(env, Step(env, s, e), id);
    YieldsLater(env, s, LineageOf(s, c), Promise(s, Code(c)), e, es, k);
    es := [e] + es;
  }

  lemma FromEntered(env: Env, s: State, i: nat) returns (es: seq<Event>, k: string)
    requires Faithful(env.codecs) && TokensReadable(env, s.docs) && Lively(env, s, Request(i)) && s.flights[i].Entered?
    ensures Yields(env, s, s.flights[i].approval, Promise(s, Request(i)), es, k)
  {
    var c := UnusedString(s.hist.used);
    var g := s.flights[i].code;
    var v :| VerifyPKCE(env.sha, g.codeChallenge, g.codeChallengeMethod, v);
    var e := SendCode(i, Some(c));
    var s' := Step(env, s, e);
    assert VerifyPKCE(env.sha, Codes(s')[c].codeChallenge, Codes(s')[c].codeChallengeMethod, v);
    es, k := FromCode(env, s', c);
    YieldsLater(env, s, s.flights[i].approval, Promise(s, Request(i)), e, es, k);
    es := [e] + es;
  }

  /** The approval a code or a request descends from. */
  function OriginOf(s: State, c: Credential): nat {
    match c
    case Token(k) => LineageOf(s, k)
    case Code(k) => LineageOf(s, k)
    case Request(i) => if i in s.flights then s.flights[i].approval else 0
  }

  /** Every lively code or request becomes a refresh token of its approval's in some run
      that adds no principal. */
  lemma BecomesRefreshToken(env: Env, s: State, c: Credential) returns (es: seq<Event>, k: string)
    requires Faithful(env.codecs) && TokensReadable(env, s.docs) && Lively(env, s, c) && !c.Token?
    ensures Yields(env, s, OriginOf(s, c), Promise(s, c), es, k)
  {
    match c
    case Code(code) => es, k := FromCode(env, s, code);
    case Request(i) =>
      match s.flights[i]
      case Entered(_, _) => es, k := FromEntered(env, s, i);
      case Redeemed(_, _) => es, k := FromRedeemed(env, s, i);
      case Signed(_, _) => es, k := FromSigned(env, s, i);
  }

  // And the other way round.

  lemma TokenFrom(env: Env, s: State, e: Event, k: string)
    requires Faithful(env.codecs) && k in Tokens(env.codecs, Step(env, s, e).docs)
    ensures
      || k in Tokens(env.codecs, s.docs)
      || (e.SendTokens? && e.draw == Some(k) && s.proc.Some? && e.id in s.flights && s.flights[e.id].Signed?)
  {
    match e
    case SendTokens(id, draw, faults) =>
      if id in s.flights && s.flights[id].Signed? {
        IssueEffect(env, Disk(s.docs, faults), s.flights[id].grant, draw);
      }
    case Refresh(_, token, _, faults) => ExchangeEffect(env, Disk(s.docs, faults), token);
    case RemoveTokens(name, faults) => DropEffect(env, Disk(s.docs, faults), name);
    case Reset(_) =>
    case _ =>
      StepTouches(env, s, e);
      KeysDistinct();
      ViewFrame(env.codecs.refresh, s.docs, Step(env, s, e).docs, DocOf(e), REFRESH_TOKENS);
  }

  /** Refresh tokens only ever appear under a value just drawn. */
  lemma StepTokenKeys(env: Env, s: State, e: Event)
    requires Faithful(env.codecs) && Fresh(s, e)
    ensures var s' := Step(env, s, e);
      Tokens(env.codecs, s'.docs).Keys <= Tokens(env.codecs, s.docs).Keys + (s'.hist.used - s.hist.used)
  {
    forall k | k in Tokens(env.codecs, Step(env, s, e).docs) && k !in Tokens(env.codecs, s.docs)
      ensures k in Step(env, s, e).hist.used - s.hist.used
    {
      TokenFrom(env, s, e, k);
      assert k in Drawn(e.draw);
    }
  }

  /** The step issues code k to a request, for the approval the request descends from. */
  predicate IssuesCode(env: Env, s: State, e: Event, k: string) {
    && e.SendCode? && e.draw == Some(k) && s.proc.Some? && e.id in s.flights && s.flights[e.id].Entered?
    && k in Codes(Step(env, s, e))
    && Codes(Step(env, s, e))[k] == s.flights[e.id].code.(expiresAt := s.now + AUTH_CODE_TTL)
    && LineageOf(Step(env, s, e), k) == s.flights[e.id].approval
  }

  /** A pending code was pending before, or this step issued it to a request. */
  lemma CodeFrom(env: Env, s: State, e: Event, k: string)
    requires k in Codes(Step(env, s, e))
    ensures (k in Codes(s) && Codes(Step(env, s, e))[k] == Codes(s)[k]) || IssuesCode(env, s, e, k)
  {
  }

  /** The step begins a request of approval a: with the approval itself, with a code redeemed,
      or with a refresh token exchanged. */
  predicate Begins(env: Env, s: State, e: Event, a: nat) {
    match e
    case Enter(_, _, _, _, _) => a == |s.hist.approvals|
    case Redeem(_, r) => a == LineageOf(s, r.code) && RedeemCode(env, Codes(s), r, s.now).1.Some?
    case Refresh(_, token, _, faults) => a == LineageOf(s, token) && Exchanged(env, s, token, faults)
    case _ => false
  }

  predicate Exchanged(env: Env, s: State, token: string, faults: seq<bool>) {
    ExchangeToken(env.codecs, Disk(s.docs, faults), token).1.Ok? && ExchangeToken(env.codecs, Disk(s.docs, faults), token).1.value.Some?
  }

  /** A request goes on under its approval; one that has not sent its code is the same. */
  predicate GoesOn(s: State, i: nat, f: Flight) {
    i in s.flights && f.approval == s.flights[i].approval && (s.flights[i].Entered? ==> f == s.flights[i])
  }

  /** A request was under way before, or this step began it. */
  lemma RequestFrom(env: Env, s: State, e: Event, i: nat)
    requires i in Step(env, s, e).flights
    ensures GoesOn(s, i, Step(env, s, e).flights[i]) || Begins(env, s, e, Step(env, s, e).flights[i].approval)
  {
  }

  /** Lineage is only ever added to, under values just drawn. */
  lemma LineageKept(env: Env, s: State, e: Event, k: string)
    requires Fresh(s, e) && k in s.hist.used
    ensures k in Step(env, s, e).hist.lineage <==> k in s.hist.lineage
    ensures k in s.hist.lineage ==> Step(env, s, e).hist.lineage[k] == s.hist.lineage[k]
  {
    if e.SendCode? && e.draw.Some? {
      assert e.draw.value in Drawn(e.draw);
    }
    if e.SendTokens? && e.draw.Some? {
      assert e.draw.value in Drawn(e.draw);
    }
  }

  lemma LivelyToken(env: Env, s: State, e: Event, k: string, a: nat) returns (c: Credential)
    requires Faithful(env.codecs) && Inv(env, s) && Fresh(s, e) && a < |s.hist.approvals|
    requires Descends(LedgerOf(env, Step(env, s, e)), Token(k), a)
    ensures Lively(env, s, c) && Descends(LedgerOf(env, s), c, a)
  {
    TokenFrom(env, s, e, k);
    if k in Tokens(env.codecs, s.docs) {
      c := Token(k);
      assert k in LedgerOf(env, s).tokens;
      LineageKept(env, s, e, k);
    } else {
      c := Request(e.id);
    }
  }

  lemma RedeemableAnyTime(env: Env, g: AuthGrant, expiresAt: int)
    requires Redeemable(env, g.(expiresAt := expiresAt))
    ensures Redeemable(env, g)
  {
    var v :| VerifyPKCE(env.sha, g.codeChallenge, g.codeChallengeMethod, v);
  }

  lemma LivelyCode(env: Env, s: State, e: Event, k: string, a: nat) returns (c: Credential)
    requires Inv(env, s) && Fresh(s, e) && a < |s.hist.approvals|
    requires Descends(LedgerOf(env, Step(env, s, e)), Code(k), a) && Lively(env, Step(env, s, e), Code(k))
    ensures Lively(env, s, c) && Descends(LedgerOf(env, s), c, a)
  {
    CodeFrom(env, s, e, k);
    assert s.now <= Step(env, s, e).now;
    if k in Codes(s) && Codes(Step(env, s, e))[k] == Codes(s)[k] {
      c := Code(k);
      assert k in LedgerOf(env, s).codes;
      LineageKept(env, s, e, k);
    } else {
      c := Request(e.id);
      RedeemableAnyTime(env, s.flights[e.id].code, s.now + AUTH_CODE_TTL);
    }
  }

  lemma RedeemedWasLively(env: Env, s: State, r: CodeRequest)
    requires Inv(env, s) && RedeemCode(env, Codes(s), r, s.now).1.Some?
    ensures Lively(env, s, Code(r.code)) && Descends(LedgerOf(env, s), Code(r.code), LineageOf(s, r.code))
  {
    assert r.code in LedgerOf(env, s).codes;
  }

  lemma ExchangedWasLively(env: Env, s: State, token: string, faults: seq<bool>)
    requires Faithful(env.codecs) && Inv(env, s) && Exchanged(env, s, token, faults)
    ensures Lively(env, s, Token(token)) && Descends(LedgerOf(env, s), Token(token), LineageOf(s, token))
  {
    ExchangeEffect(env, Disk(s.docs, faults), token);
    assert token in LedgerOf(env, s).tokens;
  }

  lemma StillUnderWay(env: Env, s: State, e: Event, i: nat)
    requires Lively(env, Step(env, s, e), Request(i)) && GoesOn(s, i, Step(env, s, e).flights[i])
    ensures Lively(env, s, Request(i))
  {
    RestartClears(env, s, e);
  }

  lemma LivelyRequest(env: Env, s: State, e: Event, i: nat, a: nat) returns (c: Credential)
    requires Faithful(env.codecs) && Inv(env, s) && a < |s.hist.approvals|
    requires i in Step(env, s, e).flights && Step(env, s, e).flights[i].approval == a && Lively(env, Step(env, s, e), Request(i))
    ensures Lively(env, s, c) && Descends(LedgerOf(env, s), c, a)
  {
    RequestFrom(env, s, e, i);
    if GoesOn(s, i, Step(env, s, e).flights[i]) {
      StillUnderWay(env, s, e, i);
      c := Request(i);
    } else if e.Redeem? {
      RedeemedWasLively(env, s, e.request);
      c := Code(e.request.code);
    } else {
      ExchangedWasLively(env, s, e.token, e.faults);
      c := Token(e.token);
    }
  }

  /** A process comes up without requests under way. */
  lemma RestartClears(env: Env, s: State, e: Event)
    ensures s.proc.None? && Step(env, s, e).proc.Some? ==> Step(env, s, e).flights == map[]
  {
  }

  /** Nothing comes to life by itself: whatever a step leaves lively of an approval made
      before, something of that approval was lively before. */
  lemma LivelyFrom(env: Env, s: State, e: Event, c': Credential, a: nat) returns (c: Credential)
    requires Faithful(env.codecs) && Inv(env, s) && Fresh(s, e) && a < |s.hist.approvals|
    requires Descends(LedgerOf(env, Step(env, s, e)), c', a) && Lively(env, Step(env, s, e), c')
    ensures Lively(env, s, c) && Descends(LedgerOf(env, s), c, a)
  {
    match c'
    case Token(k) => c := LivelyToken(env, s, e, k, a);
    case Code(k) => c := LivelyCode(env, s, e, k, a);
    case Request(i) => c := LivelyRequest(env, s, e, i, a);
  }
}
