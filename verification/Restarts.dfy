/** What restarts keep and what a reset forgets. */
module Restarts {
  import opened Wrappers
  import opened SecretStores
  import opened MapStores
  import opened Base64Url
  import opened Records
  import opened RefreshTokens
  import opened Clients
  import opened AccessTokens
  import opened Pairings
  import opened Handlers
  import opened Machine
  import opened Lineage
  import opened Revocation
  import opened Provenance

  // Restarts without a reset.

  /** The process signs with the stored key, which a later load accepts. */
  predicate SignsWithStored(s: State) {
    s.proc.Some? ==>
      && SIGNING_KEY in s.docs
      && Base64Url.Decode(s.docs[SIGNING_KEY]) == Some(s.proc.value.issuer.key)
      && |s.proc.value.issuer.key| >= KEY_BYTES
  }

  predicate NoReset(es: seq<Event>) {
    forall i :: 0 <= i < |es| ==> !es[i].Reset?
  }

  lemma RestartSigns(env: Env, s: State, cfg: Config, draw: Option<seq<byte>>, faults: seq<bool>)
    requires Fresh(s, Restart(cfg, draw, faults))
    ensures SignsWithStored(DoRestart(env, s, cfg, draw, faults))
  {
    KeyEffect(Disk(s.docs, faults), draw);
  }

  lemma StepSigns(env: Env, s: State, e: Event)
    requires Faithful(env.codecs) && SignsWithStored(s) && !e.Reset? && Fresh(s, e)
    ensures SignsWithStored(Step(env, s, e))
    ensures SIGNING_KEY in s.docs ==> SIGNING_KEY in Step(env, s, e).docs && Step(env, s, e).docs[SIGNING_KEY] == s.docs[SIGNING_KEY]
  {
    if e.Restart? {
      RestartSigns(env, s, e.cfg, e.keyDraw, e.faults);
    } else {
      StepTouches(env, s, e);
      KeysDistinct();
      assert Step(env, s, e).proc.Some? ==> s.proc.Some? && Step(env, s, e).proc.value.issuer == s.proc.value.issuer;
    }
  }

  lemma {:induction false} RunSigns(env: Env, s: State, es: seq<Event>)
    requires Faithful(env.codecs) && SignsWithStored(s) && NoReset(es) && FreshRun(env, s, es)
    ensures SignsWithStored(Run(env, s, es))
    ensures SIGNING_KEY in s.docs ==>
      SIGNING_KEY in Run(env, s, es).docs && Run(env, s, es).docs[SIGNING_KEY] == s.docs[SIGNING_KEY]
    decreases |es|
  {
    if es != [] {
      RunSigns(env, s, es[..|es| - 1]);
      StepSigns(env, Run(env, s, es[..|es| - 1]), es[|es| - 1]);
    }
  }

  /** Whatever restarts happen, as long as the store is not reset: a token the process
      signed is accepted by every later process addressed as it was, exactly as long as
      its own process would have accepted it. */
  lemma TokensSurviveRestarts(env: Env, s: State, g: RefreshGrant, minted: int, es: seq<Event>, now: int)
    requires Faithful(env.codecs) && SignsWithStored(s) && NoReset(es) && FreshRun(env, s, es)
    requires s.proc.Some? && Run(env, s, es).proc.Some?
    ensures var i, i' := s.proc.value.issuer, Run(env, s, es).proc.value.issuer;
      i'.Validate(i.Mint(g, minted), now) ==
        if i'.issuer == i.issuer && i'.audience == i.audience && now < Truncate(minted + i.ttl)
        then Some(Verified(g.clientID, g.scope, g.principal, Truncate(minted + i.ttl)))
        else None
  {
    RunSigns(env, s, es);
    MintedValidates(s.proc.value.issuer, g, minted, now);
  }

  /** A restart never locks the operator out: with the store working and a public URL
      configured, the new process comes up, with the key of the old one. */
  lemma RestartComesUp(env: Env, s: State, cfg: Config, draw: Option<seq<byte>>)
    requires s.proc.Some? && SignsWithStored(s) && Settle(cfg).Some?
    ensures var s' := DoRestart(env, s, cfg, draw, []);
      s'.proc.Some? && s'.proc.value.issuer.key == s.proc.value.issuer.key && s'.docs == s.docs
  {
  }

  /** A restart loses exactly the pending codes and the requests under way. */
  lemma RestartLosesCodes(env: Env, s: State, cfg: Config, draw: Option<seq<byte>>, faults: seq<bool>)
    ensures var s' := DoRestart(env, s, cfg, draw, faults);
      && Codes(s') == map[] && s'.flights == map[] && s'.now == s.now
      && Tokens(env.codecs, s'.docs) == Tokens(env.codecs, s.docs)
      && Registered(env.codecs, s'.docs) == Registered(env.codecs, s.docs)
      && Principals(env.codecs, s'.docs) == Principals(env.codecs, s.docs)
      && SameExcept(s.docs, s'.docs, SIGNING_KEY)
      && (SIGNING_KEY in s.docs ==> s'.docs == s.docs)
  {
    var docs := DoRestart(env, s, cfg, draw, faults).docs;
    RestartTouches(env, s, Restart(cfg, draw, faults));
    TokensElsewhere(env, s.docs, docs, SIGNING_KEY);
    RecordsElsewhere(env, s.docs, docs, SIGNING_KEY);
    KeysDistinct();
    SameClients(env, s.docs, docs, SIGNING_KEY);
  }
}
