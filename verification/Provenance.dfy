/** Where identity comes from: every token carries exactly what one earlier approval
    granted, that approval rests on a pairing code stored at the time, and the call the
    token admits acts for that principal and no other. */
module Provenance {
  import opened Wrappers
  import opened SecretStores
  import opened MapStores
  import opened Records
  import opened RefreshTokens
  import opened Clients
  import opened AccessTokens
  import opened Pkce
  import opened Normalizer
  import opened PairingCodes
  import opened Pairings
  import opened Handlers
  import opened Machine
  import opened Lineage
  import opened Revocation
  import opened Callers

  /** Browsers may be sent there: an absolute URL with a host, over https to any host, over
      http to this machine only. */
  predicate Secure(parse: Parser, uri: string) {
    && parse(uri).Some? && parse(uri).value.host != ""
    && var u := parse(uri).value;
      u.scheme == "https" || (u.scheme == "http" && (u.hostname == "localhost" || u.hostname == "127.0.0.1" || u.hostname == "::1"))
  }

  lemma ValidIsSecure(parse: Parser, uri: string)
    ensures ValidRedirectURI(parse, uri) <==> Secure(parse, uri)
  {
  }

  predicate ClientSound(env: Env, k: string, c: Client) {
    c.id == k && forall i :: 0 <= i < |c.redirectURIs| ==> Secure(env.parse, c.redirectURIs[i])
  }

  /** Every stored client is filed under its own id, with redirect URIs that are secure. */
  ghost predicate ClientsSound(env: Env, docs: map<string, string>) {
    forall k :: k in Registered(env.codecs, docs) ==> ClientSound(env, k, Registered(env.codecs, docs)[k])
  }

  /** The approval's client was registered with its redirect URI, its challenge is an S256
      one, and its input was the shared code of the moment, or else the code of the
      principal it names. */
  ghost predicate ApprovalSound(env: Env, a: Approval) {
    var g, n, records, cs := a.grant, NormalizePairing(a.input), Principals(env.codecs, a.docs), Registered(env.codecs, a.docs);
    && g.clientID in cs && g.redirectURI in cs[g.clientID].redirectURIs
    && g.codeChallenge != "" && g.codeChallengeMethod == S256
    && PAIRING_CODE in a.docs
    && if Matches(n, a.docs[PAIRING_CODE]) then g.principal == OPERATOR
       else g.principal.name in records && g.principal.binding == records[g.principal.name].binding
            && Matches(n, records[g.principal.name].code)
  }

  lemma RegisterSound(env: Env, s: State, e: Event)
    requires Faithful(env.codecs) && ClientsSound(env, s.docs) && e.Register?
    ensures ClientsSound(env, Step(env, s, e).docs)
  {
    if s.proc.Some? && e.draw.Some? && forall i :: 0 <= i < |e.uris| ==> ValidRedirectURI(env.parse, e.uris[i]) {
      var client := Client(e.draw.value, e.uris, e.name);
      forall i | 0 <= i < |e.uris|
        ensures Secure(env.parse, e.uris[i])
      {
        ValidIsSecure(env.parse, e.uris[i]);
      }
      assert ClientSound(env, e.draw.value, client);
      MutateEffect(env.codecs.clients, Disk(s.docs, e.faults), CLIENTS, Put(e.draw.value, client));
      var before, after := Registered(env.codecs, s.docs), Registered(env.codecs, Step(env, s, e).docs);
      assert after == before || after == before[e.draw.value := client];
    } else {
      assert Step(env, s, e).docs == s.docs;
    }
  }

  lemma SameClients(env: Env, docs: map<string, string>, docs': map<string, string>, key: string)
    requires SameExcept(docs, docs', key) && key != CLIENTS
    ensures Registered(env.codecs, docs') == Registered(env.codecs, docs)
  {
    ViewFrame(env.codecs.clients, docs, docs', key, CLIENTS);
  }

  lemma StepClients(env: Env, s: State, e: Event)
    requires Faithful(env.codecs) && ClientsSound(env, s.docs)
    ensures ClientsSound(env, Step(env, s, e).docs)
  {
    if e.Register? {
      RegisterSound(env, s, e);
    } else if e.Reset? {
      if Step(env, s, e).docs != s.docs {
        assert Registered(env.codecs, Step(env, s, e).docs) == map[];
      }
    } else {
      StepTouches(env, s, e);
      KeysDistinct();
      SameClients(env, s.docs, Step(env, s, e).docs, DocOf(e));
    }
  }

  lemma {:induction false} RunClients(env: Env, s: State, es: seq<Event>)
    requires Faithful(env.codecs) && ClientsSound(env, s.docs)
    ensures ClientsSound(env, Run(env, s, es).docs)
    decreases |es|
  {
    if es != [] {
      RunClients(env, s, es[..|es| - 1]);
      StepClients(env, Run(env, s, es[..|es| - 1]), es[|es| - 1]);
    }
  }

  /** A submission that passes the gates names a registered client, one of its redirect
      URIs, and whoever's code was entered. */
  lemma SubmissionSound(env: Env, cfg: Config, d: Disk, p: AuthParams, input: string, draw: Draw)
    requires ClientsSound(env, d.docs) && cfg.Settled()
    ensures var (d', checked) := CheckSubmission(env, d, p, input, draw);
      checked.Approved? ==>
        && ApprovalSound(env, Approval(GrantOf(cfg, p, checked.client, checked.principal), input, d'.docs))
        && checked.client.id == p.clientID
  {
    var (d1, client) := ValidateClientRedirect(env, d, p);
    if client.Some? && ValidateAuthParams(p).None? {
      var cs := Registered(env.codecs, d.docs);
      assert p.clientID in cs && client.value == cs[p.clientID] && client.value.AllowsRedirect(p.redirectURI);
      IdentifyDocs(env.codecs, d1, input, draw);
      var d2 := Identify(env.codecs, d1, input, draw).0;
      KeysDistinct();
      ViewFrame(env.codecs.clients, d.docs, d2.docs, PAIRING_CODE, CLIENTS);
      IdentifySource(env.codecs, d1, input, draw);
    }
  }

  /** Approvals are only ever added, one at a time, by an entered code that matched what
      the store held at that step. */
  lemma StepApprovals(env: Env, s: State, e: Event)
    requires ClientsSound(env, s.docs)
    ensures var s' := Step(env, s, e);
      || s'.hist.approvals == s.hist.approvals
      || (exists a :: s'.hist.approvals == s.hist.approvals + [a] && a.docs == s'.docs && ApprovalSound(env, a))
  {
    if e.Enter? && s.proc.Some? && s.proc.value.cfg.Settled() {
      SubmissionSound(env, s.proc.value.cfg, Disk(s.docs, e.faults), e.params, e.input, e.pairDraw);
      var s' := Step(env, s, e);
      if s'.hist.approvals != s.hist.approvals {
        var a := s'.hist.approvals[|s.hist.approvals|];
        assert s'.hist.approvals == s.hist.approvals + [a];
      }
    }
  }

  /** At some earlier point of the run the store held exactly docs. */
  ghost predicate WasStored(env: Env, s: State, es: seq<Event>, docs: map<string, string>) {
    exists i :: 0 <= i <= |es| && Run(env, s, es[..i]).docs == docs
  }

  /** The approval rests on codes and clients stored at an earlier point of the run. */
  ghost predicate Vouched(env: Env, start: int, es: seq<Event>, a: Approval) {
    ApprovalSound(env, a) && WasStored(env, Initial(start), es, a.docs)
  }

  lemma StaysStored(env: Env, s: State, es: seq<Event>, docs: map<string, string>)
    requires es != [] && WasStored(env, s, es[..|es| - 1], docs)
    ensures WasStored(env, s, es, docs)
  {
    var front := es[..|es| - 1];
    var i :| 0 <= i <= |front| && Run(env, s, front[..i]).docs == docs;
    assert es[..i] == front[..i];
  }

  lemma NowStored(env: Env, s: State, es: seq<Event>)
    ensures WasStored(env, s, es, Run(env, s, es).docs)
  {
    assert es[..|es|] == es;
  }

  lemma {:induction false} ApprovalsVouched(env: Env, start: int, es: seq<Event>, a: nat)
    requires Faithful(env.codecs) && a < |Run(env, Initial(start), es).hist.approvals|
    ensures Vouched(env, start, es, Run(env, Initial(start), es).hist.approvals[a])
    decreases |es|
  {
    if es != [] {
      var front := es[..|es| - 1];
      var s, s' := Run(env, Initial(start), front), Run(env, Initial(start), es);
      RunClients(env, Initial(start), front);
      StepApprovals(env, s, es[|es| - 1]);
      if a < |s.hist.approvals| {
        ApprovalsVouched(env, start, front, a);
        StaysStored(env, Initial(start), es, s.hist.approvals[a].docs);
      } else {
        NowStored(env, Initial(start), es);
      }
    }
  }

  /** Every signed access token and every live refresh token carries exactly the client,
      scope and principal of one approval, and that approval is vouched for. */
  lemma TokensHaveApprovals(env: Env, start: int, es: seq<Event>)
    requires Faithful(env.codecs) && FreshRun(env, Initial(start), es)
    ensures var s := Run(env, Initial(start), es);
      && (forall j :: 0 <= j < |s.hist.mints| ==>
            var m := s.hist.mints[j];
            && MintMatches(m, s.hist.approvals)
            && Vouched(env, start, es, s.hist.approvals[m.approval]))
      && (forall k :: k in Tokens(env.codecs, s.docs) ==>
            && k in s.hist.lineage && s.hist.lineage[k] < |s.hist.approvals|
            && Tokens(env.codecs, s.docs)[k] == Carried(s.hist.approvals[s.hist.lineage[k]].grant)
            && Vouched(env, start, es, s.hist.approvals[s.hist.lineage[k]]))
  {
    var s := Run(env, Initial(start), es);
    assert Reachable(env, s);
    ReachableInv(env, s);
    forall a | 0 <= a < |s.hist.approvals|
      ensures Vouched(env, start, es, s.hist.approvals[a])
    {
      ApprovalsVouched(env, start, es, a);
    }
    var l := LedgerOf(env, s);
    assert l.mints == s.hist.mints && l.tokens == Tokens(env.codecs, s.docs);
  }

  lemma AddedRecord(env: Env, s: State, e: Event, n: string)
    requires Faithful(env.codecs) && e.Add? && n in Principals(env.codecs, Step(env, s, e).docs)
    ensures
      || StoredAs(env, s, n, Principals(env.codecs, Step(env, s, e).docs)[n])
      || (e.name == n && e.pairDraw.Some?
          && Principals(env.codecs, Step(env, s, e).docs)[n] == PrincipalRecord(CodeOf(e.pairDraw.value), e.binding))
  {
    AddExactly(env.codecs, Disk(s.docs, e.faults), e.name, e.binding, e.pairDraw);
  }

  /** A stored record stays as it is, or was added by this step with the code it drew and the
      binding it was given. */
  lemma StepRecords(env: Env, s: State, e: Event, n: string)
    requires Faithful(env.codecs) && n in Principals(env.codecs, Step(env, s, e).docs)
    ensures var before, after := Principals(env.codecs, s.docs), Principals(env.codecs, Step(env, s, e).docs);
      || (n in before && after[n] == before[n])
      || (e.Add? && e.name == n && e.pairDraw.Some? && after[n] == PrincipalRecord(CodeOf(e.pairDraw.value), e.binding))
  {
    match e
    case Add(_, _, _, _) => AddedRecord(env, s, e, n);
    case RemoveRecord(name, faults) => DropRecordEffect(env, Disk(s.docs, faults), name);
    case Reset(_) =>
    case _ =>
      StepTouches(env, s, e);
      KeysDistinct();
      ViewFrame(env.codecs.principals, s.docs, Step(env, s, e).docs, DocOf(e), PRINCIPALS);
  }

  /** Event i of the run added n with exactly record r, which has been stored ever since. */
  ghost predicate AddedAt(env: Env, s: State, es: seq<Event>, i: nat, n: string, r: PrincipalRecord) {
    && i < |es| && es[i].Add? && es[i].name == n
    && es[i].pairDraw.Some? && r == PrincipalRecord(CodeOf(es[i].pairDraw.value), es[i].binding)
    && forall j :: i < j <= |es| ==> StoredAs(env, Run(env, s, es[..j]), n, r)
  }

  predicate StoredAs(env: Env, s: State, n: string, r: PrincipalRecord) {
    n in Principals(env.codecs, s.docs) && Principals(env.codecs, s.docs)[n] == r
  }

  lemma StillAdded(env: Env, s: State, es: seq<Event>, i: nat, n: string, r: PrincipalRecord)
    requires es != [] && AddedAt(env, s, es[..|es| - 1], i, n, r) && StoredAs(env, Run(env, s, es), n, r)
    ensures AddedAt(env, s, es, i, n, r)
  {
    var front := es[..|es| - 1];
    forall j | i < j <= |es|
      ensures StoredAs(env, Run(env, s, es[..j]), n, r)
    {
      if j < |es| {
        assert es[..j] == front[..j];
      } else {
        assert es[..j] == es;
      }
    }
  }

  /** Every stored record is what one AddPrincipal of the run stored: its code and its binding. */
  lemma {:induction false} RecordAdded(env: Env, start: int, es: seq<Event>, n: string) returns (i: nat)
    requires Faithful(env.codecs) && n in Principals(env.codecs, Run(env, Initial(start), es).docs)
    ensures AddedAt(env, Initial(start), es, i, n, Principals(env.codecs, Run(env, Initial(start), es).docs)[n])
    decreases |es|
  {
    var front := es[..|es| - 1];
    var s, e := Run(env, Initial(start), front), es[|es| - 1];
    var r := Principals(env.codecs, Step(env, s, e).docs)[n];
    StepRecords(env, s, e, n);
    assert es[..|es|] == es;
    if StoredAs(env, s, n, r) {
      i := RecordAdded(env, start, front, n);
      StillAdded(env, Initial(start), es, i, n, r);
    } else {
      i := |front|;
    }
  }

  /** No principal was ever added under the empty name, so no stored record has it. */
  lemma NamesNonEmpty(env: Env, start: int, es: seq<Event>, docs: map<string, string>)
    requires Faithful(env.codecs) && NeverAdds(es, "") && WasStored(env, Initial(start), es, docs)
    ensures "" !in Principals(env.codecs, docs)
  {
    var i :| 0 <= i <= |es| && Run(env, Initial(start), es[..i]).docs == docs;
    RunNoRecord(env, Initial(start), es[..i], "");
  }

  /** The call a token admits acts for the approval's principal: for the operator exactly
      when the approval's input was the shared code, and otherwise for the principal whose
      stored code it was, with the binding some AddPrincipal of the run gave it together
      with that code. */
  lemma ProvenanceToExecution(env: Env, start: int, es: seq<Event>, o: Options, i: Issuer, now: int, j: nat)
    requires Faithful(env.codecs) && FreshRun(env, Initial(start), es) && NeverAdds(es, "")
    requires j < |Run(env, Initial(start), es).hist.mints|
    requires Protect(i, Some(Run(env, Initial(start), es).hist.mints[j].token), now).Some?
    ensures var s := Run(env, Initial(start), es);
      var m := s.hist.mints[j];
      var v := Protect(i, Some(m.token), now).value;
      && m.approval < |s.hist.approvals|
      && Vouched(env, start, es, s.hist.approvals[m.approval])
      && Identifies(env, s.hist.approvals[m.approval], v)
      && (!v.principal.IsAnonymous() ==> exists k :: 0 <= k < |es| && Introduces(es[k], s.hist.approvals[m.approval].input, v.principal))
      && ActsFor(o, v)
  {
    TokensHaveApprovals(env, start, es);
    var s := Run(env, Initial(start), es);
    var a := s.hist.approvals[s.hist.mints[j].approval];
    NamesNonEmpty(env, start, es, a.docs);
    CallActsFor(o, Protect(i, Some(s.hist.mints[j].token), now).value);
    if !a.grant.principal.IsAnonymous() {
      var k := IntroducedByAdd(env, start, es, a);
    }
  }

  /** The event gave the principal its name and binding, and the code that was entered. */
  ghost predicate Introduces(e: Event, input: string, p: PrincipalGrant) {
    && e.Add? && e.name == p.name && e.binding == p.binding
    && e.pairDraw.Some? && NormalizePairing(input) == NormalizePairing(CodeOf(e.pairDraw.value))
  }

  lemma IntroducedByAdd(env: Env, start: int, es: seq<Event>, a: Approval) returns (k: nat)
    requires Faithful(env.codecs) && Vouched(env, start, es, a) && a.grant.principal != OPERATOR
    ensures k < |es| && Introduces(es[k], a.input, a.grant.principal)
  {
    var w :| 0 <= w <= |es| && Run(env, Initial(start), es[..w]).docs == a.docs;
    k := RecordAdded(env, start, es[..w], a.grant.principal.name);
  }

  /** v is the identity approval a established: the operator's exactly when the shared code
      was entered, else that of the principal with the entered code. */
  ghost predicate Identifies(env: Env, a: Approval, v: Verified)
    requires PAIRING_CODE in a.docs
  {
    var n, records := NormalizePairing(a.input), Principals(env.codecs, a.docs);
    && v.clientID == a.grant.clientID && v.scope == a.grant.scope && v.principal == a.grant.principal
    && (v.principal.IsAnonymous() <==> Matches(n, a.docs[PAIRING_CODE]))
    && (!v.principal.IsAnonymous() ==>
          && v.principal.name != "" && v.principal.name in records
          && Matches(n, records[v.principal.name].code)
          && v.principal.binding == records[v.principal.name].binding)
  }
}
