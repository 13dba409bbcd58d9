/** The pairing codes a server ever has in store: all generated, no two alike. */
module StoredCodes {
  import opened Wrappers
  import opened SecretStores
  import opened Base64Url
  import opened Records
  import opened PairingCodes
  import opened Normalizer
  import opened Pairings
  import opened Handlers
  import opened Machine
  import opened Lineage
  import opened Revocation
  import opened Provenance
  import opened Resets

  /** No two stored codes normalize alike. */
  ghost predicate CodesDiffer(env: Env, docs: map<string, string>) {
    var records := Principals(env.codecs, docs);
    && (forall n :: n in records && PAIRING_CODE in docs ==>
          NormalizePairing(records[n].code) != NormalizePairing(docs[PAIRING_CODE]))
    && (forall n, m :: n in records && m in records && n != m ==>
          NormalizePairing(records[n].code) != NormalizePairing(records[m].code))
  }

  lemma CoinedBody(code: string, bodies: set<string>)
    requires Coined(code, bodies)
    ensures NormalizePairing(code) in bodies
  {
    var b :| |b| == DRAW_BYTES && CodeOf(b) == code && Body(b) in bodies;
    CodeNormalizes(b);
  }

  /** The bodies in store have all been drawn. */
  lemma StoredBodies(env: Env, s: State)
    requires CodesWithin(env, s, NOTHING_YET)
    ensures PAIRING_CODE in s.docs ==> NormalizePairing(s.docs[PAIRING_CODE]) in s.hist.bodies
    ensures forall n :: n in Principals(env.codecs, s.docs) ==>
      NormalizePairing(Principals(env.codecs, s.docs)[n].code) in s.hist.bodies
  {
    var records := Principals(env.codecs, s.docs);
    if PAIRING_CODE in s.docs {
      CoinedBody(s.docs[PAIRING_CODE], s.hist.bodies - {});
    }
    forall n | n in records
      ensures NormalizePairing(records[n].code) in s.hist.bodies
    {
      CoinedBody(records[n].code, s.hist.bodies - {});
    }
  }

  /** docs' has at most one code docs has not, the one drawn: the shared one, or name's. */
  ghost predicate OneNewCode(env: Env, docs: map<string, string>, docs': map<string, string>, draw: Draw, name: Option<string>) {
    var before, after := Principals(env.codecs, docs), Principals(env.codecs, docs');
    && (PAIRING_CODE in docs' ==>
          || (PAIRING_CODE in docs && docs'[PAIRING_CODE] == docs[PAIRING_CODE])
          || (name.None? && draw.Some? && docs'[PAIRING_CODE] == CodeOf(draw.value)))
    && (forall n :: n in after ==>
          (n in before && after[n] == before[n]) || (name == Some(n) && draw.Some? && after[n].code == CodeOf(draw.value)))
  }

  lemma NewCodeDiffers(env: Env, docs: map<string, string>, docs': map<string, string>, draw: Draw, name: Option<string>, bodies: set<string>)
    requires CodesDiffer(env, docs) && OneNewCode(env, docs, docs', draw, name)
    requires draw.Some? ==> Body(draw.value) !in bodies
    requires PAIRING_CODE in docs ==> NormalizePairing(docs[PAIRING_CODE]) in bodies
    requires forall n :: n in Principals(env.codecs, docs) ==> NormalizePairing(Principals(env.codecs, docs)[n].code) in bodies
    ensures CodesDiffer(env, docs')
  {
    if draw.Some? {
      CodeNormalizes(draw.value);
    }
  }

  lemma StepAddsOne(env: Env, s: State, e: Event)
    requires Faithful(env.codecs)
    ensures OneNewCode(env, s.docs, Step(env, s, e).docs,
                       if e.Enter? || e.Rotate? || e.Add? then e.pairDraw else None,
                       if e.Add? then Some(e.name) else None)
  {
    StepSharedCode(env, s, e);
    forall n | n in Principals(env.codecs, Step(env, s, e).docs)
      ensures var before, after := Principals(env.codecs, s.docs), Principals(env.codecs, Step(env, s, e).docs);
        (n in before && after[n] == before[n]) || (e.Add? && e.name == n && e.pairDraw.Some? && after[n].code == CodeOf(e.pairDraw.value))
    {
      StepRecords(env, s, e, n);
    }
  }

  lemma StepDiffer(env: Env, s: State, e: Event)
    requires Faithful(env.codecs) && CodesWithin(env, s, NOTHING_YET) && CodesDiffer(env, s.docs) && Fresh(s, e)
    ensures CodesDiffer(env, Step(env, s, e).docs)
  {
    var draw: Draw := if e.Enter? || e.Rotate? || e.Add? then e.pairDraw else None;
    assert draw.Some? ==> Body(draw.value) in DrawnBody(draw);
    StoredBodies(env, s);
    StepAddsOne(env, s, e);
    NewCodeDiffers(env, s.docs, Step(env, s, e).docs, draw, if e.Add? then Some(e.name) else None, s.hist.bodies);
  }

  lemma {:induction false} RunDiffer(env: Env, start: int, es: seq<Event>)
    requires Faithful(env.codecs) && FreshRun(env, Initial(start), es)
    ensures CodesDiffer(env, Run(env, Initial(start), es).docs)
    decreases |es|
  {
    if es == [] {
      assert Principals(env.codecs, map[]) == map[];
    } else {
      RunDiffer(env, start, es[..|es| - 1]);
      RunRecorded(env, start, es[..|es| - 1]);
      StepDiffer(env, Run(env, Initial(start), es[..|es| - 1]), es[|es| - 1]);
    }
  }

  ghost function DrawOf(code: string, bodies: set<string>): (b: seq<byte>)
    requires Coined(code, bodies)
    ensures |b| == DRAW_BYTES && CodeOf(b) == code
  {
    var b :| |b| == DRAW_BYTES && CodeOf(b) == code && Body(b) in bodies;
    b
  }

  ghost function DrawsOfAll(records: map<string, PrincipalRecord>, bodies: set<string>): (draws: map<string, seq<byte>>)
    requires forall n :: n in records ==> Coined(records[n].code, bodies)
    ensures draws.Keys == records.Keys
    ensures forall n :: n in draws ==> |draws[n]| == DRAW_BYTES && CodeOf(draws[n]) == records[n].code
  {
    map n | n in records :: DrawOf(records[n].code, bodies)
  }

  /** Codes that differ, with the draws they were made of, are well formed. */
  lemma DrawsWellFormed(env: Env, docs: map<string, string>, shared: seq<byte>, draws: map<string, seq<byte>>)
    requires CodesDiffer(env, docs) && PAIRING_CODE in docs
    requires |shared| == DRAW_BYTES && CodeOf(shared) == docs[PAIRING_CODE]
    requires draws.Keys == Principals(env.codecs, docs).Keys
    requires forall n :: n in draws ==> |draws[n]| == DRAW_BYTES && CodeOf(draws[n]) == Principals(env.codecs, docs)[n].code
    ensures StoredWellFormed(shared, draws, Principals(env.codecs, docs))
  {
    var records := Principals(env.codecs, docs);
    CodeNormalizes(shared);
    forall n | n in draws
      ensures NormalizePairing(records[n].code) == Body(draws[n])
    {
      CodeNormalizes(draws[n]);
    }
  }

  lemma ReachableDiffer(env: Env, s: State)
    requires Faithful(env.codecs) && Reachable(env, s)
    ensures CodesWithin(env, s, NOTHING_YET) && CodesDiffer(env, s.docs)
  {
    var start, es :| FreshRun(env, Initial(start), es) && s == Run(env, Initial(start), es);
    RunRecorded(env, start, es);
    RunDiffer(env, start, es);
  }

  /** In every reachable state with a shared code the stored codes are generated and distinct. */
  lemma ReachableWellFormed(env: Env, s: State) returns (shared: seq<byte>, draws: map<string, seq<byte>>)
    requires Faithful(env.codecs) && Reachable(env, s) && PAIRING_CODE in s.docs
    ensures StoredWellFormed(shared, draws, Principals(env.codecs, s.docs)) && CodeOf(shared) == s.docs[PAIRING_CODE]
  {
    ReachableDiffer(env, s);
    var records, bodies := Principals(env.codecs, s.docs), s.hist.bodies - {};
    shared := DrawOf(s.docs[PAIRING_CODE], bodies);
    draws := DrawsOfAll(records, bodies);
    DrawsWellFormed(env, s.docs, shared, draws);
  }

  /** So in every reachable state with a shared code, whatever is typed matches at most one
      stored code, and identifies its holder: the operator, or the principal of the record. */
  lemma ReachableCodesIdentify(env: Env, s: State, input: string)
    requires Faithful(env.codecs) && Reachable(env, s) && PAIRING_CODE in s.docs
    ensures var n, shared, records := NormalizePairing(input), s.docs[PAIRING_CODE], Principals(env.codecs, s.docs);
      var g := FirstMatch(CandidatesOf(shared, records), n);
      && (Matches(n, shared) ==> g == Some(OPERATOR))
      && (forall m :: m in records && Matches(n, records[m].code) ==> g == Some(PrincipalGrant(m, records[m].binding)))
      && (g.None? <==> !Matches(n, shared) && forall m :: m in records ==> !Matches(n, records[m].code))
  {
    var shared, draws := ReachableWellFormed(env, s);
    var records := Principals(env.codecs, s.docs);
    StoredCodesIdentify(shared, draws, records, input);
    MatchesIsEnters(input, shared);
    forall m | m in records
      ensures Matches(NormalizePairing(input), records[m].code) <==> Enters(input, draws[m])
    {
      MatchesIsEnters(input, draws[m]);
    }
  }

  // How long a shared code lasts.

  lemma SubmissionKeepsCode(env: Env, d: Disk, p: AuthParams, input: string, draw: Draw)
    requires PAIRING_CODE in d.docs
    ensures CheckSubmission(env, d, p, input, draw).0.docs == d.docs
  {
    var (d1, client) := ValidateClientRedirect(env, d, p);
    assert d1.docs == d.docs;
    if client.Some? && ValidateAuthParams(p).None? {
      IdentifyDocs(env.codecs, d1, input, draw);
      SharedCodeExactly(d1, draw);
    }
  }

  lemma StepKeepsCode(env: Env, s: State, e: Event)
    requires Faithful(env.codecs) && PAIRING_CODE in s.docs && !e.Rotate? && !e.Reset?
    ensures PAIRING_CODE in Step(env, s, e).docs && Step(env, s, e).docs[PAIRING_CODE] == s.docs[PAIRING_CODE]
  {
    if e.Enter? {
      SubmissionKeepsCode(env, Disk(s.docs, e.faults), e.params, e.input, e.pairDraw);
    } else {
      StepTouches(env, s, e);
      KeysDistinct();
    }
  }

  /** The shared code, once there, is stable: across requests, other commands and restarts,
      with any store errors, until it is rotated or the store is reset. */
  lemma {:induction false} SharedCodeStays(env: Env, s: State, es: seq<Event>)
    requires Faithful(env.codecs) && PAIRING_CODE in s.docs
    requires forall i :: 0 <= i < |es| ==> !es[i].Rotate? && !es[i].Reset?
    ensures PAIRING_CODE in Run(env, s, es).docs && Run(env, s, es).docs[PAIRING_CODE] == s.docs[PAIRING_CODE]
    decreases |es|
  {
    if es != [] {
      SharedCodeStays(env, s, es[..|es| - 1]);
      StepKeepsCode(env, Run(env, s, es[..|es| - 1]), es[|es| - 1]);
    }
  }

  /** Rotating replaces it by the code drawn, and whatever was accepted as the old one is then
      accepted as nobody's. */
  lemma RotationInvalidates(env: Env, s: State, draw: Draw, input: string)
    requires Faithful(env.codecs) && Reachable(env, s) && PAIRING_CODE in s.docs
    requires draw.Some? && Fresh(s, Rotate(draw, []))
    requires NormalizePairing(input) == NormalizePairing(s.docs[PAIRING_CODE])
    ensures var s' := Step(env, s, Rotate(draw, []));
      && s'.docs == s.docs[PAIRING_CODE := CodeOf(draw.value)]
      && Principals(env.codecs, s'.docs) == Principals(env.codecs, s.docs)
      && Belongs(s'.docs[PAIRING_CODE], Principals(env.codecs, s'.docs), input, None)
  {
    RotateExactly(Disk(s.docs, []), draw);
    ReachableDiffer(env, s);
    StoredBodies(env, s);
    CodeNormalizes(draw.value);
    assert Body(draw.value) in DrawnBody(draw);
    RecordsElsewhere(env, s.docs, Step(env, s, Rotate(draw, [])).docs, PAIRING_CODE);
  }
}
