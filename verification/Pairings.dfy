/** The pairing codes a person may enter: the shared operator code and one per named
    principal, and the matcher that decides whose a typed code is. */
module Pairings {
  import opened Wrappers
  import opened SecretStores
  import opened MapStores
  import opened Base64Url
  import opened Strings
  import opened Names
  import opened Records
  import opened PairingCodes
  import opened Normalizer
  import opened RefreshTokens

  type Draw = d: Option<seq<byte>> | d.Some? ==> |d.value| == DRAW_BYTES witness None

  function RotateCode(d: Disk, draw: Draw): (Disk, Result<string>) {
    if draw.None? then (d, Failed)
    else
      var (d', r) := d.Set(PAIRING_CODE, CodeOf(draw.value));
      (d', if r.Failed? then Failed else Ok(CodeOf(draw.value)))
  }

  /** Generated and persisted on first use. */
  function SharedCode(d: Disk, draw: Draw): (Disk, Result<string>) {
    var (d', v) := d.Get(PAIRING_CODE);
    if v.Failed? then (d', Failed)
    else if v.value.Some? then (d', Ok(v.value.value))
    else RotateCode(d', draw)
  }

  /** A new shared code replaces any other, and is stored before it is handed out. */
  lemma RotateExactly(d: Disk, draw: Draw)
    ensures var (d', r) := RotateCode(d, draw);
      && (r.Ok? <==> draw.Some? && !FailsAt(d, 0))
      && (r.Ok? ==> r.value == CodeOf(draw.value))
      && d'.docs == (if r.Ok? then d.docs[PAIRING_CODE := r.value] else d.docs)
  {
  }

  /** The shared code is the one stored, and only without one a new code, stored first. */
  lemma SharedCodeExactly(d: Disk, draw: Draw)
    ensures var (d', r) := SharedCode(d, draw);
      && (r.Ok? <==> !FailsAt(d, 0) && (PAIRING_CODE in d.docs || (draw.Some? && !FailsAt(d, 1))))
      && (r.Ok? ==> r.value == if PAIRING_CODE in d.docs then d.docs[PAIRING_CODE] else CodeOf(draw.value))
      && d'.docs == (if r.Ok? then d.docs[PAIRING_CODE := r.value] else d.docs)
  {
  }

  function AddNamed(c: Codecs, d: Disk, name: string, binding: map<string, string>, draw: Draw): (Disk, Result<string>) {
    if draw.None? then (d, Failed)
    else
      var code := CodeOf(draw.value);
      var (d', r) := Mutate(c.principals, d, PRINCIPALS, Put(name, PrincipalRecord(code, binding)));
      (d', if r.Failed? then Failed else Ok(code))
  }

  /** The record goes first; a failure there leaves the refresh tokens untried. */
  function DropRecord(c: Codecs, d: Disk, name: string): (Disk, Result<Option<PrincipalRecord>>) {
    Mutate(c.principals, d, PRINCIPALS, Take(name))
  }

  function RemoveNamed(c: Codecs, d: Disk, name: string): (Disk, Result<bool>) {
    var (d', r) := DropRecord(c, d, name);
    if r.Failed? then (d', Failed)
    else
      var (d'', r') := DropTokensOf(c, d', name);
      (d'', if r'.Failed? then Failed else Ok(r.value.Some?))
  }

  function Principals(c: Codecs, docs: map<string, string>): map<string, PrincipalRecord> {
    View(c.principals, docs, PRINCIPALS)
  }

  /** Adding a principal stores exactly the code handed out and the binding given, and leaves
      every other record and document; a failure stores nothing. */
  lemma AddExactly(c: Codecs, d: Disk, name: string, binding: map<string, string>, draw: Draw)
    requires RoundTrips(c.principals)
    ensures var (d', r) := AddNamed(c, d, name, binding, draw);
      && SameExcept(d.docs, d'.docs, PRINCIPALS)
      && (r.Ok? <==> draw.Some? && !FailsAt(d, 0) && Readable(c.principals, d.docs, PRINCIPALS) && !FailsAt(d, 1))
      && (r.Ok? ==>
            && r.value == CodeOf(draw.value)
            && Principals(c, d'.docs) == Principals(c, d.docs)[name := PrincipalRecord(r.value, binding)])
      && (r.Failed? ==> d'.docs == d.docs)
  {
    if draw.Some? {
      MutateExactly(c.principals, d, PRINCIPALS, Put(name, PrincipalRecord(CodeOf(draw.value), binding)));
      MutateEffect(c.principals, d, PRINCIPALS, Put(name, PrincipalRecord(CodeOf(draw.value), binding)));
    }
  }

  datatype Candidate = Candidate(code: string, grant: PrincipalGrant)

  function NamedCandidate(records: map<string, PrincipalRecord>, name: string): Candidate
    requires name in records
  {
    Candidate(records[name].code, PrincipalGrant(name, records[name].binding))
  }

  function NamedCandidates(records: map<string, PrincipalRecord>, names: seq<string>): (s: seq<Candidate>)
    requires forall i :: 0 <= i < |names| ==> names[i] in records
    ensures |s| == |names| && forall i :: 0 <= i < |names| ==> s[i] == NamedCandidate(records, names[i])
  {
    seq(|names|, i requires 0 <= i < |names| => NamedCandidate(records, names[i]))
  }

  /** The shared code first, then the named principals in name order. */
  function CandidatesOf(shared: string, records: map<string, PrincipalRecord>): seq<Candidate> {
    SortedMembers(records.Keys);
    [Candidate(shared, OPERATOR)] + NamedCandidates(records, Sorted(records.Keys))
  }

  function Candidates(c: Codecs, d: Disk, draw: Draw): (Disk, Result<seq<Candidate>>) {
    var (d', shared) := SharedCode(d, draw);
    if shared.Failed? then (d', Failed)
    else
      var (d'', records) := Load(c.principals, d', PRINCIPALS);
      (d'', if records.Failed? then Failed else Ok(CandidatesOf(shared.value, records.value)))
  }

  /** Looking for a match may create the shared code and touches nothing else. */
  lemma IdentifyDocs(c: Codecs, d: Disk, input: string, draw: Draw)
    ensures Identify(c, d, input, draw).0.docs == SharedCode(d, draw).0.docs
    ensures SameExcept(d.docs, Identify(c, d, input, draw).0.docs, PAIRING_CODE)
  {
  }

  predicate Matches(normalized: string, code: string) {
    normalized == NormalizePairing(code)
  }

  function FirstMatch(cs: seq<Candidate>, normalized: string): Option<PrincipalGrant> {
    if cs == [] then None
    else if Matches(normalized, cs[0].code) then Some(cs[0].grant)
    else FirstMatch(cs[1..], normalized)
  }

  function Identify(c: Codecs, d: Disk, input: string, draw: Draw): (Disk, Result<Option<PrincipalGrant>>) {
    var (d', cs) := Candidates(c, d, draw);
    (d', if cs.Failed? then Failed else Ok(FirstMatch(cs.value, NormalizePairing(input))))
  }

  lemma {:induction false} FirstMatchAppend(a: seq<Candidate>, b: seq<Candidate>, normalized: string)
    ensures FirstMatch(a + b, normalized) ==
      if FirstMatch(a, normalized).Some? then FirstMatch(a, normalized) else FirstMatch(b, normalized)
  {
    if a == [] {
      assert a + b == b;
    } else {
      assert (a + b)[1..] == a[1..] + b;
      FirstMatchAppend(a[1..], b, normalized);
    }
  }

  /** VerifyPrincipal's loop: every candidate is compared, and the guard, not a break,
      keeps the first match. */
  method CompareAll(cs: seq<Candidate>, normalized: string) returns (matched: PrincipalGrant, found: bool)
    ensures (if found then Some(matched) else None) == FirstMatch(cs, normalized)
  {
    matched, found := OPERATOR, false;
    for i := 0 to |cs|
      invariant (if found then Some(matched) else None) == FirstMatch(cs[..i], normalized)
    {
      assert cs[..i + 1] == cs[..i] + [cs[i]];
      FirstMatchAppend(cs[..i], [cs[i]], normalized);
      if Matches(normalized, cs[i].code) && !found {
        matched, found := cs[i].grant, true;
      }
    }
    assert cs[..|cs|] == cs;
  }

  lemma NamedCandidatesSnoc(records: map<string, PrincipalRecord>, names: seq<string>, i: nat)
    requires (forall j :: 0 <= j < |names| ==> names[j] in records) && i < |names|
    ensures NamedCandidates(records, names[..i + 1]) == NamedCandidates(records, names[..i]) + [NamedCandidate(records, names[i])]
  {
    assert names[..i + 1] == names[..i] + [names[i]];
  }

  /** The loop of candidates. */
  method AppendNamed(first: Candidate, records: map<string, PrincipalRecord>, names: seq<string>) returns (out: seq<Candidate>)
    requires forall j :: 0 <= j < |names| ==> names[j] in records
    ensures out == [first] + NamedCandidates(records, names)
  {
    out := [first];
    for i := 0 to |names|
      invariant out == [first] + NamedCandidates(records, names[..i])
    {
      NamedCandidatesSnoc(records, names, i);
      out := out + [NamedCandidate(records, names[i])];
    }
    assert names[..|names|] == names;
  }

  class Pairing {
    const store: SecretStore
    const codecs: Codecs
    const principals: JsonMapStore<PrincipalRecord>

    constructor (store: SecretStore, codecs: Codecs)
      ensures Valid() && this.store == store && this.codecs == codecs
    {
      this.store, this.codecs := store, codecs;
      principals := new JsonMapStore(store, PRINCIPALS, codecs.principals);
    }

    ghost predicate Valid() {
      principals.store == store && principals.key == PRINCIPALS && principals.codec == codecs.principals
    }

    method Rotate(draw: Draw) returns (r: Result<string>)
      modifies store
      ensures (store.Image(), r) == RotateCode(old(store.Image()), draw)
    {
      var code := GeneratePairingCode(draw);
      if code.Failed? {
        return Failed;
      }
      var saved := store.Set(PAIRING_CODE, code.value);
      return if saved.Failed? then Failed else code;
    }

    method Code(draw: Draw) returns (r: Result<string>)
      modifies store
      ensures (store.Image(), r) == SharedCode(old(store.Image()), draw)
    {
      var v := store.Get(PAIRING_CODE);
      if v.Failed? {
        return Failed;
      }
      if v.value.Some? {
        return Ok(v.value.value);
      }
      r := Rotate(draw);
    }

    method AddPrincipal(name: string, binding: map<string, string>, draw: Draw) returns (r: Result<string>)
      requires Valid()
      modifies store
      ensures (store.Image(), r) == AddNamed(codecs, old(store.Image()), name, binding, draw)
      ensures r.Ok? ==> draw.Some? && r.value == CodeOf(draw.value)
      ensures r.Ok? && RoundTrips(codecs.principals) ==>
        Principals(codecs, store.docs) == Principals(codecs, old(store.docs))[name := PrincipalRecord(r.value, binding)]
    {
      if RoundTrips(codecs.principals) {
        AddExactly(codecs, store.Image(), name, binding, draw);
      }
      var code := GeneratePairingCode(draw);
      if code.Failed? {
        return Failed;
      }
      var saved := principals.Update(Put(name, PrincipalRecord(code.value, binding)));
      return if saved.Failed? then Failed else code;
    }

    method RemovePrincipal(name: string) returns (r: Result<bool>)
      requires Valid()
      modifies store
      ensures (store.Image(), r) == RemoveNamed(codecs, old(store.Image()), name)
    {
      var record := principals.Update(Take(name));
      if record.Failed? {
        return Failed;
      }
      var tokens := new RefreshStore(store, codecs);
      var dropped := tokens.RemoveForPrincipal(name);
      return if dropped.Failed? then Failed else Ok(record.value.Some?);
    }

    method ListCandidates(draw: Draw) returns (r: Result<seq<Candidate>>)
      requires Valid()
      modifies store
      ensures (store.Image(), r) == Candidates(codecs, old(store.Image()), draw)
    {
      var shared := Code(draw);
      if shared.Failed? {
        return Failed;
      }
      var records := principals.LoadMap();
      if records.Failed? {
        return Failed;
      }
      SortedMembers(records.value.Keys);
      var out := AppendNamed(Candidate(shared.value, OPERATOR), records.value, Sorted(records.value.Keys));
      return Ok(out);
    }

    method VerifyPrincipal(input: string, draw: Draw) returns (r: Result<Option<PrincipalGrant>>)
      requires Valid()
      modifies store
      ensures (store.Image(), r) == Identify(codecs, old(store.Image()), input, draw)
    {
      var cs := ListCandidates(draw);
      if cs.Failed? {
        return Failed;
      }
      var matched, found := CompareAll(cs.value, NormalizePairing(input));
      return Ok(if found then Some(matched) else None);
    }
  }

  // Whose a typed code is.

  /** The result is the grant of the first candidate that matches; i is its place, or past the end. */
  lemma {:induction false} FirstMatchSound(cs: seq<Candidate>, normalized: string) returns (i: nat)
    ensures i <= |cs| && forall j :: 0 <= j < i ==> !Matches(normalized, cs[j].code)
    ensures i < |cs| ==> Matches(normalized, cs[i].code)
    ensures FirstMatch(cs, normalized) == if i < |cs| then Some(cs[i].grant) else None
  {
    i := 0;
    if cs != [] && !Matches(normalized, cs[0].code) {
      i := FirstMatchSound(cs[1..], normalized);
      assert forall j :: 0 <= j < |cs[1..]| ==> cs[1..][j] == cs[j + 1];
      assert forall j :: 0 < j < i + 1 ==> cs[j] == cs[1..][j - 1];
      i := i + 1;
    }
  }

  /** Identity comes from a stored code: the operator from the shared one, which is
      looked at first, a name from that name's record. */
  lemma MatchSource(shared: string, records: map<string, PrincipalRecord>, input: string)
    ensures var g, n := FirstMatch(CandidatesOf(shared, records), NormalizePairing(input)), NormalizePairing(input);
      g.Some? ==>
        if Matches(n, shared) then g.value == OPERATOR
        else g.value.name in records && g.value.binding == records[g.value.name].binding && Matches(n, records[g.value.name].code)
  {
    SortedMembers(records.Keys);
    var i := FirstMatchSound(CandidatesOf(shared, records), NormalizePairing(input));
  }

  /** g is the principal, first by name, whose stored code the input matches, if any is. */
  ghost predicate NamedMatch(records: map<string, PrincipalRecord>, input: string, g: Option<PrincipalGrant>) {
    match g
    case None => forall n :: n in records ==> NormalizePairing(input) != NormalizePairing(records[n].code)
    case Some(p) =>
      && p.name in records && p.binding == records[p.name].binding
      && NormalizePairing(input) == NormalizePairing(records[p.name].code)
      && forall n :: n in records && Less(n, p.name) ==> NormalizePairing(input) != NormalizePairing(records[n].code)
  }

  /** Whose the input is: the operator's if it matches the shared code, else the matching
      principal's that comes first by name. */
  ghost predicate Belongs(shared: string, records: map<string, PrincipalRecord>, input: string, g: Option<PrincipalGrant>) {
    if NormalizePairing(input) == NormalizePairing(shared) then g == Some(PrincipalGrant("", map[]))
    else NamedMatch(records, input, g)
  }

  lemma NamesMatch(records: map<string, PrincipalRecord>, names: seq<string>, input: string)
    requires Increasing(names) && (forall n :: n in names <==> n in records) && forall i :: 0 <= i < |names| ==> names[i] in records
    ensures NamedMatch(records, input, FirstMatch(NamedCandidates(records, names), NormalizePairing(input)))
  {
    var n, cs := NormalizePairing(input), NamedCandidates(records, names);
    var i := FirstMatchSound(cs, n);
    forall m | m in records && (i == |cs| || Less(m, names[i]))
      ensures n != NormalizePairing(records[m].code)
    {
      var j := PlaceBefore(names, m, i);
      assert cs[j] == NamedCandidate(records, m);
    }
  }

  /** A name that comes before names[k], or any name if k is past the end, is listed before. */
  lemma PlaceBefore(names: seq<string>, m: string, k: nat) returns (j: nat)
    requires Increasing(names) && m in names && k <= |names| && (k == |names| || Less(m, names[k]))
    ensures j < k && names[j] == m
  {
    j :| 0 <= j < |names| && names[j] == m;
    if j >= k {
      LessIrreflexive(m);
      if j > k {
        LessTransitive(m, names[k], m);
      }
    }
  }

  lemma FirstMatchBelongs(shared: string, records: map<string, PrincipalRecord>, input: string)
    ensures Belongs(shared, records, input, FirstMatch(CandidatesOf(shared, records), NormalizePairing(input)))
  {
    var names := Sorted(records.Keys);
    SortedMembers(records.Keys);
    SortedIsSorted(records.Keys);
    NamesMatch(records, names, input);
    assert CandidatesOf(shared, records)[1..] == NamedCandidates(records, names);
  }

  /** Identification over a working store, completely: it fails only where a shared code is
      missing and none can be drawn, creates that code if it is missing, and says whose the
      input is. */
  lemma IdentifyExactly(c: Codecs, d: Disk, input: string, draw: Draw)
    requires d.faults == [] && Readable(c.principals, d.docs, PRINCIPALS)
    ensures var (d', r) := Identify(c, d, input, draw);
      && (r.Ok? <==> PAIRING_CODE in d.docs || draw.Some?)
      && d'.docs == (if PAIRING_CODE in d.docs || draw.None? then d.docs else d.docs[PAIRING_CODE := CodeOf(draw.value)])
      && (r.Ok? ==> Belongs(d'.docs[PAIRING_CODE], Principals(c, d.docs), input, r.value))
  {
    var (d1, shared) := SharedCode(d, draw);
    SharedCodeExactly(d, draw);
    KeysDistinct();
    if shared.Ok? {
      LoadExactly(c.principals, d1, PRINCIPALS);
      ViewFrame(c.principals, d.docs, d1.docs, PAIRING_CODE, PRINCIPALS);
      FirstMatchBelongs(shared.value, Principals(c, d.docs), input);
    }
  }

  /** A caller counts as the operator exactly when the shared code was entered, or the
      code of a principal with neither a name nor a binding. */
  lemma OperatorExactly(shared: string, records: map<string, PrincipalRecord>, input: string)
    ensures var g, n := FirstMatch(CandidatesOf(shared, records), NormalizePairing(input)), NormalizePairing(input);
      g.Some? && g.value.IsAnonymous() <==>
        Matches(n, shared) || ("" in records && records[""].binding == map[] && Matches(n, records[""].code))
  {
    var n, names := NormalizePairing(input), Sorted(records.Keys);
    var cs := CandidatesOf(shared, records);
    SortedMembers(records.Keys);
    SortedIsSorted(records.Keys);
    MatchSource(shared, records, input);
    if "" in records && !Matches(n, shared) {
      assert "" in names;
      var i :| 0 <= i < |names| && names[i] == "";
      assert i > 0 ==> Less(names[0], names[i]);
      assert cs[1..][0] == cs[1] == NamedCandidate(records, "");
    }
  }

  /** The input is a spelling of the code drawn, as the normalizer takes it. */
  ghost predicate Enters(input: string, draw: seq<byte>)
    requires |draw| == DRAW_BYTES
  {
    || Spells(TrimSpace(input), BARE_PREFIX + Body(draw))
    || (Spells(TrimSpace(input), Body(draw)) && !StartsWithMcp(Body(draw)))
  }

  lemma MatchesIsEnters(input: string, draw: seq<byte>)
    requires |draw| == DRAW_BYTES
    ensures Matches(NormalizePairing(input), CodeOf(draw)) <==> Enters(input, draw)
  {
    CodeNormalizes(draw);
    CodeSpellsBody(draw);
    NormalizeExactly(input, Body(draw));
  }

  lemma AtMostOneEntered(input: string, a: seq<byte>, b: seq<byte>)
    requires |a| == |b| == DRAW_BYTES && Body(a) != Body(b)
    ensures !(Enters(input, a) && Enters(input, b))
  {
    MatchesIsEnters(input, a);
    MatchesIsEnters(input, b);
    CodeNormalizes(a);
    CodeNormalizes(b);
  }

  /** What an identification rests on: the shared code read or created, or a stored record. */
  lemma IdentifySource(c: Codecs, d: Disk, input: string, draw: Draw)
    ensures var (d', r) := Identify(c, d, input, draw);
      r.Ok? && r.value.Some? ==>
        var g, n, records := r.value.value, NormalizePairing(input), Principals(c, d'.docs);
        && PAIRING_CODE in d'.docs
        && if Matches(n, d'.docs[PAIRING_CODE]) then g == OPERATOR
           else g.name in records && g.binding == records[g.name].binding && Matches(n, records[g.name].code)
  {
    var (d1, shared) := SharedCode(d, draw);
    if shared.Ok? {
      var (d2, records) := Load(c.principals, d1, PRINCIPALS);
      if records.Ok? {
        MatchSource(shared.value, records.value, input);
      }
    }
  }

  /** Every candidate's code was generated, and no two share a body. */
  ghost predicate WellFormed(cs: seq<Candidate>, draws: seq<seq<byte>>) {
    && |cs| == |draws|
    && (forall k :: 0 <= k < |cs| ==> |draws[k]| == DRAW_BYTES && cs[k].code == CodeOf(draws[k]))
    && (forall k, l :: 0 <= k < l < |cs| ==> Body(draws[k]) != Body(draws[l]))
  }

  lemma EnteredAlone(cs: seq<Candidate>, draws: seq<seq<byte>>, input: string, k: nat)
    requires WellFormed(cs, draws) && k < |cs| && Enters(input, draws[k])
    ensures forall l :: 0 <= l < |cs| && l != k ==> !Matches(NormalizePairing(input), cs[l].code)
    ensures Matches(NormalizePairing(input), cs[k].code)
  {
    MatchesIsEnters(input, draws[k]);
    forall l | 0 <= l < |cs| && l != k
      ensures !Matches(NormalizePairing(input), cs[l].code)
    {
      assert Body(draws[k]) != Body(draws[l]);
      MatchesIsEnters(input, draws[l]);
      AtMostOneEntered(input, draws[k], draws[l]);
    }
  }

  /** With generated, distinct codes the loop returns, for every input, the grant of the
      one code it enters, and nothing when it enters none. */
  lemma MatcherExact(cs: seq<Candidate>, draws: seq<seq<byte>>, input: string)
    requires WellFormed(cs, draws)
    ensures var g := FirstMatch(cs, NormalizePairing(input));
      && (forall k :: 0 <= k < |cs| && Enters(input, draws[k]) ==> g == Some(cs[k].grant))
      && (g.None? <==> forall k :: 0 <= k < |cs| ==> !Enters(input, draws[k]))
  {
    var normalized := NormalizePairing(input);
    var i := FirstMatchSound(cs, normalized);
    forall k | 0 <= k < |cs| && Enters(input, draws[k])
      ensures FirstMatch(cs, normalized) == Some(cs[k].grant)
    {
      EnteredAlone(cs, draws, input, k);
    }
    forall k | 0 <= k < |cs|
      ensures Matches(normalized, cs[k].code) <==> Enters(input, draws[k])
    {
      MatchesIsEnters(input, draws[k]);
    }
  }

  /** The stored codes: the shared one, and one per record, all generated and distinct. */
  ghost predicate StoredWellFormed(shared: seq<byte>, draws: map<string, seq<byte>>, records: map<string, PrincipalRecord>) {
    && |shared| == DRAW_BYTES
    && draws.Keys == records.Keys
    && (forall n :: n in draws ==> |draws[n]| == DRAW_BYTES && records[n].code == CodeOf(draws[n]))
    && (forall n :: n in draws ==> Body(draws[n]) != Body(shared))
    && (forall n, m :: n in draws && m in draws && n != m ==> Body(draws[n]) != Body(draws[m]))
  }

  ghost function DrawsOf(shared: seq<byte>, draws: map<string, seq<byte>>, names: seq<string>): (s: seq<seq<byte>>)
    requires forall i :: 0 <= i < |names| ==> names[i] in draws
    ensures |s| == |names| + 1 && s[0] == shared && forall i :: 0 <= i < |names| ==> s[i + 1] == draws[names[i]]
  {
    [shared] + seq(|names|, i requires 0 <= i < |names| => draws[names[i]])
  }

  lemma StoredDraw(shared: seq<byte>, draws: map<string, seq<byte>>, records: map<string, PrincipalRecord>, n: string)
    requires StoredWellFormed(shared, draws, records) && n in records
    ensures n in draws && |draws[n]| == DRAW_BYTES && NamedCandidate(records, n).code == CodeOf(draws[n])
  {
  }

  lemma StoredDrawsDiffer(shared: seq<byte>, draws: map<string, seq<byte>>, records: map<string, PrincipalRecord>, names: seq<string>, k: nat, l: nat)
    requires StoredWellFormed(shared, draws, records)
    requires (forall i :: 0 <= i < |names| ==> names[i] in records) && Increasing(names) && k < l <= |names|
    ensures var ds := DrawsOf(shared, draws, names);
      |ds[k]| == |ds[l]| == DRAW_BYTES && Body(ds[k]) != Body(ds[l])
  {
    var m := names[l - 1];
    assert m in draws && Body(draws[m]) != Body(shared);
    if k > 0 {
      var n := names[k - 1];
      LessIrreflexive(n);
      assert n in draws && n != m;
    }
  }

  lemma StoredCandidateAt(shared: seq<byte>, draws: map<string, seq<byte>>, records: map<string, PrincipalRecord>, names: seq<string>, k: nat)
    requires StoredWellFormed(shared, draws, records)
    requires (forall i :: 0 <= i < |names| ==> names[i] in records) && k <= |names|
    ensures var cs, ds := [Candidate(CodeOf(shared), OPERATOR)] + NamedCandidates(records, names), DrawsOf(shared, draws, names);
      |ds[k]| == DRAW_BYTES && cs[k].code == CodeOf(ds[k])
  {
    if k > 0 {
      StoredDraw(shared, draws, records, names[k - 1]);
      assert DrawsOf(shared, draws, names)[(k - 1) + 1] == draws[names[k - 1]];
    }
  }

  lemma StoredCandidates(shared: seq<byte>, draws: map<string, seq<byte>>, records: map<string, PrincipalRecord>, names: seq<string>)
    requires StoredWellFormed(shared, draws, records)
    requires Increasing(names) && forall i :: 0 <= i < |names| ==> names[i] in records
    ensures WellFormed([Candidate(CodeOf(shared), OPERATOR)] + NamedCandidates(records, names), DrawsOf(shared, draws, names))
  {
    var cs, ds := [Candidate(CodeOf(shared), OPERATOR)] + NamedCandidates(records, names), DrawsOf(shared, draws, names);
    forall k | 0 <= k < |cs|
      ensures |ds[k]| == DRAW_BYTES && cs[k].code == CodeOf(ds[k])
    {
      StoredCandidateAt(shared, draws, records, names, k);
    }
    forall k, l | 0 <= k < l < |cs|
      ensures Body(ds[k]) != Body(ds[l])
    {
      StoredDrawsDiffer(shared, draws, records, names, k, l);
    }
  }

  /** So the shared code's spellings identify the operator, each record's spellings its
      principal, and nothing else anyone. */
  lemma StoredCodesIdentify(shared: seq<byte>, draws: map<string, seq<byte>>, records: map<string, PrincipalRecord>, input: string)
    requires StoredWellFormed(shared, draws, records)
    ensures var g := FirstMatch(CandidatesOf(CodeOf(shared), records), NormalizePairing(input));
      && (Enters(input, shared) ==> g == Some(OPERATOR))
      && (forall n :: n in draws && Enters(input, draws[n]) ==> g == Some(PrincipalGrant(n, records[n].binding)))
      && (g.None? <==> !Enters(input, shared) && forall n :: n in draws ==> !Enters(input, draws[n]))
  {
    var names := Sorted(records.Keys);
    SortedMembers(records.Keys);
    SortedIsSorted(records.Keys);
    StoredCandidates(shared, draws, records, names);
    IdentifyByName(CodeOf(shared), shared, draws, records, names, input);
  }

  lemma IdentifyByName(code: string, shared: seq<byte>, draws: map<string, seq<byte>>, records: map<string, PrincipalRecord>, names: seq<string>, input: string)
    requires |shared| == DRAW_BYTES && draws.Keys == records.Keys
    requires forall n :: n in draws ==> |draws[n]| == DRAW_BYTES
    requires (forall i :: 0 <= i < |names| ==> names[i] in records) && forall n :: n in names <==> n in records.Keys
    requires WellFormed([Candidate(code, OPERATOR)] + NamedCandidates(records, names), DrawsOf(shared, draws, names))
    ensures var g := FirstMatch([Candidate(code, OPERATOR)] + NamedCandidates(records, names), NormalizePairing(input));
      && (Enters(input, shared) ==> g == Some(OPERATOR))
      && (forall n :: n in draws && Enters(input, draws[n]) ==> g == Some(PrincipalGrant(n, records[n].binding)))
      && (g.None? <==> !Enters(input, shared) && forall n :: n in draws ==> !Enters(input, draws[n]))
  {
    var cs, ds := [Candidate(code, OPERATOR)] + NamedCandidates(records, names), DrawsOf(shared, draws, names);
    var g := FirstMatch(cs, NormalizePairing(input));
    MatcherExact(cs, ds, input);
    assert ds[0] == shared && cs[0].grant == OPERATOR;
    forall n | n in draws
      ensures exists k :: 0 <= k < |cs| && ds[k] == draws[n] && cs[k].grant == PrincipalGrant(n, records[n].binding)
    {
      assert n in names;
      var i :| 0 <= i < |names| && names[i] == n;
      assert ds[i + 1] == draws[n] && cs[i + 1] == NamedCandidate(records, n);
    }
    forall k | 0 <= k < |cs|
      ensures ds[k] == shared || exists n :: n in draws && ds[k] == draws[n]
    {
      if k > 0 {
        assert ds[k] == draws[names[k - 1]];
      }
    }
  }

  lemma {:induction false} BlankStripsToNothing(input: string)
    requires forall i :: 0 <= i < |input| ==> IsSeparator(input[i])
    ensures Strip(input) == ""
  {
    if input != "" {
      BlankStripsToNothing(input[1..]);
    }
  }

  /** Blank input enters no generated code. */
  lemma BlankRejected(input: string, draw: seq<byte>)
    requires |draw| == DRAW_BYTES
    requires forall i :: 0 <= i < |TrimSpace(input)| ==> TrimSpace(input)[i] in "- "
    ensures !Enters(input, draw)
  {
    BlankStripsToNothing(TrimSpace(input));
    SpellsByLetter(TrimSpace(input), BARE_PREFIX + Body(draw));
    SpellsByLetter(TrimSpace(input), Body(draw));
  }
}
