/** Whole runs of the OAuth layer. Requests take one step per atomic store or code-table
    operation, so steps of different requests, operator commands, restarts and the clock
    interleave freely; refresh mutations are serialized. */
module Machine {
  import opened Wrappers
  import opened SecretStores
  import opened Base64Url
  import opened Records
  import opened RefreshTokens
  import opened AuthCodes
  import opened AccessTokens
  import opened PairingCodes
  import opened Pairings
  import opened Handlers

  /** The running server: what a restart loses. */
  datatype Proc = Proc(cfg: Config, issuer: Issuer, codes: map<string, AuthGrant>)

  /** A request between two of its steps, with the approval its identity came from. */
  datatype Flight =
    | Entered(code: AuthGrant, approval: nat)
    | Redeemed(grant: RefreshGrant, approval: nat)
    | Signed(grant: RefreshGrant, approval: nat)

  /** A pairing code entered: the grant it established, and the documents it was matched against. */
  datatype Approval = Approval(grant: AuthGrant, input: string, docs: map<string, string>)

  datatype Mint = Mint(token: Jwt, approval: nat, at: int)

  /** What has happened: every random value drawn, every approval, the approval each
      issued code and refresh token descends from, and every token signed. */
  datatype History = History(
    used: set<string>, keys: set<seq<byte>>, bodies: set<string>,
    approvals: seq<Approval>, lineage: map<string, nat>, mints: seq<Mint>)

  datatype State = State(
    docs: map<string, string>, proc: Option<Proc>, flights: map<nat, Flight>, now: int, hist: History)

  function Initial(now: int): State {
    State(map[], None, map[], now, History({}, {}, {}, [], map[], []))
  }

  datatype Event =
    | Register(uris: seq<string>, name: string, draw: Option<string>, faults: seq<bool>)
    | Enter(id: nat, params: AuthParams, input: string, pairDraw: Draw, faults: seq<bool>)
    | SendCode(id: nat, draw: Option<string>)
    | Redeem(id: nat, request: CodeRequest)
    | Refresh(id: nat, token: string, clientID: string, faults: seq<bool>)
    | Sign(id: nat, signs: bool)
    | SendTokens(id: nat, draw: Option<string>, faults: seq<bool>)
    | Add(name: string, binding: map<string, string>, pairDraw: Draw, faults: seq<bool>)
    | RemoveRecord(name: string, faults: seq<bool>)
    | RemoveTokens(name: string, faults: seq<bool>)
    | Rotate(pairDraw: Draw, faults: seq<bool>)
    | Reset(faults: seq<bool>)
    | Restart(cfg: Config, keyDraw: Option<seq<byte>>, faults: seq<bool>)
    | Tick(elapsed: nat)

  function Drawn(draw: Option<string>): set<string> {
    if draw.Some? then {draw.value} else {}
  }

  function DrawnBody(draw: Draw): set<string> {
    if draw.Some? then {Body(draw.value)} else {}
  }

  /** The approval a code or token descends from. */
  function LineageOf(s: State, k: string): nat {
    if k in s.hist.lineage then s.hist.lineage[k] else 0
  }

  function DoRegister(env: Env, s: State, uris: seq<string>, name: string, draw: Option<string>, faults: seq<bool>): State {
    if s.proc.None? then s
    else
      var (d, _) := HandleRegister(env, Disk(s.docs, faults), uris, name, draw);
      s.(docs := d.docs, hist := s.hist.(used := s.hist.used + Drawn(draw)))
  }

  function DoEnter(env: Env, s: State, id: nat, p: AuthParams, input: string, draw: Draw, faults: seq<bool>): State {
    if s.proc.None? || id in s.flights || !s.proc.value.cfg.Settled() then s
    else
      var (d, checked) := CheckSubmission(env, Disk(s.docs, faults), p, input, draw);
      var s' := s.(docs := d.docs, hist := s.hist.(bodies := s.hist.bodies + DrawnBody(draw)));
      if checked.Refused? then s'
      else
        var grant := GrantOf(s.proc.value.cfg, p, checked.client, checked.principal);
        s'.(flights := s.flights[id := Entered(grant, |s.hist.approvals|)],
            hist := s'.hist.(approvals := s.hist.approvals + [Approval(grant, input, d.docs)]))
  }

  function DoSendCode(env: Env, s: State, id: nat, draw: Option<string>): State {
    if s.proc.None? || id !in s.flights || !s.flights[id].Entered? then s
    else
      var f := s.flights[id];
      var (codes, r) := IssueCode(s.proc.value.codes, f.code, draw, s.now + AUTH_CODE_TTL);
      s.(proc := Some(s.proc.value.(codes := codes)),
         flights := s.flights - {id},
         hist := s.hist.(used := s.hist.used + Drawn(draw),
                         lineage := if draw.Some? then s.hist.lineage[draw.value := f.approval] else s.hist.lineage))
  }

  function DoRedeem(env: Env, s: State, id: nat, r: CodeRequest): State {
    if s.proc.None? || id in s.flights then s
    else
      var (codes, g) := RedeemCode(env, s.proc.value.codes, r, s.now);
      s.(proc := Some(s.proc.value.(codes := codes)),
         flights := if g.Some? then s.flights[id := Redeemed(g.value, LineageOf(s, r.code))] else s.flights)
  }

  function DoRefresh(env: Env, s: State, id: nat, token: string, clientID: string, faults: seq<bool>): State {
    if s.proc.None? || id in s.flights then s
    else
      var (d, g) := RedeemRefresh(env, Disk(s.docs, faults), token, clientID);
      s.(docs := d.docs,
         flights := if g.Ok? && g.value.Some? then s.flights[id := Redeemed(g.value.value, LineageOf(s, token))] else s.flights)
  }

  function DoSign(env: Env, s: State, id: nat, signs: bool): State {
    if s.proc.None? || id !in s.flights || !s.flights[id].Redeemed? then s
    else if !signs then s.(flights := s.flights - {id})
    else
      var f := s.flights[id];
      s.(flights := s.flights[id := Signed(f.grant, f.approval)],
         hist := s.hist.(mints := s.hist.mints + [Mint(s.proc.value.issuer.Mint(f.grant, s.now), f.approval, s.now)]))
  }

  function DoSendTokens(env: Env, s: State, id: nat, draw: Option<string>, faults: seq<bool>): State {
    if s.proc.None? || id !in s.flights || !s.flights[id].Signed? then s
    else
      var f := s.flights[id];
      var (d, r) := IssueToken(env.codecs, Disk(s.docs, faults), f.grant, draw);
      s.(docs := d.docs,
         flights := s.flights - {id},
         hist := s.hist.(used := s.hist.used + Drawn(draw),
                         lineage := if r.Ok? then s.hist.lineage[r.value := f.approval] else s.hist.lineage))
  }

  function DoAdd(env: Env, s: State, name: string, binding: map<string, string>, draw: Draw, faults: seq<bool>): State {
    var (d, _) := AddNamed(env.codecs, Disk(s.docs, faults), name, binding, draw);
    s.(docs := d.docs, hist := s.hist.(bodies := s.hist.bodies + DrawnBody(draw)))
  }

  function DoRotate(env: Env, s: State, draw: Draw, faults: seq<bool>): State {
    var (d, _) := RotateCode(Disk(s.docs, faults), draw);
    s.(docs := d.docs, hist := s.hist.(bodies := s.hist.bodies + DrawnBody(draw)))
  }

  /** The old process is gone whether or not the new one comes up. */
  function DoRestart(env: Env, s: State, cfg: Config, draw: Option<seq<byte>>, faults: seq<bool>): State {
    var (d, r) := Boot(Disk(s.docs, faults), cfg, draw);
    s.(docs := d.docs,
       proc := if r.Failed? then None else Some(Proc(r.value.0, IssuerOf(r.value.0, r.value.1), map[])),
       flights := map[],
       hist := s.hist.(keys := s.hist.keys + (if draw.Some? then {draw.value} else {})))
  }

  function Step(env: Env, s: State, e: Event): State {
    match e
    case Register(uris, name, draw, faults) => DoRegister(env, s, uris, name, draw, faults)
    case Enter(id, p, input, draw, faults) => DoEnter(env, s, id, p, input, draw, faults)
    case SendCode(id, draw) => DoSendCode(env, s, id, draw)
    case Redeem(id, r) => DoRedeem(env, s, id, r)
    case Refresh(id, token, clientID, faults) => DoRefresh(env, s, id, token, clientID, faults)
    case Sign(id, signs) => DoSign(env, s, id, signs)
    case SendTokens(id, draw, faults) => DoSendTokens(env, s, id, draw, faults)
    case Add(name, binding, draw, faults) => DoAdd(env, s, name, binding, draw, faults)
    case RemoveRecord(name, faults) => s.(docs := DropRecord(env.codecs, Disk(s.docs, faults), name).0.docs)
    case RemoveTokens(name, faults) => s.(docs := DropTokensOf(env.codecs, Disk(s.docs, faults), name).0.docs)
    case Rotate(draw, faults) => DoRotate(env, s, draw, faults)
    case Reset(faults) => s.(docs := Disk(s.docs, faults).DeleteAll().0.docs)
    case Restart(cfg, draw, faults) => DoRestart(env, s, cfg, draw, faults)
    case Tick(elapsed) => s.(now := s.now + elapsed)
  }

  /** Random values never repeat: tokens and ids, signing keys, pairing-code bodies. */
  predicate Fresh(s: State, e: Event) {
    match e
    case Register(_, _, draw, _) => Drawn(draw) !! s.hist.used
    case SendCode(_, draw) => Drawn(draw) !! s.hist.used
    case SendTokens(_, draw, _) => Drawn(draw) !! s.hist.used
    case Enter(_, _, _, draw, _) => DrawnBody(draw) !! s.hist.bodies
    case Add(_, _, draw, _) => DrawnBody(draw) !! s.hist.bodies
    case Rotate(draw, _) => DrawnBody(draw) !! s.hist.bodies
    case Restart(_, draw, _) => draw.Some? ==> |draw.value| == KEY_BYTES && draw.value !in s.hist.keys
    case _ => true
  }

  function Run(env: Env, s: State, es: seq<Event>): State
    decreases |es|
  {
    if es == [] then s else Step(env, Run(env, s, es[..|es| - 1]), es[|es| - 1])
  }

  ghost predicate FreshRun(env: Env, s: State, es: seq<Event>)
    decreases |es|
  {
    es != [] ==>
      FreshRun(env, s, es[..|es| - 1]) && Fresh(Run(env, s, es[..|es| - 1]), es[|es| - 1])
  }

  /** A state some run of fresh draws from an empty store reaches. */
  ghost predicate Reachable(env: Env, s: State) {
    exists now, es :: FreshRun(env, Initial(now), es) && s == Run(env, Initial(now), es)
  }

  lemma RunOne(env: Env, s: State, e: Event)
    ensures Run(env, s, [e]) == Step(env, s, e)
    ensures FreshRun(env, s, [e]) <==> Fresh(s, e)
  {
    assert [e][..0] == [];
  }

  lemma {:induction false} RunAppend(env: Env, s: State, a: seq<Event>, b: seq<Event>)
    ensures Run(env, s, a + b) == Run(env, Run(env, s, a), b)
    ensures FreshRun(env, s, a + b) <==> FreshRun(env, s, a) && FreshRun(env, Run(env, s, a), b)
    decreases |b|
  {
    if b == [] {
      assert a + b == a;
    } else {
      var n := |a + b| - 1;
      assert (a + b)[..n] == a + b[..|b| - 1] && (a + b)[n] == b[|b| - 1];
      RunAppend(env, s, a, b[..|b| - 1]);
    }
  }
}
