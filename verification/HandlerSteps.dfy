/** A handler that runs undisturbed is its steps one after another: the machine's runs
    include every serial run of the server's methods. */
module HandlerSteps {
  import opened Wrappers
  import opened SecretStores
  import opened Pairings
  import opened Handlers
  import opened Machine
  import opened Lineage

  /** What the handlers see of a state. */
  function CoreOf(s: State, faults: seq<bool>): Core {
    Core(Disk(s.docs, faults), Codes(s))
  }

  /** s' holds what the handler left, and no request of its own is still under way. */
  ghost predicate Ends(s: State, s': State, c: Core) {
    s'.docs == c.disk.docs && Codes(s') == c.codes && s'.flights == s.flights && s'.now == s.now
  }

  /** s' is s with the request of a checked submission under way, if it passed. */
  ghost predicate Checks(s: State, s': State, id: nat, p: AuthParams, d: Disk, checked: Checked)
    requires s.proc.Some? && s.proc.value.cfg.Settled()
  {
    && s'.docs == d.docs && s'.proc == s.proc && s'.now == s.now
    && (checked.Refused? ==> s'.flights == s.flights)
    && (checked.Approved? ==>
          s'.flights == s.flights[id := Entered(GrantOf(s.proc.value.cfg, p, checked.client, checked.principal), |s.hist.approvals|)])
  }

  lemma EnterStep(env: Env, s: State, id: nat, p: AuthParams, input: string, draw: Draw, faults: seq<bool>)
    requires s.proc.Some? && s.proc.value.cfg.Settled() && id !in s.flights
    ensures var (d, checked) := CheckSubmission(env, Disk(s.docs, faults), p, input, draw);
      Checks(s, Step(env, s, Enter(id, p, input, draw, faults)), id, p, d, checked)
  {
  }

  lemma SendStep(env: Env, s: State, s1: State, id: nat, p: AuthParams, d: Disk, checked: Checked, draw: Option<string>)
    requires s.proc.Some? && s.proc.value.cfg.Settled() && id !in s.flights && Checks(s, s1, id, p, d, checked)
    ensures Ends(s, Step(env, s1, SendCode(id, draw)),
                 Core(d, AnswerSubmission(env, s.proc.value.cfg, Codes(s), p, checked, draw, s.now).0))
  {
    assert s1.flights - {id} == s.flights;
  }

  lemma SubmitSteps(env: Env, s: State, id: nat, p: AuthParams, input: string, pairDraw: Draw, codeDraw: Option<string>, faults: seq<bool>)
    requires s.proc.Some? && s.proc.value.cfg.Settled() && id !in s.flights
    ensures var c := AuthorizeSubmit(env, s.proc.value.cfg, CoreOf(s, faults), p, input, pairDraw, codeDraw, s.now).0;
      Ends(s, Step(env, Step(env, s, Enter(id, p, input, pairDraw, faults)), SendCode(id, codeDraw)), c)
  {
    var s1 := Step(env, s, Enter(id, p, input, pairDraw, faults));
    var (d, checked) := CheckSubmission(env, Disk(s.docs, faults), p, input, pairDraw);
    EnterStep(env, s, id, p, input, pairDraw, faults);
    SendStep(env, s, s1, id, p, d, checked, codeDraw);
  }

  /** Signing and sending tokens for a request already redeemed. */
  lemma IssueSteps(env: Env, s: State, id: nat, signs: bool, draw: Option<string>, faults: seq<bool>)
    requires s.proc.Some? && id in s.flights && s.flights[id].Redeemed?
    ensures var (d, reply) := IssueTokens(env, s.proc.value.issuer, Disk(s.docs, faults), s.flights[id].grant, signs, draw, s.now);
      var s' := Step(env, Step(env, s, Sign(id, signs)), SendTokens(id, draw, faults));
      && s'.docs == d.docs && Codes(s') == Codes(s) && s'.flights == s.flights - {id} && s'.now == s.now
      && (reply.Granted? ==>
            && s'.hist.mints == s.hist.mints + [Mint(reply.access, s.flights[id].approval, s.now)]
            && reply.refresh in s'.hist.lineage && s'.hist.lineage[reply.refresh] == s.flights[id].approval)
  {
    var s1 := Step(env, s, Sign(id, signs));
    if signs {
      assert s1.flights - {id} == s.flights - {id};
    }
  }

  lemma CodeExchangeSteps(env: Env, s: State, id: nat, r: CodeRequest, signs: bool, draw: Option<string>, faults: seq<bool>)
    requires s.proc.Some? && id !in s.flights
    ensures var c := GrantAuthCode(env, s.proc.value.issuer, CoreOf(s, faults), r, signs, draw, s.now).0;
      Ends(s, Step(env, Step(env, Step(env, s, Redeem(id, r)), Sign(id, signs)), SendTokens(id, draw, faults)), c)
  {
    var s1 := Step(env, s, Redeem(id, r));
    if RedeemCode(env, Codes(s), r, s.now).1.Some? {
      IssueSteps(env, s1, id, signs, draw, faults);
      assert s1.flights - {id} == s.flights;
    } else {
      assert s1.flights == s.flights;
    }
  }

  lemma RefreshSteps(env: Env, s: State, id: nat, token: string, clientID: string, signs: bool, draw: Option<string>, faults: seq<bool>)
    requires s.proc.Some? && id !in s.flights
    ensures var c := GrantRefresh(env, s.proc.value.issuer, CoreOf(s, faults), token, clientID, signs, draw, s.now).0;
      var rest := RedeemRefresh(env, Disk(s.docs, faults), token, clientID).0.faults;
      Ends(s, Step(env, Step(env, Step(env, s, Refresh(id, token, clientID, faults)), Sign(id, signs)), SendTokens(id, draw, rest)), c)
  {
    var (d, g) := RedeemRefresh(env, Disk(s.docs, faults), token, clientID);
    var s1 := Step(env, s, Refresh(id, token, clientID, faults));
    if g.Ok? && g.value.Some? {
      IssueSteps(env, s1, id, signs, draw, d.faults);
      assert s1.flights - {id} == s.flights;
    } else {
      assert s1.flights == s.flights;
    }
  }

  /** A removal that stops at its first error makes only its first step. */
  lemma RemoveSteps(env: Env, s: State, n: string, faults: seq<bool>)
    ensures var d := RemoveNamed(env.codecs, Disk(s.docs, faults), n).0;
      var (d1, r) := DropRecord(env.codecs, Disk(s.docs, faults), n);
      var s1 := Step(env, s, RemoveRecord(n, faults));
      (if r.Ok? then Step(env, s1, RemoveTokens(n, d1.faults)) else s1) == s.(docs := d.docs)
  {
    var (d1, r) := DropRecord(env.codecs, Disk(s.docs, faults), n);
    assert Step(env, s, RemoveRecord(n, faults)) == s.(docs := d1.docs);
    assert Disk(d1.docs, d1.faults) == d1;
  }

  /** Registrations, operator commands and restarts are single steps: each leaves the
      documents its operation leaves, store errors included; a restart leaves the server the
      boot builds, if it builds one, without codes and requests; and nothing else changes. */
  lemma CommandSteps(env: Env, s: State, e: Event)
    ensures var s' := Step(env, s, e);
      match e
      case Register(uris, name, draw, faults) =>
        s.proc.Some? ==> Keeps(s, s', HandleRegister(env, Disk(s.docs, faults), uris, name, draw).0)
      case Add(name, binding, draw, faults) => Keeps(s, s', AddNamed(env.codecs, Disk(s.docs, faults), name, binding, draw).0)
      case Rotate(draw, faults) => Keeps(s, s', RotateCode(Disk(s.docs, faults), draw).0)
      case Reset(faults) => Keeps(s, s', if FailsAt(Disk(s.docs, faults), 0) then Disk(s.docs, []) else Disk(map[], []))
      case Restart(cfg, draw, faults) =>
        var (d, r) := Boot(Disk(s.docs, faults), cfg, draw);
        && s'.docs == d.docs && s'.flights == map[] && s'.now == s.now
        && s'.proc == (if r.Failed? then None else Some(Proc(r.value.0, IssuerOf(r.value.0, r.value.1), map[])))
      case Tick(elapsed) => s' == s.(now := s.now + elapsed)
      case _ => true
  {
  }

  predicate Keeps(s: State, s': State, d: Disk) {
    s'.docs == d.docs && s'.proc == s.proc && s'.flights == s.flights && s'.now == s.now
  }
}
