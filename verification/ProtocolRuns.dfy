/** The flow also gets there: from any state, an honest approval and exchange yield claims. */
module ProtocolRuns {
  import opened Texts
  import opened Callbacks
  import opened CodeStore
  import opened Protocol
  import opened ProtocolClient

  /** The contracts allow the wallet into the application right now. */
  predicate AllowedNow(ch: Chain, orgId: int, wallet: Text, slug: Text) {
    && ch.organization(orgId) == Some(true) && ch.identity(wallet) == Standing(true, true)
    && !ch.expired(orgId, wallet) && HoldsRole(ch.role(orgId, wallet))
    && (slug != [] ==> ch.appRegistered(orgId, slug) && ch.appAllowed(orgId, wallet, slug))
  }

  /** The tables hold the client's live application, and a registered callback the redirect spells. */
  ghost predicate ClientReady(cfg: Config, w: World, clientId: Text, redirectUri: Text, app: App, registered: Text) {
    ClientAt(w, clientId, app) && CallbackAt(cfg, w, app, redirectUri, registered)
  }

  /** Request id is at c, and nothing else has changed since s0. */
  ghost predicate Here(s0: State, s: State, id: nat, c: Call) {
    && s.world == s0.world && s.codes == s0.codes && s.approvals == s0.approvals && s.consumers == s0.consumers
    && s.claims == s0.claims && s.calls == s0.calls[id := c]
  }

  /** Only steps of the given requests were added. */
  ghost predicate Continues(moves: seq<Move>, moves': seq<Move>, ids: set<nat>) {
    moves <= moves' && forall k | |moves| <= k < |moves'| :: moves'[k].call in ids
  }

  lemma {:induction false} RunAppend(cfg: Config, w: World, moves: seq<Move>, m: Move)
    ensures Run(cfg, w, moves + [m]) == Apply(cfg, Run(cfg, w, moves), m)
  {
    assert (moves + [m])[..|moves|] == moves;
  }

  predicate Reads(step: Step) {
    step.ReadApp? || step.ReadCallbacks? || step.ReadSession? || step.ReadChain? || step.Decide?
  }

  /** One more step of the request. */
  lemma Take(cfg: Config, w: World, moves: seq<Move>, s0: State, id: nat, c: Call,
             step: Step) returns (moves': seq<Move>)
    requires Here(s0, Run(cfg, w, moves), id, c) && Reads(step)
    ensures moves' == moves + [Move(id, step)]
    ensures Here(s0, Run(cfg, w, moves'), id, Advance(cfg, s0.world, |Run(cfg, w, moves).history|, c, step))
  {
    hide Run, Advance;
    moves' := moves + [Move(id, step)];
    RunAppend(cfg, w, moves, Move(id, step));
    var c' := Advance(cfg, s0.world, |Run(cfg, w, moves).history|, c, step);
    assert s0.calls[id := c][id := c'] == s0.calls[id := c'];
  }

  // ---- reading the chain through ----

  predicate Reading(c: Call) { c.ApproveReading? || c.ExchangeReading? }

  function OrgOf(c: Call): int
    requires Reading(c)
  {
    if c.ApproveReading? then c.form.orgId else c.paid.orgId
  }

  function WalletOf(c: Call): Text
    requires Reading(c)
  {
    if c.ApproveReading? then c.wallet else c.paid.wallet
  }

  function SlugOf(c: Call): Text
    requires Reading(c)
  {
    if c.ApproveReading? then c.resolved.app.slug else c.paid.appSlug
  }

  const READERS := [Organization, Identity, Role, Membership, AppRegistered, AppAllowed, Permissions]

  /** The first n readers have answered, with what the chain says. */
  predicate ReadSoFar(n: nat, r: Readings, ch: Chain, orgId: int, wallet: Text, slug: Text) {
    && (n > 0 ==> r.organization.Got? && r.organization.value == ch.organization(orgId))
    && (n > 1 ==> r.identity.Got? && r.identity.value == ch.identity(wallet))
    && (n > 2 ==> r.role.Got? && r.role.value == ch.role(orgId, wallet))
    && (n > 3 ==> r.expired.Got? && r.expired.value == ch.expired(orgId, wallet))
    && (n > 4 ==> r.registered.Got? && r.registered.value == ch.appRegistered(orgId, slug))
    && (n > 5 ==> r.allowed.Got? && r.allowed.value == ch.appAllowed(orgId, wallet, slug))
    && (n > 6 && ch.role(orgId, wallet) != NoRole() ==>
          r.permissions.Got? && r.permissions.value == ch.permissions(orgId, wallet))
  }

  lemma ReaderAnswers(n: nat, at: nat, r: Readings, ch: Chain, orgId: int, wallet: Text, slug: Text)
    requires n < 7 && ReadSoFar(n, r, ch, orgId, wallet, slug)
    ensures ReadSoFar(n + 1, ReadOne(ch, at, r, READERS[n], orgId, wallet, slug), ch, orgId, wallet, slug)
  {
    hide NoRole;
  }

  lemma NowDecides(r: Readings, ch: Chain, orgId: int, wallet: Text, slug: Text)
    requires ReadSoFar(7, r, ch, orgId, wallet, slug)
    ensures AllRead(r, slug) && (Decision(r, slug).None? <==> AllowedNow(ch, orgId, wallet, slug))
  {
    RoleExactly(ch.role(orgId, wallet));
    hide NoRole, HoldsRole;
  }

  lemma AdvanceReads(cfg: Config, w: World, n: nat, c: Call, reader: Reader)
    requires Reading(c)
    ensures Advance(cfg, w, n, c, ReadChain(reader))
      == c.(readings := ReadOne(w.chain, n, c.readings, reader, OrgOf(c), WalletOf(c), SlugOf(c)))
  {
    hide ReadOne;
  }

  lemma ReadThrough(cfg: Config, w: World, moves: seq<Move>, s0: State, id: nat, c: Call)
    returns (moves': seq<Move>, r: Readings)
    requires Reading(c) && Here(s0, Run(cfg, w, moves), id, c)
    ensures Continues(moves, moves', {id}) && Here(s0, Run(cfg, w, moves'), id, c.(readings := r))
    ensures ReadSoFar(7, r, s0.world.chain, OrgOf(c), WalletOf(c), SlugOf(c))
  {
    hide Here, Run, ReadOne, Advance;
    moves', r := moves, c.readings;
    for i := 0 to 7
      invariant Continues(moves, moves', {id}) && Here(s0, Run(cfg, w, moves'), id, c.(readings := r))
      invariant ReadSoFar(i, r, s0.world.chain, OrgOf(c), WalletOf(c), SlugOf(c))
    {
      var at := |Run(cfg, w, moves').history|;
      AdvanceReads(cfg, s0.world, at, c.(readings := r), READERS[i]);
      moves' := Take(cfg, w, moves', s0, id, c.(readings := r), ReadChain(READERS[i]));
      ReaderAnswers(i, at, r, s0.world.chain, OrgOf(c), WalletOf(c), SlugOf(c));
      r := ReadOne(s0.world.chain, at, r, READERS[i], OrgOf(c), WalletOf(c), SlugOf(c));
    }
  }

  // ---- an approval ----

  /** A request that finds its client, session and access in order gets its code stored. */
  lemma HonestApproval(cfg: Config, w: World, moves: seq<Move>, id: nat, form: Form, app: App, registered: Text,
                       wallet: Text, code: Text)
    returns (moves': seq<Move>)
    requires var s := Run(cfg, w, moves);
      && id !in s.calls && FormFits(form) && app.orgId == form.orgId && wallet != []
      && ClientReady(cfg, s.world, form.clientId, form.redirectUri, app, registered)
      && AllowedNow(s.world.chain, form.orgId, wallet, app.slug)
      && code !in s.approvals && code !in s.codes
    ensures Continues(moves, moves', {id})
    ensures var s, s' := Run(cfg, w, moves), Run(cfg, w, moves');
      && s'.world == s.world && s'.claims == s.claims && s'.consumers == s.consumers
      && (forall k | k in s'.calls :: k == id || k in s.calls)
      && s'.codes == s.codes[code := NewRow(Grant(code, form.clientId, app.slug, form.orgId, wallet, registered,
                                                   s.world.now + 120_000))]
  {
    hide Run, Advance, AllRead, Decision, AllowedNow, ReadSoFar, FormFits, FormOk, ClientAt, CallbackAt;
    var s := Run(cfg, w, moves);
    FormFitsExactly(form);
    RunAppend(cfg, w, moves, Move(id, BeginApprove(form)));
    moves' := moves + [Move(id, BeginApprove(form))];
    var c := ApproveStart(form);
    var n := |Run(cfg, w, moves').history|;
    ApproveChecks(cfg, s.world, n, form, app, registered, wallet);
    moves' := Take(cfg, w, moves', s, id, c, ReadApp);
    c := ApproveFound(form, app, n);
    var m := |Run(cfg, w, moves').history|;
    ApproveResolves(cfg, s.world, m, form, app, n, registered);
    moves' := Take(cfg, w, moves', s, id, c, ReadCallbacks);
    c := ApproveResolved(form, Resolved(app, n, m, registered));
    var at := |Run(cfg, w, moves').history|;
    ApproveSigns(cfg, s.world, at, form, c.resolved, wallet);
    moves' := Take(cfg, w, moves', s, id, c, ReadSession(Some(wallet)));
    c := ApproveReading(form, c.resolved, wallet, at, NO_READINGS);
    var more, r := ReadThrough(cfg, w, moves', s, id, c);
    c := ApproveReading(form, c.resolved, wallet, at, r);
    NowDecides(r, s.world.chain, form.orgId, wallet, app.slug);
    var t := |Run(cfg, w, more).history|;
    ApproveDecides(cfg, s.world, t, c, code);
    moves' := Take(cfg, w, more, s, id, c, Decide(code));
    RunAppend(cfg, w, moves', Move(id, Step.Insert));
    Inserts(cfg, s, Run(cfg, w, moves'), id, Advance(cfg, s.world, t, c, Decide(code)));
    moves' := moves' + [Move(id, Step.Insert)];
  }

  lemma ApproveChecks(cfg: Config, w: World, n: nat, form: Form, app: App, registered: Text, wallet: Text)
    requires ClientReady(cfg, w, form.clientId, form.redirectUri, app, registered)
    ensures Advance(cfg, w, n, ApproveStart(form), ReadApp) == ApproveFound(form, app, n)
  {
    hide FindApp, AppRow, CallbackAt;
    FoundExactly(w, form.clientId);
  }

  lemma ApproveResolves(cfg: Config, w: World, m: nat, form: Form, app: App, n: nat, registered: Text)
    requires ClientReady(cfg, w, form.clientId, form.redirectUri, app, registered) && app.orgId == form.orgId
    ensures Advance(cfg, w, m, ApproveFound(form, app, n), ReadCallbacks)
      == ApproveResolved(form, Resolved(app, n, m, registered))
  {
    hide AppRow, CallbackAt, Accepts;
    AcceptedAt(cfg, w, app, form.redirectUri);
  }

  lemma ApproveSigns(cfg: Config, w: World, at: nat, form: Form, r: Resolved, wallet: Text)
    requires wallet != []
    ensures Advance(cfg, w, at, ApproveResolved(form, r), ReadSession(Some(wallet)))
      == ApproveReading(form, r, wallet, at, NO_READINGS)
  {
  }

  lemma ApproveDecides(cfg: Config, w: World, t: nat, c: Call, code: Text)
    requires c.ApproveReading? && AllRead(c.readings, c.resolved.app.slug)
    requires Decision(c.readings, c.resolved.app.slug).None?
    ensures Advance(cfg, w, t, c, Decide(code)) ==
      ApproveDecided(Approval(c.form, c.resolved, c.wallet, c.sessionAt, c.readings, t,
                              w.now + AUTHORIZATION_CODE_TTL_MS, t + 1), code)
  {
    hide AllRead, Decision;
  }

  lemma Inserts(cfg: Config, s0: State, s: State, id: nat, c: Call)
    requires c.ApproveDecided? && Here(s0, s, id, c) && c.code !in s0.approvals && c.code !in s0.codes
    ensures var s' := Apply(cfg, s, Move(id, Step.Insert));
      && s'.world == s0.world && s'.claims == s0.claims && s'.consumers == s0.consumers
      && (forall k | k in s'.calls :: k == id || k in s0.calls)
      && s'.codes == s0.codes[c.code := NewRow(GrantOf(c.approval, c.code))]
  {
    hide NewRow;
  }

  // ---- an exchange ----

  /** The code is stored for this client and callback, unused and in time. */
  predicate CodeReady(s: State, b: Body, app: App, registered: Text, wallet: Text, expiresAt: int) {
    && b.code in s.codes && s.world.now < expiresAt
    && s.codes[b.code] == Row(Grant(b.code, b.clientId, app.slug, app.orgId, wallet, registered, expiresAt), None)
  }

  /** The claims a request answers with. */
  predicate Answers(s: State, id: nat, b: Body, wallet: Text, orgId: int, w: World) {
    && id in s.claims && s.claims[id].body == b
    && s.claims[id].claims == PartnerClaims(LowerAscii(wallet), orgId, w.chain.role(orgId, wallet),
                                            w.chain.permissions(orgId, wallet), true, w.now)
  }

  /** A client that presents a good code gets the claims the chain holds at that time. */
  lemma HonestExchange(cfg: Config, w: World, moves: seq<Move>, id: nat, b: Body, app: App, registered: Text,
                       wallet: Text, expiresAt: int)
    returns (moves': seq<Move>)
    requires var s := Run(cfg, w, moves);
      && id !in s.calls && BodyFits(b) && ClientReady(cfg, s.world, b.clientId, b.redirectUri, app, registered)
      && SecretMatches(cfg, b, app) && CodeReady(s, b, app, registered, wallet, expiresAt)
      && AllowedNow(s.world.chain, app.orgId, wallet, app.slug)
    ensures Continues(moves, moves', {id})
    ensures Answers(Run(cfg, w, moves'), id, b, wallet, app.orgId, Run(cfg, w, moves).world)
  {
    hide Run, Advance, AllRead, Decision, AllowedNow, ReadSoFar, BodyFits, BodyOk, ClientAt, CallbackAt;
    hide SecretMatches, CodeReady;
    var s := Run(cfg, w, moves);
    BodyFitsExactly(b);
    RunAppend(cfg, w, moves, Move(id, BeginExchange(b)));
    moves' := moves + [Move(id, BeginExchange(b))];
    var n := |Run(cfg, w, moves').history|;
    ExchangeChecks(cfg, s.world, n, b, app, registered);
    moves' := Take(cfg, w, moves', s, id, ExchangeStart(b), ReadApp);
    var m := |Run(cfg, w, moves').history|;
    ExchangeResolves(cfg, s.world, m, b, app, n, registered);
    moves' := Take(cfg, w, moves', s, id, ExchangeFound(b, app, n), ReadCallbacks);
    var r := Resolved(app, n, m, registered);
    var paid := Paid(app.slug, app.orgId, wallet, registered);

    var before := Run(cfg, w, moves');
    RunAppend(cfg, w, moves', Move(id, Step.Consume));
    moves' := moves' + [Move(id, Step.Consume)];
    var s1 := Run(cfg, w, moves');
    var c := ExchangeReading(b, r, paid, |before.history|, NO_READINGS);
    Consumes(cfg, s, before, id, b, r, wallet, expiresAt);
    var more, readings := ReadThrough(cfg, w, moves', s1, id, c);
    NowDecides(readings, s1.world.chain, app.orgId, wallet, app.slug);
    RunAppend(cfg, w, more, Move(id, Respond));
    Responds(cfg, s1, Run(cfg, w, more), id, ExchangeReading(b, r, paid, |before.history|, readings));
    RoleHeld(s1.world.chain, app.orgId, wallet, app.slug, readings);
    moves' := more + [Move(id, Respond)];
  }

  lemma ExchangeChecks(cfg: Config, w: World, n: nat, b: Body, app: App, registered: Text)
    requires ClientReady(cfg, w, b.clientId, b.redirectUri, app, registered)
    ensures Advance(cfg, w, n, ExchangeStart(b), ReadApp) == ExchangeFound(b, app, n)
  {
    hide FindApp, AppRow, CallbackAt;
    FoundExactly(w, b.clientId);
  }

  lemma ExchangeResolves(cfg: Config, w: World, m: nat, b: Body, app: App, n: nat, registered: Text)
    requires ClientReady(cfg, w, b.clientId, b.redirectUri, app, registered) && SecretMatches(cfg, b, app)
    ensures Advance(cfg, w, m, ExchangeFound(b, app, n), ReadCallbacks) ==
      ExchangeResolved(b, Resolved(app, n, m, registered))
  {
    hide AppRow, CallbackAt, Accepts, SecretMatches, SecretOk;
    SecretExactly(cfg, b, app);
    AcceptedAt(cfg, w, app, b.redirectUri);
  }

  lemma Consumes(cfg: Config, s0: State, s: State, id: nat, b: Body, r: Resolved, wallet: Text, expiresAt: int)
    requires Here(s0, s, id, ExchangeResolved(b, r)) && CodeReady(s0, b, r.app, r.registered, wallet, expiresAt)
    ensures var s' := Apply(cfg, s, Move(id, Step.Consume));
      var paid := Paid(r.app.slug, r.app.orgId, wallet, r.registered);
      s'.world == s0.world && Here(s', s', id, ExchangeReading(b, r, paid, |s.history|, NO_READINGS))
  {
    var s' := Apply(cfg, s, Move(id, Step.Consume));
    assert s'.calls[id := s'.calls[id]] == s'.calls;
  }

  lemma RoleHeld(ch: Chain, orgId: int, wallet: Text, slug: Text, r: Readings)
    requires AllowedNow(ch, orgId, wallet, slug) && ReadSoFar(7, r, ch, orgId, wallet, slug)
    ensures r.role.value != NoRole() && r.permissions.Got? && r.permissions.value == ch.permissions(orgId, wallet)
    ensures r.identity.value.active && r.role.value == ch.role(orgId, wallet)
  {
    RoleExactly(ch.role(orgId, wallet));
    hide NoRole, HoldsRole;
  }

  lemma Responds(cfg: Config, s0: State, s: State, id: nat, c: Call)
    requires c.ExchangeReading? && Here(s0, s, id, c) && AllRead(c.readings, c.paid.appSlug)
    requires Decision(c.readings, c.paid.appSlug).None?
    ensures var s' := Apply(cfg, s, Move(id, Respond));
      && id in s'.claims && s'.claims[id].body == c.body
      && s'.claims[id].claims == BuildPartnerClaims(c.paid, c.readings, s0.world.now)
  {
    hide AllRead, Decision, BuildPartnerClaims;
  }

  // ---- both ----

  lemma Compose(a: seq<Move>, b: seq<Move>, c: seq<Move>, i: nat, j: nat)
    requires Continues(a, b, {i}) && Continues(b, c, {j})
    ensures Continues(a, c, {i, j})
  {
    forall k | |a| <= k < |c| ensures c[k].call in {i, j} {
      if k < |b| { assert c[k] == b[k]; }
    }
  }

  /**
   From any reachable state, while the world stands still: a wallet that consents at a client
   in good standing, and a client that presents the code with any redirect accepted for the
   same callback, end with that wallet's claims.
   */
  lemma HonestSignIn(cfg: Config, w: World, moves: seq<Move>, i: nat, j: nat, form: Form, b: Body, app: App,
                     registered: Text, wallet: Text)
    returns (moves': seq<Move>)
    requires var s := Run(cfg, w, moves);
      && i !in s.calls && j !in s.calls && i != j
      && FormFits(form) && BodyFits(b) && b.clientId == form.clientId && app.orgId == form.orgId && wallet != []
      && ClientReady(cfg, s.world, form.clientId, form.redirectUri, app, registered)
      && ClientReady(cfg, s.world, b.clientId, b.redirectUri, app, registered) && SecretMatches(cfg, b, app)
      && AllowedNow(s.world.chain, app.orgId, wallet, app.slug)
      && AllowedNow(s.world.chain, app.orgId, LowerAscii(wallet), app.slug)
      && b.code !in s.approvals && b.code !in s.codes
    ensures Continues(moves, moves', {i, j})
    ensures Answers(Run(cfg, w, moves'), j, b, LowerAscii(wallet), app.orgId, Run(cfg, w, moves).world)
  {
    hide Run, AllowedNow, FormFits, BodyFits, ClientReady, SecretMatches, LowerAscii, Answers, Continues;
    var s := Run(cfg, w, moves);
    var mid := HonestApproval(cfg, w, moves, i, form, app, registered, wallet, b.code);
    var expiresAt := s.world.now + 120_000;
    moves' := HonestExchange(cfg, w, mid, j, b, app, registered, LowerAscii(wallet), expiresAt);
    Compose(moves, mid, moves', i, j);
  }
}
