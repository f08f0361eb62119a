/**
 "Sign in with OwneX", the authorization-code flow, as a transition system. Many approve and
 exchange requests are in flight; every database or chain read is one step; between any two
 steps the clock, the registry and the chain may change, and any read may fail.
 */
module Protocol {
  import opened Texts
  import opened Callbacks
  import opened CodeStore
  import Credentials

  // ---- the world the requests read ----

  datatype App = App(orgId: int, slug: Text, revoked: bool, secretHash: Option<Text>)

  datatype Standing = Standing(registered: bool, active: bool)

  type Permissions = map<Text, bool>

  /** The contracts' answers; an unknown organization is None, else whether it is active. */
  datatype Chain = Chain(
    organization: int -> Option<bool>,
    identity: Text -> Standing,
    role: (int, Text) -> Text,
    expired: (int, Text) -> bool,
    appRegistered: (int, Text) -> bool,
    appAllowed: (int, Text, Text) -> bool,
    permissions: (int, Text) -> Permissions)

  /** Applications by client id, callback lists by organization and slug. */
  datatype World = World(now: int, apps: map<Text, App>, callbacks: map<(int, Text), seq<Text>>, chain: Chain)

  type History = seq<World>

  function CallbackList(w: World, app: App): seq<Text> {
    if (app.orgId, app.slug) in w.callbacks then w.callbacks[(app.orgId, app.slug)] else []
  }

  datatype Config = Config(mode: Mode, kdf: Credentials.Kdf)

  // ---- the access decision ----

  datatype Reading<T> = Unread | Got(value: T, at: nat)

  datatype Readings = Readings(
    organization: Reading<Option<bool>>, identity: Reading<Standing>, role: Reading<Text>, expired: Reading<bool>,
    registered: Reading<bool>, allowed: Reading<bool>, permissions: Reading<Permissions>)

  const NO_READINGS := Readings(Unread, Unread, Unread, Unread, Unread, Unread, Unread)

  datatype Reader = Organization | Identity | Role | Membership | AppRegistered | AppAllowed | Permissions

  function NoRole(): Text { Units("NONE") }

  datatype Denial =
    | OrganizationNotFound | OrganizationSuspended | IdentityNotRegistered | IdentityRevoked
    | NotAMember | RoleExpired | AppAccessNotGranted | ApplicationNotRegistered

  /** `decideAccess`; None is allowed. A request that names no application has no app part. */
  function DecideAccess(organization: Option<bool>, identity: Standing, expired: bool, role: Text,
                        app: Option<(bool, bool)>): Option<Denial>
  {
    if organization.None? then Some(OrganizationNotFound)
    else if !identity.registered then Some(IdentityNotRegistered)
    else if !identity.active then Some(IdentityRevoked)
    else if !organization.value then Some(OrganizationSuspended)
    else if expired then Some(RoleExpired)
    else if role == [] || role == NoRole() then Some(NotAMember)
    else if app.Some? && !app.value.0 then Some(ApplicationNotRegistered)
    else if app.Some? && !app.value.1 then Some(AppAccessNotGranted)
    else None
  }

  /** The readers `Promise.all` waits for. */
  predicate FirstRound(r: Readings, slug: Text) {
    && r.organization.Got? && r.identity.Got? && r.role.Got? && r.expired.Got?
    && (slug != [] ==> r.registered.Got? && r.allowed.Got?)
  }

  /** Permissions are read afterwards, and only for somebody who holds a role. */
  predicate AllRead(r: Readings, slug: Text) {
    FirstRound(r, slug) && (r.role.value != NoRole() ==> r.permissions.Got?)
  }

  function Decision(r: Readings, slug: Text): Option<Denial>
    requires FirstRound(r, slug)
  {
    DecideAccess(r.organization.value, r.identity.value, r.expired.value, r.role.value,
                 if slug != [] then Some((r.registered.value, r.allowed.value)) else None)
  }

  function ReadOne(chain: Chain, at: nat, r: Readings, reader: Reader, orgId: int, wallet: Text, slug: Text): Readings {
    match reader
    case Organization => r.(organization := Got(chain.organization(orgId), at))
    case Identity => r.(identity := Got(chain.identity(wallet), at))
    case Role => r.(role := Got(chain.role(orgId, wallet), at))
    case Membership => r.(expired := Got(chain.expired(orgId, wallet), at))
    case AppRegistered => r.(registered := Got(chain.appRegistered(orgId, slug), at))
    case AppAllowed => r.(allowed := Got(chain.appAllowed(orgId, wallet, slug), at))
    case Permissions =>
      if FirstRound(r, slug) && r.role.value != NoRole() then
        r.(permissions := Got(chain.permissions(orgId, wallet), at))
      else r
  }

  datatype PartnerClaims = PartnerClaims(wallet: Text, orgId: int, role: Text, permissions: Permissions,
                                         identityActive: bool, verifiedAt: int)

  function BuildPartnerClaims(paid: Paid, r: Readings, now: int): PartnerClaims
    requires AllRead(r, paid.appSlug)
  {
    PartnerClaims(LowerAscii(paid.wallet), paid.orgId, r.role.value,
                  if r.role.value != NoRole() then r.permissions.value else map[], r.identity.value.active, now)
  }

  // ---- the requests ----

  datatype Form = Form(clientId: Text, orgId: int, redirectUri: Text, state: Text)

  predicate FormOk(f: Form) {
    8 <= |f.clientId| <= 128 && f.orgId > 0 && 8 <= |f.redirectUri| <= 2048 && 8 <= |f.state| <= 512
  }

  datatype Body = Body(clientId: Text, clientSecret: Text, code: Text, redirectUri: Text)

  predicate BodyOk(b: Body) {
    8 <= |b.clientId| <= 128 && 16 <= |b.clientSecret| <= 512 && 32 <= |b.code| <= 512 && 8 <= |b.redirectUri| <= 2048
  }

  /** An application and the registered callback, with when each table was read. */
  datatype Resolved = Resolved(app: App, appAt: nat, callbacksAt: nat, registered: Text)

  datatype Approval = Approval(form: Form, resolved: Resolved, wallet: Text, sessionAt: nat, readings: Readings,
                               decidedAt: nat, expiresAt: int, insertedAt: nat)

  datatype Claim = Claim(body: Body, resolved: Resolved, paid: Paid, consumedAt: nat, readings: Readings,
                         respondedAt: nat, claims: PartnerClaims)

  datatype Call =
    | ApproveStart(form: Form)
    | ApproveFound(form: Form, app: App, appAt: nat)
    | ApproveResolved(form: Form, resolved: Resolved)
    | ApproveReading(form: Form, resolved: Resolved, wallet: Text, sessionAt: nat, readings: Readings)
    | ApproveDecided(approval: Approval, code: Text)
    | ExchangeStart(body: Body)
    | ExchangeFound(body: Body, app: App, appAt: nat)
    | ExchangeResolved(body: Body, resolved: Resolved)
    | ExchangeReading(body: Body, resolved: Resolved, paid: Paid, consumedAt: nat, readings: Readings)
    | Ended

  /**
   `history` holds the world before each step. `approvals` (by code) and `consumers` (code to
   request) remember what was inserted and paid; `claims` holds every answer, by request.
   */
  datatype State = State(world: World, history: History, codes: Rows, approvals: map<Text, Approval>,
                         consumers: map<Text, nat>, calls: map<nat, Call>, claims: map<nat, Claim>)

  datatype Step =
    | Tick(later: int)
    | ChainChange(chain: Chain)
    | EditApps(apps: map<Text, App>)
    | EditCallbacks(callbacks: map<(int, Text), seq<Text>>)
    | Purge
    | BeginApprove(form: Form)
    | BeginExchange(body: Body)
    | ReadApp
    | ReadCallbacks
    | ReadSession(session: Option<Text>)
    | ReadChain(reader: Reader)
    | Decide(code: Text)
    | Insert
    | Consume
    | Respond
    | Fail(applied: bool)  // a reader or store that throws, perhaps after its write took effect

  /** A step of one request; the steps of the world name no request. */
  datatype Move = Move(call: nat, step: Step)

  predicate SecretOk(cfg: Config, b: Body, app: App) {
    Credentials.VerifyClientSecret(cfg.kdf, Some(b.clientSecret), app.secretHash)
  }

  function Accepts(cfg: Config, w: World, app: App, redirectUri: Text): Check {
    CheckCallback(Some(Subject(app.revoked, CallbackList(w, app))), Some(redirectUri), cfg.mode)
  }

  /** `findApplicationByClientId`, its first read. */
  function FindApp(w: World, clientId: Text): Option<App> {
    if Trim(clientId) != [] && Trim(clientId) in w.apps then Some(w.apps[Trim(clientId)]) else None
  }

  /** What a step that only reads makes of a request; n is the number of steps so far. */
  function Advance(cfg: Config, w: World, n: nat, c: Call, step: Step): Call {
    match (c, step)
    case (ApproveStart(form), ReadApp) =>
      (match FindApp(w, form.clientId) case None => Ended case Some(app) => ApproveFound(form, app, n))
    case (ApproveFound(form, app, appAt), ReadCallbacks) =>
      if app.orgId != form.orgId || app.revoked then Ended
      else
        (match Accepts(cfg, w, app, form.redirectUri)
         case Rejected(_) => Ended
         case Accepted(_, registered) => ApproveResolved(form, Resolved(app, appAt, n, registered)))
    case (ApproveResolved(form, resolved), ReadSession(session)) =>
      if session.None? || session.value == [] then Ended
      else ApproveReading(form, resolved, session.value, n, NO_READINGS)
    case (ApproveReading(form, resolved, wallet, sessionAt, readings), ReadChain(reader)) =>
      var more := ReadOne(w.chain, n, readings, reader, form.orgId, wallet, resolved.app.slug);
      ApproveReading(form, resolved, wallet, sessionAt, more)
    case (ApproveReading(form, resolved, wallet, sessionAt, readings), Decide(code)) =>
      if !AllRead(readings, resolved.app.slug) then c
      else if Decision(readings, resolved.app.slug).Some? then Ended
      else
        var expiresAt := w.now + AUTHORIZATION_CODE_TTL_MS;
        ApproveDecided(Approval(form, resolved, wallet, sessionAt, readings, n, expiresAt, n + 1), code)
    case (ExchangeStart(body), ReadApp) =>
      (match FindApp(w, body.clientId) case None => Ended case Some(app) => ExchangeFound(body, app, n))
    case (ExchangeFound(body, app, appAt), ReadCallbacks) =>
      if app.revoked || !SecretOk(cfg, body, app) then Ended
      else
        (match Accepts(cfg, w, app, body.redirectUri)
         case Rejected(_) => Ended
         case Accepted(_, registered) => ExchangeResolved(body, Resolved(app, appAt, n, registered)))
    case (ExchangeReading(body, resolved, paid, consumedAt, readings), ReadChain(reader)) =>
      var readings' := ReadOne(w.chain, n, readings, reader, paid.orgId, paid.wallet, paid.appSlug);
      ExchangeReading(body, resolved, paid, consumedAt, readings')
    case _ => c
  }

  function GrantOf(a: Approval, code: Text): Grant {
    Grant(code, a.form.clientId, a.resolved.app.slug, a.form.orgId, a.wallet, a.resolved.registered, a.expiresAt)
  }

  function QueryOf(w: World, b: Body, resolved: Resolved): Query {
    Query(b.code, b.clientId, resolved.registered, w.now)
  }

  /** Generated codes are fresh: one that was ever inserted is not inserted again. */
  function InsertCode(s: State, id: nat): State
    requires id in s.calls && s.calls[id].ApproveDecided?
  {
    var a, code := s.calls[id].approval.(insertedAt := |s.history|), s.calls[id].code;
    if code in s.approvals then SetCall(s, id, Ended)
    else
      match InsertInto(s.codes, GrantOf(a, code))
      case None => SetCall(s, id, Ended)
      case Some(codes) => SetCall(s, id, Ended).(codes := codes, approvals := s.approvals[code := a])
  }

  function ConsumeCode(s: State, id: nat, answered: bool): State
    requires id in s.calls && s.calls[id].ExchangeResolved?
  {
    var body, resolved := s.calls[id].body, s.calls[id].resolved;
    match ConsumeFrom(s.codes, QueryOf(s.world, body, resolved))
    case (_, None) => SetCall(s, id, Ended)
    case (codes, Some(paid)) =>
      var next :=
        if !answered || paid.orgId != resolved.app.orgId || paid.appSlug != resolved.app.slug then Ended
        else ExchangeReading(body, resolved, paid, |s.history|, NO_READINGS);
      SetCall(s, id, next).(codes := codes, consumers := s.consumers[body.code := id])
  }

  function GiveClaims(s: State, id: nat): State
    requires id in s.calls && s.calls[id].ExchangeReading?
  {
    var c := s.calls[id];
    if !AllRead(c.readings, c.paid.appSlug) then s
    else if Decision(c.readings, c.paid.appSlug).Some? then SetCall(s, id, Ended)
    else
      SetCall(s, id, Ended).(claims := s.claims[id := Claim(c.body, c.resolved, c.paid, c.consumedAt, c.readings,
        |s.history|, BuildPartnerClaims(c.paid, c.readings, s.world.now))])
  }

  function SetCall(s: State, id: nat, c: Call): State { s.(calls := s.calls[id := c]) }

  /** An error ends the request; a write that raised it may still have happened. */
  function Abort(s: State, id: nat, applied: bool): State
    requires id in s.calls
  {
    if applied && s.calls[id].ApproveDecided? then InsertCode(s, id)
    else if applied && s.calls[id].ExchangeResolved? then ConsumeCode(s, id, false)
    else SetCall(s, id, Ended)
  }

  function Effect(cfg: Config, s: State, m: Move): State {
    var id := m.call;
    match m.step
    case Tick(later) => if later < s.world.now then s else s.(world := s.world.(now := later))
    case ChainChange(chain) => s.(world := s.world.(chain := chain))
    case EditApps(apps) => s.(world := s.world.(apps := apps))
    case EditCallbacks(callbacks) => s.(world := s.world.(callbacks := callbacks))
    case Purge =>
      s.(codes := map c | c in s.codes && s.codes[c].grant.expiresAt >= s.world.now - 3_600_000 :: s.codes[c])
    case BeginApprove(form) => if id in s.calls || !FormOk(form) then s else SetCall(s, id, ApproveStart(form))
    case BeginExchange(body) => if id in s.calls || !BodyOk(body) then s else SetCall(s, id, ExchangeStart(body))
    case Insert => if id in s.calls && s.calls[id].ApproveDecided? then InsertCode(s, id) else s
    case Consume => if id in s.calls && s.calls[id].ExchangeResolved? then ConsumeCode(s, id, true) else s
    case Respond => if id in s.calls && s.calls[id].ExchangeReading? then GiveClaims(s, id) else s
    case Fail(applied) => if id in s.calls then Abort(s, id, applied) else s
    case _ => if id in s.calls then SetCall(s, id, Advance(cfg, s.world, |s.history|, s.calls[id], m.step)) else s
  }

  function Apply(cfg: Config, s: State, m: Move): State {
    Effect(cfg, s, m).(history := s.history + [s.world])
  }

  function Initial(w: World): State { State(w, [], map[], map[], map[], map[], map[]) }

  /** Any number of requests, in any interleaving. */
  function Run(cfg: Config, w: World, moves: seq<Move>): State {
    if moves == [] then Initial(w)
    else Apply(cfg, Run(cfg, w, moves[..|moves| - 1]), moves[|moves| - 1])
  }
}
