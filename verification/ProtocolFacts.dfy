/**
 What every run of the protocol keeps: claims always trace back to one approval by a session
 of the same wallet, and to live reads made after the code was consumed.
 */
module ProtocolFacts {
  import opened Texts
  import opened Callbacks
  import opened CodeStore
  import opened Protocol
  import opened ProtocolClient
  import opened ProtocolTrace

  // ---- what the recorded times say about the history ----

  /** One after the other, the tables held a live application and a registered callback the redirect spells. */
  ghost predicate ResolvedIn(cfg: Config, h: History, clientId: Text, redirectUri: Text, r: Resolved) {
    && r.appAt < r.callbacksAt < |h|
    && ClientAt(h[r.appAt], clientId, r.app)
    && CallbackAt(cfg, h[r.callbacksAt], r.app, redirectUri, r.registered)
  }

  predicate Within(at: nat, from: nat, h: History) { from < at < |h| }

  /** Every reading made so far came from the chain as it was after `from`. */
  predicate ReadFrom(h: History, from: nat, r: Readings, orgId: int, wallet: Text, slug: Text) {
    && (r.organization.Got? ==>
          Within(r.organization.at, from, h) && r.organization.value == h[r.organization.at].chain.organization(orgId))
    && (r.identity.Got? ==>
          Within(r.identity.at, from, h) && r.identity.value == h[r.identity.at].chain.identity(wallet))
    && (r.role.Got? ==>
          Within(r.role.at, from, h) && r.role.value == h[r.role.at].chain.role(orgId, wallet))
    && (r.expired.Got? ==>
          Within(r.expired.at, from, h) && r.expired.value == h[r.expired.at].chain.expired(orgId, wallet))
    && (r.registered.Got? ==>
          Within(r.registered.at, from, h) && r.registered.value == h[r.registered.at].chain.appRegistered(orgId, slug))
    && (r.allowed.Got? ==>
          Within(r.allowed.at, from, h) && r.allowed.value == h[r.allowed.at].chain.appAllowed(orgId, wallet, slug))
    && (r.permissions.Got? ==>
          Within(r.permissions.at, from, h)
            && r.permissions.value == h[r.permissions.at].chain.permissions(orgId, wallet))
  }

  /** Access was allowed by readings all made after `from`. */
  predicate AccessAllowed(h: History, from: nat, r: Readings, orgId: int, wallet: Text, slug: Text) {
    ReadFrom(h, from, r, orgId, wallet, slug) && AllRead(r, slug) && Decision(r, slug).None?
  }

  ghost predicate ApprovalJustified(cfg: Config, h: History, a: Approval) {
    && FormFits(a.form) && ResolvedIn(cfg, h, a.form.clientId, a.form.redirectUri, a.resolved)
    && a.resolved.app.orgId == a.form.orgId && a.wallet != []
    && a.resolved.callbacksAt < a.sessionAt < a.decidedAt < |h|
    && AccessAllowed(h[..a.decidedAt], a.sessionAt, a.readings, a.form.orgId, a.wallet, a.resolved.app.slug)
    && a.expiresAt == h[a.decidedAt].now + 120_000
  }

  /** The payout is that of the approval that inserted the code, consumed in time by its client. */
  predicate PaidFrom(h: History, approvals: map<Text, Approval>, b: Body, r: Resolved, paid: Paid, at: nat) {
    && b.code in approvals
    && var a := approvals[b.code];
    && a.decidedAt < a.insertedAt < at < |h|
    && a.form.clientId == b.clientId && a.resolved.registered == r.registered
    && a.form.orgId == r.app.orgId && a.resolved.app.slug == r.app.slug
    && paid == Paid(r.app.slug, r.app.orgId, LowerAscii(a.wallet), r.registered)
    && h[at].now < a.expiresAt
  }

  ghost predicate ExchangeJustified(cfg: Config, h: History, approvals: map<Text, Approval>, b: Body, r: Resolved,
                                    paid: Paid, at: nat) {
    && BodyFits(b) && ResolvedIn(cfg, h, b.clientId, b.redirectUri, r) && SecretMatches(cfg, b, r.app)
    && r.callbacksAt < at && PaidFrom(h, approvals, b, r, paid, at)
  }

  ghost predicate ClaimJustified(cfg: Config, h: History, approvals: map<Text, Approval>, c: Claim) {
    && ExchangeJustified(cfg, h, approvals, c.body, c.resolved, c.paid, c.consumedAt)
    && c.respondedAt < |h|
    && AccessAllowed(h[..c.respondedAt], c.consumedAt, c.readings, c.paid.orgId, c.paid.wallet, c.paid.appSlug)
    && c.claims == BuildPartnerClaims(c.paid, c.readings, h[c.respondedAt].now)
  }

  // ---- the invariant ----

  predicate Spent(s: State, code: Text) { code !in s.codes || s.codes[code].usedAt.Some? }

  predicate CodeKnown(s: State, code: Text) {
    code in s.codes ==>
      code in s.approvals && s.codes[code].grant == NewRow(GrantOf(s.approvals[code], code)).grant
  }

  ghost predicate ApprovalKnown(cfg: Config, s: State, code: Text) {
    code in s.approvals ==>
      && ApprovalJustified(cfg, s.history, s.approvals[code])
      && s.approvals[code].decidedAt < s.approvals[code].insertedAt < |s.history|
  }

  predicate ConsumerKnown(s: State, code: Text) {
    code in s.consumers ==> Spent(s, code) && code in s.approvals
  }

  ghost predicate CallJustified(cfg: Config, h: History, approvals: map<Text, Approval>, c: Call) {
    match c
    case ApproveStart(form) => FormFits(form)
    case ApproveFound(form, app, appAt) => FormFits(form) && appAt < |h| && AppRow(h[appAt], form.clientId, app)
    case ApproveResolved(form, r) =>
      FormFits(form) && ResolvedIn(cfg, h, form.clientId, form.redirectUri, r) && r.app.orgId == form.orgId
    case ApproveReading(form, r, wallet, sessionAt, readings) =>
      && FormFits(form) && ResolvedIn(cfg, h, form.clientId, form.redirectUri, r) && r.app.orgId == form.orgId
      && r.callbacksAt < sessionAt < |h| && wallet != []
      && ReadFrom(h, sessionAt, readings, form.orgId, wallet, r.app.slug)
    case ApproveDecided(a, _) => ApprovalJustified(cfg, h, a)
    case ExchangeStart(body) => BodyFits(body)
    case ExchangeFound(body, app, appAt) => BodyFits(body) && appAt < |h| && AppRow(h[appAt], body.clientId, app)
    case ExchangeResolved(body, r) =>
      BodyFits(body) && ResolvedIn(cfg, h, body.clientId, body.redirectUri, r) && SecretMatches(cfg, body, r.app)
    case ExchangeReading(body, r, paid, at, readings) =>
      && ExchangeJustified(cfg, h, approvals, body, r, paid, at)
      && ReadFrom(h, at, readings, paid.orgId, paid.wallet, paid.appSlug)
    case Ended => true
  }

  ghost predicate CallKnown(cfg: Config, s: State, id: nat) {
    id in s.calls ==>
      && CallJustified(cfg, s.history, s.approvals, s.calls[id])
      && (s.calls[id].ExchangeReading? ==> Consumer(s, s.calls[id].body.code, id))
  }

  predicate Consumer(s: State, code: Text, id: nat) { code in s.consumers && s.consumers[code] == id }

  ghost predicate ClaimKnown(cfg: Config, s: State, id: nat) {
    id in s.claims ==>
      && ClaimJustified(cfg, s.history, s.approvals, s.claims[id])
      && Consumer(s, s.claims[id].body.code, id)
      && id in s.calls && s.calls[id].Ended?
  }

  ghost predicate CodesKnown(s: State) { forall c :: CodeKnown(s, c) && ConsumerKnown(s, c) }

  ghost predicate ApprovalsKnown(cfg: Config, s: State) { forall c :: ApprovalKnown(cfg, s, c) }

  ghost predicate CallsKnown(cfg: Config, s: State) { forall id: nat :: CallKnown(cfg, s, id) }

  ghost predicate ClaimsKnown(cfg: Config, s: State) { forall id: nat :: ClaimKnown(cfg, s, id) }

  ghost predicate Inv(cfg: Config, s: State) {
    CodesKnown(s) && ApprovalsKnown(cfg, s) && CallsKnown(cfg, s) && ClaimsKnown(cfg, s)
  }

  // ---- a longer history justifies the same ----

  lemma ResolvedGrows(cfg: Config, h: History, w: World, clientId: Text, redirectUri: Text, r: Resolved)
    requires ResolvedIn(cfg, h, clientId, redirectUri, r)
    ensures ResolvedIn(cfg, h + [w], clientId, redirectUri, r)
  {
    hide ClientAt, CallbackAt;
  }

  lemma ReadGrows(h: History, w: World, from: nat, r: Readings, orgId: int, wallet: Text, slug: Text)
    requires ReadFrom(h, from, r, orgId, wallet, slug)
    ensures ReadFrom(h + [w], from, r, orgId, wallet, slug)
  {
  }

  lemma ApprovalGrows(cfg: Config, h: History, w: World, a: Approval)
    requires ApprovalJustified(cfg, h, a)
    ensures ApprovalJustified(cfg, h + [w], a)
  {
    hide ResolvedIn, AccessAllowed;
    ResolvedGrows(cfg, h, w, a.form.clientId, a.form.redirectUri, a.resolved);
    assert (h + [w])[..a.decidedAt] == h[..a.decidedAt];
  }

  ghost predicate Extends(approvals: map<Text, Approval>, approvals': map<Text, Approval>) {
    forall c | c in approvals :: c in approvals' && approvals'[c] == approvals[c]
  }

  lemma ExchangeGrows(cfg: Config, h: History, w: World, approvals: map<Text, Approval>,
                      approvals': map<Text, Approval>, b: Body, r: Resolved, paid: Paid, at: nat)
    requires ExchangeJustified(cfg, h, approvals, b, r, paid, at) && Extends(approvals, approvals')
    ensures ExchangeJustified(cfg, h + [w], approvals', b, r, paid, at)
  {
    hide ResolvedIn, SecretMatches;
    ResolvedGrows(cfg, h, w, b.clientId, b.redirectUri, r);
  }

  lemma ClaimGrows(cfg: Config, h: History, w: World, approvals: map<Text, Approval>,
                   approvals': map<Text, Approval>, c: Claim)
    requires ClaimJustified(cfg, h, approvals, c) && Extends(approvals, approvals')
    ensures ClaimJustified(cfg, h + [w], approvals', c)
  {
    hide ExchangeJustified, AccessAllowed, BuildPartnerClaims, AllRead;
    ExchangeGrows(cfg, h, w, approvals, approvals', c.body, c.resolved, c.paid, c.consumedAt);
    assert (h + [w])[..c.respondedAt] == h[..c.respondedAt];
    AllowedReads(h[..c.respondedAt], c.consumedAt, c.readings, c.paid.orgId, c.paid.wallet, c.paid.appSlug);
  }

  lemma AllowedReads(h: History, from: nat, r: Readings, orgId: int, wallet: Text, slug: Text)
    requires AccessAllowed(h, from, r, orgId, wallet, slug)
    ensures AllRead(r, slug)
  {
  }

  lemma CallGrows(cfg: Config, h: History, w: World, approvals: map<Text, Approval>, approvals': map<Text, Approval>,
                  c: Call)
    requires CallJustified(cfg, h, approvals, c) && Extends(approvals, approvals')
    ensures CallJustified(cfg, h + [w], approvals', c)
  {
    hide ResolvedIn, ReadFrom, ExchangeJustified, ApprovalJustified, SecretMatches, FindApp, AppRow, FormFits, BodyFits;
    match c
    case ApproveResolved(form, r) => ResolvedGrows(cfg, h, w, form.clientId, form.redirectUri, r);
    case ApproveReading(form, r, wallet, sessionAt, readings) =>
      ResolvedGrows(cfg, h, w, form.clientId, form.redirectUri, r);
      ReadGrows(h, w, sessionAt, readings, form.orgId, wallet, r.app.slug);
    case ApproveDecided(a, _) => ApprovalGrows(cfg, h, w, a);
    case ExchangeResolved(body, r) => ResolvedGrows(cfg, h, w, body.clientId, body.redirectUri, r);
    case ExchangeReading(body, r, paid, at, readings) =>
      ExchangeGrows(cfg, h, w, approvals, approvals', body, r, paid, at);
      ReadGrows(h, w, at, readings, paid.orgId, paid.wallet, paid.appSlug);
    case _ =>
  }

  // ---- a request that reads ----

  lemma ReadOneKnown(h: History, w: World, from: nat, r: Readings, reader: Reader, orgId: int, wallet: Text, slug: Text)
    requires from < |h| && ReadFrom(h + [w], from, r, orgId, wallet, slug)
    ensures ReadFrom(h + [w], from, ReadOne(w.chain, |h|, r, reader, orgId, wallet, slug), orgId, wallet, slug)
  {
    hide FirstRound;
  }

  lemma DecidedJustified(cfg: Config, h: History, w: World, form: Form, r: Resolved, wallet: Text, sessionAt: nat,
                         readings: Readings)
    requires FormFits(form) && ResolvedIn(cfg, h, form.clientId, form.redirectUri, r) && r.app.orgId == form.orgId
    requires r.callbacksAt < sessionAt < |h| && wallet != []
    requires ReadFrom(h, sessionAt, readings, form.orgId, wallet, r.app.slug)
    requires AllRead(readings, r.app.slug) && Decision(readings, r.app.slug).None?
    ensures ApprovalJustified(cfg, h + [w],
      Approval(form, r, wallet, sessionAt, readings, |h|, w.now + 120_000, |h| + 1))
  {
    hide ResolvedIn, ReadFrom, AllRead, Decision;
    ResolvedGrows(cfg, h, w, form.clientId, form.redirectUri, r);
    assert (h + [w])[..|h|] == h;
  }

  lemma ResolvesNow(cfg: Config, h: History, w: World, clientId: Text, redirectUri: Text, app: App, appAt: nat)
    requires appAt < |h| && AppRow(h[appAt], clientId, app) && !app.revoked
    requires Accepts(cfg, w, app, redirectUri).Accepted?
    ensures ResolvedIn(cfg, h + [w], clientId, redirectUri,
      Resolved(app, appAt, |h|, Accepts(cfg, w, app, redirectUri).registered))
  {
    hide AppRow, CallbackAt, Accepts;
    AcceptedAt(cfg, w, app, redirectUri);
  }

  lemma AdvanceJustified(cfg: Config, h: History, w: World, approvals: map<Text, Approval>, c: Call, step: Step)
    requires CallJustified(cfg, h, approvals, c)
    ensures CallJustified(cfg, h + [w], approvals, Advance(cfg, w, |h|, c, step))
    ensures Advance(cfg, w, |h|, c, step).ExchangeReading? ==>
      c.ExchangeReading? && Advance(cfg, w, |h|, c, step).body == c.body
  {
    hide ResolvedIn, ReadFrom, ExchangeJustified, ApprovalJustified, SecretMatches, FindApp, AppRow, FormFits, BodyFits;
    hide SecretOk, Accepts, ReadOne, FirstRound, Decision;
    CallGrows(cfg, h, w, approvals, approvals, c);
    match (c, step)
    case (ApproveStart(form), ReadApp) => FoundExactly(w, form.clientId);
    case (ExchangeStart(body), ReadApp) => FoundExactly(w, body.clientId);
    case (ApproveFound(form, app, appAt), ReadCallbacks) =>
      if !app.revoked && Accepts(cfg, w, app, form.redirectUri).Accepted? {
        ResolvesNow(cfg, h, w, form.clientId, form.redirectUri, app, appAt);
      }
    case (ApproveResolved(form, r), ReadSession(session)) =>
      ResolvedBefore(cfg, h, form.clientId, form.redirectUri, r);
      if session.Some? { NothingRead(h + [w], |h|, form.orgId, session.value, r.app.slug); }
    case (ApproveReading(form, r, wallet, sessionAt, readings), ReadChain(reader)) =>
      ReadOneKnown(h, w, sessionAt, readings, reader, form.orgId, wallet, r.app.slug);
    case (ApproveReading(form, r, wallet, sessionAt, readings), Decide(code)) =>
      if AllRead(readings, r.app.slug) && Decision(readings, r.app.slug).None? {
        DecidedJustified(cfg, h, w, form, r, wallet, sessionAt, readings);
      }
    case (ExchangeFound(body, app, appAt), ReadCallbacks) =>
      if !app.revoked && Accepts(cfg, w, app, body.redirectUri).Accepted? {
        ResolvesNow(cfg, h, w, body.clientId, body.redirectUri, app, appAt);
        SecretExactly(cfg, body, app);
      }
    case (ExchangeReading(body, r, paid, at, readings), ReadChain(reader)) =>
      PaidBefore(cfg, h, approvals, body, r, paid, at);
      ReadOneKnown(h, w, at, readings, reader, paid.orgId, paid.wallet, paid.appSlug);
    case _ =>
  }

  lemma ResolvedBefore(cfg: Config, h: History, clientId: Text, redirectUri: Text, r: Resolved)
    requires ResolvedIn(cfg, h, clientId, redirectUri, r)
    ensures r.callbacksAt < |h|
  {
  }

  lemma PaidBefore(cfg: Config, h: History, approvals: map<Text, Approval>, b: Body, r: Resolved, paid: Paid, at: nat)
    requires ExchangeJustified(cfg, h, approvals, b, r, paid, at)
    ensures at < |h|
  {
  }

  lemma NothingRead(h: History, from: nat, orgId: int, wallet: Text, slug: Text)
    ensures ReadFrom(h, from, NO_READINGS, orgId, wallet, slug)
  {
  }

  // ---- the three steps that write ----

  lemma ConsumePays(cfg: Config, s: State, id: nat)
    requires Inv(cfg, s) && id in s.calls && s.calls[id].ExchangeResolved?
    requires ConsumeFrom(s.codes, QueryOf(s.world, s.calls[id].body, s.calls[id].resolved)).1.Some?
    ensures var b, r := s.calls[id].body, s.calls[id].resolved;
      var paid := ConsumeFrom(s.codes, QueryOf(s.world, b, r)).1.value;
      && b.code in s.approvals && b.code !in s.consumers
      && (paid.orgId == r.app.orgId && paid.appSlug == r.app.slug ==>
            ExchangeJustified(cfg, s.history + [s.world], s.approvals, b, r, paid, |s.history|))
  {
    hide ClientAt, CallbackAt, SecretMatches, LowerAscii, ApprovalJustified, BodyFits;
    var b, r := s.calls[id].body, s.calls[id].resolved;
    assert CallKnown(cfg, s, id) && CodeKnown(s, b.code) && ConsumerKnown(s, b.code) && ApprovalKnown(cfg, s, b.code);
    ResolvedGrows(cfg, s.history, s.world, b.clientId, b.redirectUri, r);
  }

  // ---- every step ----

  /** The next state knows all that was known: only additions to what is remembered. */
  ghost predicate Later(s: State, s': State) {
    && s'.history == s.history + [s.world]
    && Extends(s.approvals, s'.approvals)
    && (forall c | c in s.consumers :: Consumer(s', c, s.consumers[c]))
  }

  lemma OldCall(cfg: Config, s: State, s': State, id: nat)
    requires Later(s, s') && CallKnown(cfg, s, id)
    requires id in s'.calls ==> id in s.calls && s'.calls[id] == s.calls[id]
    ensures CallKnown(cfg, s', id)
  {
    hide CallJustified, Extends;
    if id in s'.calls { CallGrows(cfg, s.history, s.world, s.approvals, s'.approvals, s.calls[id]); }
  }

  lemma OldClaim(cfg: Config, s: State, s': State, id: nat)
    requires Later(s, s') && ClaimKnown(cfg, s, id)
    requires id in s'.claims ==> id in s.claims && s'.claims[id] == s.claims[id]
    requires id in s.calls && s.calls[id].Ended? ==> id in s'.calls && s'.calls[id].Ended?
    ensures ClaimKnown(cfg, s', id)
  {
    hide ClaimJustified, Extends;
    if id in s'.claims { ClaimGrows(cfg, s.history, s.world, s.approvals, s'.approvals, s.claims[id]); }
  }

  lemma OldApproval(cfg: Config, s: State, s': State, code: Text)
    requires Later(s, s') && ApprovalKnown(cfg, s, code)
    requires code in s'.approvals ==> code in s.approvals
    ensures ApprovalKnown(cfg, s', code)
  {
    hide ApprovalJustified;
    if code in s.approvals { ApprovalGrows(cfg, s.history, s.world, s.approvals[code]); }
  }

  lemma OldCode(s: State, s': State, code: Text)
    requires Later(s, s') && CodeKnown(s, code) && ConsumerKnown(s, code)
    requires code in s'.codes ==> code in s.codes && s'.codes[code] == s.codes[code]
    requires code in s'.consumers ==> code in s.consumers
    ensures CodeKnown(s', code) && ConsumerKnown(s', code)
  {
    hide GrantOf;
  }

  /** Only calls and codes of one request or of none are touched; the rest carries over. */
  lemma CallOnly(cfg: Config, s: State, s': State, id: nat)
    requires Inv(cfg, s) && Later(s, s')
    requires s'.approvals == s.approvals && s'.consumers == s.consumers && s'.claims == s.claims
    requires forall c | c in s'.codes :: c in s.codes && s'.codes[c] == s.codes[c]
    requires forall k: nat | k != id && k in s'.calls :: k in s.calls && s'.calls[k] == s.calls[k]
    requires forall k: nat | k in s.calls && s.calls[k].Ended? :: k in s'.calls && s'.calls[k].Ended?
    requires CallKnown(cfg, s', id)
    ensures Inv(cfg, s')
  {
    hide CallKnown, ClaimKnown, ApprovalKnown, CodeKnown, ConsumerKnown, Later;
    forall c ensures CodeKnown(s', c) && ConsumerKnown(s', c) { OldCode(s, s', c); }
    forall c ensures ApprovalKnown(cfg, s', c) { OldApproval(cfg, s, s', c); }
    forall k: nat ensures CallKnown(cfg, s', k) { if k != id { OldCall(cfg, s, s', k); } }
    forall k: nat ensures ClaimKnown(cfg, s', k) { OldClaim(cfg, s, s', k); }
  }

  lemma NothingJustified(cfg: Config, s: State)
    ensures CallJustified(cfg, s.history, s.approvals, Ended)
  {
  }

  /** A step that only ends a request. */
  lemma EndKeeps(cfg: Config, s: State, s': State, id: nat)
    requires Inv(cfg, s) && id in s.calls
    requires s' == SetCall(s, id, Ended).(history := s.history + [s.world])
    ensures Inv(cfg, s')
  {
    hide CallJustified, ClaimJustified, ApprovalJustified;
    NothingJustified(cfg, s');
    assert Later(s, s');
    CallOnly(cfg, s, s', id);
  }

  lemma InsertKeeps(cfg: Config, s: State, s': State, id: nat)
    requires Inv(cfg, s) && id in s.calls && s.calls[id].ApproveDecided?
    requires s' == InsertCode(s, id).(history := s.history + [s.world])
    ensures Inv(cfg, s')
  {
    hide CallJustified, ClaimJustified, ApprovalJustified, GrantOf, NewRow;
    var a, code := s.calls[id].approval.(insertedAt := |s.history|), s.calls[id].code;
    assert CodeKnown(s, code) && ConsumerKnown(s, code);
    InsertedRow(a, code);
    if code in s.approvals || code in s.codes {
      EndKeeps(cfg, s, s', id);
    } else {
      InsertedKeeps(cfg, s, s', id, a, code);
    }
  }

  lemma InsertedKeeps(cfg: Config, s: State, s': State, id: nat, a: Approval, code: Text)
    requires Inv(cfg, s) && id in s.calls && s.calls[id].ApproveDecided? && s.calls[id].code == code
    requires a == s.calls[id].approval.(insertedAt := |s.history|)
    requires code !in s.approvals && code !in s.codes && code !in s.consumers
    requires s' == SetCall(s, id, Ended).(codes := s.codes[code := NewRow(GrantOf(a, code))],
                                          approvals := s.approvals[code := a], history := s.history + [s.world])
    ensures Inv(cfg, s')
  {
    hide CallJustified, ClaimJustified, ApprovalJustified, GrantOf, NewRow;
    assert Later(s, s');
    forall c ensures CodeKnown(s', c) && ConsumerKnown(s', c) {
      if c != code { OldCode(s, s', c); } else { InsertedRow(a, code); }
    }
    forall c ensures ApprovalKnown(cfg, s', c) {
      if c != code {
        OldApproval(cfg, s, s', c);
      } else {
        assert CallKnown(cfg, s, id);
        DecidedIn(cfg, s.history, s.approvals, s.calls[id]);
        ApprovalGrows(cfg, s.history, s.world, s.calls[id].approval);
        SameApproval(cfg, s'.history, s.calls[id].approval, |s.history|);
      }
    }
    forall k: nat ensures CallKnown(cfg, s', k) {
      if k != id { OldCall(cfg, s, s', k); } else { NothingJustified(cfg, s'); }
    }
    forall k: nat ensures ClaimKnown(cfg, s', k) { OldClaim(cfg, s, s', k); }
  }

  lemma InsertedRow(a: Approval, code: Text)
    ensures NewRow(GrantOf(a, code)).usedAt.None? && GrantOf(a, code).code == code
  {
  }

  lemma DecidedIn(cfg: Config, h: History, approvals: map<Text, Approval>, c: Call)
    requires c.ApproveDecided? && CallJustified(cfg, h, approvals, c)
    ensures ApprovalJustified(cfg, h, c.approval) && c.approval.decidedAt < |h|
  {
  }

  lemma SameApproval(cfg: Config, h: History, a: Approval, at: nat)
    requires ApprovalJustified(cfg, h, a)
    ensures ApprovalJustified(cfg, h, a.(insertedAt := at))
  {
    hide ResolvedIn, AccessAllowed;
  }

  lemma ConsumeKeeps(cfg: Config, s: State, s': State, id: nat, answered: bool)
    requires Inv(cfg, s) && id in s.calls && s.calls[id].ExchangeResolved?
    requires s' == ConsumeCode(s, id, answered).(history := s.history + [s.world])
    ensures Inv(cfg, s')
  {
    hide CallJustified, ClaimJustified, ApprovalJustified, GrantOf, ExchangeJustified, QueryOf;
    var b, r := s.calls[id].body, s.calls[id].resolved;
    var (codes, paid) := ConsumeFrom(s.codes, QueryOf(s.world, b, r));
    if paid.None? {
      EndKeeps(cfg, s, s', id);
    } else {
      ConsumePays(cfg, s, id);
      QueryCode(s.world, b, r);
      assert Later(s, s');
      ConsumedKeeps(cfg, s, s', id, b.code, paid.value);
    }
  }

  lemma QueryCode(w: World, b: Body, r: Resolved)
    ensures QueryOf(w, b, r).code == b.code
  {
  }

  lemma ConsumedKeeps(cfg: Config, s: State, s': State, id: nat, code: Text, paid: Paid)
    requires Inv(cfg, s) && Later(s, s') && code in s.codes && code in s.approvals && id in s.calls
    requires s.calls[id].ExchangeResolved? && s.calls[id].body.code == code
    requires s'.approvals == s.approvals && s'.claims == s.claims && s'.consumers == s.consumers[code := id]
    requires exists t: int :: s'.codes == s.codes[code := s.codes[code].(usedAt := Some(t))]
    requires id in s'.calls && s'.calls == s.calls[id := s'.calls[id]]
    requires var b, r := s.calls[id].body, s.calls[id].resolved;
      || s'.calls[id].Ended?
      || (s'.calls[id] == ExchangeReading(b, r, paid, |s.history|, NO_READINGS)
          && ExchangeJustified(cfg, s'.history, s'.approvals, b, r, paid, |s.history|))
    ensures Inv(cfg, s')
  {
    hide CallJustified, ClaimJustified, ApprovalJustified, GrantOf, ExchangeJustified;
    forall c ensures CodeKnown(s', c) && ConsumerKnown(s', c) {
      if c != code { OldCode(s, s', c); } else { assert CodeKnown(s, c); }
    }
    forall c ensures ApprovalKnown(cfg, s', c) { OldApproval(cfg, s, s', c); }
    forall k: nat ensures CallKnown(cfg, s', k) {
      if k != id {
        OldCall(cfg, s, s', k);
      } else {
        NothingJustified(cfg, s');
        if !s'.calls[id].Ended? { StartsReading(cfg, s', s'.calls[id]); }
      }
    }
    forall k: nat ensures ClaimKnown(cfg, s', k) { OldClaim(cfg, s, s', k); }
  }

  lemma StartsReading(cfg: Config, s: State, c: Call)
    requires c.ExchangeReading? && c.readings == NO_READINGS
    requires ExchangeJustified(cfg, s.history, s.approvals, c.body, c.resolved, c.paid, c.consumedAt)
    ensures CallJustified(cfg, s.history, s.approvals, c)
  {
    hide ExchangeJustified;
  }

  lemma AnswerKeeps(cfg: Config, s: State, s': State, id: nat)
    requires Inv(cfg, s) && id in s.calls && s.calls[id].ExchangeReading?
    requires s' == GiveClaims(s, id).(history := s.history + [s.world])
    ensures Inv(cfg, s')
  {
    hide ClaimJustified, ApprovalJustified, CallJustified, FirstRound, Decision, BuildPartnerClaims;
    var c := s.calls[id];
    assert CallKnown(cfg, s, id);
    if !AllRead(c.readings, c.paid.appSlug) {
      CallGrows(cfg, s.history, s.world, s.approvals, s.approvals, c);
      assert Later(s, s');
      CallOnly(cfg, s, s', id);
    } else if Decision(c.readings, c.paid.appSlug).Some? {
      EndKeeps(cfg, s, s', id);
    } else {
      AnswerJustified(cfg, s.history, s.world, s.approvals, c);
      AnsweredKeeps(cfg, s, s', id, s'.claims[id]);
    }
  }

  lemma AnsweredKeeps(cfg: Config, s: State, s': State, id: nat, claim: Claim)
    requires Inv(cfg, s) && id in s.calls && s.calls[id].ExchangeReading? && claim.body == s.calls[id].body
    requires s' == SetCall(s, id, Ended).(claims := s.claims[id := claim], history := s.history + [s.world])
    requires ClaimJustified(cfg, s'.history, s'.approvals, claim)
    ensures Inv(cfg, s')
  {
    hide ClaimJustified, ApprovalJustified, CallJustified;
    NothingJustified(cfg, s');
    assert Later(s, s');
    assert CallKnown(cfg, s, id);
    forall k ensures CodeKnown(s', k) && ConsumerKnown(s', k) { OldCode(s, s', k); }
    forall k ensures ApprovalKnown(cfg, s', k) { OldApproval(cfg, s, s', k); }
    forall k: nat ensures CallKnown(cfg, s', k) { if k != id { OldCall(cfg, s, s', k); } }
    forall k: nat ensures ClaimKnown(cfg, s', k) { if k != id { OldClaim(cfg, s, s', k); } }
  }

  lemma AnswerJustified(cfg: Config, h: History, w: World, approvals: map<Text, Approval>, c: Call)
    requires c.ExchangeReading? && CallJustified(cfg, h, approvals, c)
    requires AllRead(c.readings, c.paid.appSlug) && Decision(c.readings, c.paid.appSlug).None?
    ensures ClaimJustified(cfg, h + [w], approvals,
      Claim(c.body, c.resolved, c.paid, c.consumedAt, c.readings, |h|, BuildPartnerClaims(c.paid, c.readings, w.now)))
  {
    hide ExchangeJustified, ReadFrom, BuildPartnerClaims, AllRead, Decision;
    ExchangeGrows(cfg, h, w, approvals, approvals, c.body, c.resolved, c.paid, c.consumedAt);
    assert (h + [w])[..|h|] == h;
  }

  lemma ReadsKeeps(cfg: Config, s: State, s': State, id: nat, step: Step)
    requires Inv(cfg, s) && id in s.calls
    requires s' ==
      SetCall(s, id, Advance(cfg, s.world, |s.history|, s.calls[id], step)).(history := s.history + [s.world])
    ensures Inv(cfg, s')
  {
    hide CallJustified, ClaimJustified, ApprovalJustified, Accepts, SecretMatches, ReadOne, AllRead, Decision, FindApp;
    assert CallKnown(cfg, s, id);
    AdvanceJustified(cfg, s.history, s.world, s.approvals, s.calls[id], step);
    assert Later(s, s');
    CallOnly(cfg, s, s', id);
  }

  /** The world changes or rows are purged; no request does anything. */
  lemma WorldKeeps(cfg: Config, s: State, s': State)
    requires Inv(cfg, s)
    requires s' == s.(world := s'.world, codes := s'.codes, history := s.history + [s.world])
    requires forall c | c in s'.codes :: c in s.codes && s'.codes[c] == s.codes[c]
    ensures Inv(cfg, s')
  {
    hide CallJustified, ClaimJustified, ApprovalJustified;
    assert Later(s, s');
    assert CallKnown(cfg, s, 0);
    OldCall(cfg, s, s', 0);
    CallOnly(cfg, s, s', 0);
  }

  /** A request that has just begun, and fits its schema. */
  predicate Fits(c: Call) {
    match c
    case ApproveStart(form) => FormFits(form)
    case ExchangeStart(body) => BodyFits(body)
    case _ => false
  }

  lemma BeginKeeps(cfg: Config, s: State, s': State, id: nat, c: Call)
    requires Inv(cfg, s) && id !in s.calls && Fits(c)
    requires s' == SetCall(s, id, c).(history := s.history + [s.world])
    ensures Inv(cfg, s')
  {
    hide CallJustified, ClaimJustified, ApprovalJustified, FormFits, BodyFits;
    BeginJustified(cfg, s'.history, s'.approvals, c);
    assert Later(s, s');
    CallOnly(cfg, s, s', id);
  }

  lemma BeginJustified(cfg: Config, h: History, approvals: map<Text, Approval>, c: Call)
    requires Fits(c)
    ensures CallJustified(cfg, h, approvals, c)
  {
  }

  predicate OfWorld(step: Step) {
    step.Tick? || step.ChainChange? || step.EditApps? || step.EditCallbacks? || step.Purge?
  }

  lemma WriteStepKeeps(cfg: Config, s: State, m: Move)
    requires Inv(cfg, s) && Writes(m.step) && !m.step.Fail?
    ensures Inv(cfg, Apply(cfg, s, m))
  {
    hide Inv, InsertCode, ConsumeCode, GiveClaims, Advance, Abort, SetCall;
    var s', id := Apply(cfg, s, m), m.call;
    if m.step.Insert? && id in s.calls && s.calls[id].ApproveDecided? {
      InsertKeeps(cfg, s, s', id);
    } else if m.step.Consume? && id in s.calls && s.calls[id].ExchangeResolved? {
      ConsumeKeeps(cfg, s, s', id, true);
    } else if m.step.Respond? && id in s.calls && s.calls[id].ExchangeReading? {
      AnswerKeeps(cfg, s, s', id);
    } else {
      WorldKeeps(cfg, s, s');
    }
  }

  lemma FailStepKeeps(cfg: Config, s: State, id: nat, applied: bool)
    requires Inv(cfg, s)
    ensures Inv(cfg, Apply(cfg, s, Move(id, Fail(applied))))
  {
    hide Inv, InsertCode, ConsumeCode, GiveClaims, Advance, SetCall;
    var s' := Apply(cfg, s, Move(id, Fail(applied)));
    if id !in s.calls {
      WorldKeeps(cfg, s, s');
    } else if applied && s.calls[id].ApproveDecided? {
      InsertKeeps(cfg, s, s', id);
    } else if applied && s.calls[id].ExchangeResolved? {
      ConsumeKeeps(cfg, s, s', id, false);
    } else {
      EndKeeps(cfg, s, s', id);
    }
  }

  lemma BeginFits(cfg: Config, s: State, m: Move)
    requires Begins(m.step) && Effect(cfg, s, m) != s
    ensures m.call in Effect(cfg, s, m).calls && Fits(Effect(cfg, s, m).calls[m.call])
  {
    hide InsertCode, ConsumeCode, GiveClaims, Advance, Abort;
  }

  lemma BeginStepKeeps(cfg: Config, s: State, m: Move)
    requires Inv(cfg, s) && Begins(m.step)
    ensures Inv(cfg, Apply(cfg, s, m))
  {
    hide Inv, FormOk, BodyOk, InsertCode, ConsumeCode, GiveClaims, Advance, Abort;
    var s' := Apply(cfg, s, m);
    if s' == s.(history := s.history + [s.world]) {
      WorldKeeps(cfg, s, s');
    } else {
      BeginFits(cfg, s, m);
      BeginKeeps(cfg, s, s', m.call, s'.calls[m.call]);
    }
  }

  lemma StepKeeps(cfg: Config, s: State, m: Move)
    requires Inv(cfg, s)
    ensures Inv(cfg, Apply(cfg, s, m))
  {
    hide Inv, Advance, InsertCode, ConsumeCode, GiveClaims, Abort, SetCall;
    if m.step.Fail? {
      FailStepKeeps(cfg, s, m.call, m.step.applied);
    } else if Writes(m.step) {
      WriteStepKeeps(cfg, s, m);
    } else if Begins(m.step) {
      BeginStepKeeps(cfg, s, m);
    } else if OfWorld(m.step) || m.call !in s.calls {
      WorldKeeps(cfg, s, Apply(cfg, s, m));
    } else {
      ReadsKeeps(cfg, s, Apply(cfg, s, m), m.call, m.step);
    }
  }

  lemma {:induction false} Invariant(cfg: Config, w: World, moves: seq<Move>)
    ensures Inv(cfg, Run(cfg, w, moves))
  {
    hide Apply;
    if moves == [] {
      hide CallJustified, ClaimJustified, ApprovalJustified;
      var s := Initial(w);
      assert forall c :: CodeKnown(s, c) && ConsumerKnown(s, c);
      assert forall c :: ApprovalKnown(cfg, s, c);
    } else {
      hide Inv;
      Invariant(cfg, w, moves[..|moves| - 1]);
      StepKeeps(cfg, Run(cfg, w, moves[..|moves| - 1]), moves[|moves| - 1]);
    }
  }

  // ---- what every run keeps ----

  /** The history really is the worlds the run went through. */
  lemma {:induction false} HistoryIsRun(cfg: Config, w: World, moves: seq<Move>, k: nat)
    requires k < |moves|
    ensures |Run(cfg, w, moves).history| == |moves|
    ensures Run(cfg, w, moves).history[k] == Run(cfg, w, moves[..k]).world
  {
    hide Apply;
    var before := moves[..|moves| - 1];
    AppendsWorld(cfg, Run(cfg, w, before), moves[|moves| - 1]);
    if before == [] {
    } else if k < |before| {
      HistoryIsRun(cfg, w, before, k);
      assert before[..k] == moves[..k];
    } else {
      HistoryIsRun(cfg, w, before, 0);
    }
  }

  lemma AppendsWorld(cfg: Config, s: State, m: Move)
    ensures Apply(cfg, s, m).history == s.history + [s.world]
  {
    hide Effect;
  }

  lemma LowerTwice(t: Text)
    ensures LowerAscii(LowerAscii(t)) == LowerAscii(t)
  {
  }

  /** The decision allows exactly a fully active, unexpired member whose role has the application. */
  lemma DecisionExactly(r: Readings, slug: Text)
    requires FirstRound(r, slug)
    ensures Decision(r, slug).None? <==>
      && r.organization.value == Some(true) && r.identity.value == Standing(true, true)
      && !r.expired.value && HoldsRole(r.role.value)
      && (slug != [] ==> r.registered.value && r.allowed.value)
  {
    RoleExactly(r.role.value);
    hide NoRole, HoldsRole;
  }

  predicate Between(from: nat, at: nat, to: nat, h: History) { from < at < to <= |h| }

  /** Each part of the decision held of the chain at its own moment after `from`. */
  predicate HeldBetween(h: History, from: nat, to: nat, r: Readings, orgId: int, wallet: Text, slug: Text) {
    && r.organization.Got? && Between(from, r.organization.at, to, h)
    && h[r.organization.at].chain.organization(orgId) == Some(true)
    && r.identity.Got? && Between(from, r.identity.at, to, h)
    && h[r.identity.at].chain.identity(wallet) == Standing(true, true)
    && r.expired.Got? && Between(from, r.expired.at, to, h) && !h[r.expired.at].chain.expired(orgId, wallet)
    && r.role.Got? && Between(from, r.role.at, to, h)
    && HoldsRole(h[r.role.at].chain.role(orgId, wallet))
    && (slug != [] ==>
          && r.registered.Got? && Between(from, r.registered.at, to, h)
          && h[r.registered.at].chain.appRegistered(orgId, slug)
          && r.allowed.Got? && Between(from, r.allowed.at, to, h)
          && h[r.allowed.at].chain.appAllowed(orgId, wallet, slug))
  }

  lemma AllowedHeld(h: History, to: nat, from: nat, r: Readings, orgId: int, wallet: Text, slug: Text)
    requires to <= |h| && AccessAllowed(h[..to], from, r, orgId, wallet, slug)
    ensures HeldBetween(h, from, to, r, orgId, wallet, slug)
  {
    DecisionExactly(r, slug);
    hide Decision, NoRole, HoldsRole;
  }

  // ---- the theorems ----

  /** What a claim owes to the approval of its code. */
  ghost predicate OwedTo(cfg: Config, h: History, a: Approval, c: Claim) {
    && a.decidedAt < a.insertedAt < c.consumedAt < c.respondedAt < |h|
    && a.form.clientId == c.body.clientId && a.form.orgId == c.claims.orgId
    && LowerAscii(a.wallet) == c.claims.wallet && a.wallet != []
    && a.resolved.registered == c.resolved.registered
    && ResolvedIn(cfg, h, a.form.clientId, a.form.redirectUri, a.resolved) && a.resolved.app.orgId == a.form.orgId
    && HeldBetween(h, a.sessionAt, a.decidedAt, a.readings, a.form.orgId, a.wallet, a.resolved.app.slug)
    && h[c.consumedAt].now < h[a.decidedAt].now + 120_000
    && FormFits(a.form) && BodyFits(c.body)
  }

  lemma {:induction false} ClaimOwed(cfg: Config, w: World, moves: seq<Move>, id: nat)
    requires id in Run(cfg, w, moves).claims
    ensures var s := Run(cfg, w, moves);
      var c := s.claims[id];
      c.body.code in s.approvals && OwedTo(cfg, s.history, s.approvals[c.body.code], c)
  {
    hide ResolvedIn, AccessAllowed, SecretMatches, BuildPartnerClaims, Run, LowerAscii, HeldBetween;
    var s := Run(cfg, w, moves);
    Invariant(cfg, w, moves);
    assert ClaimKnown(cfg, s, id);
    var c := s.claims[id];
    assert ApprovalKnown(cfg, s, c.body.code);
    var a := s.approvals[c.body.code];
    AllowedHeld(s.history, a.decidedAt, a.sessionAt, a.readings, a.form.orgId, a.wallet, a.resolved.app.slug);
    AllowedHeld(s.history, c.respondedAt, c.consumedAt, c.readings, c.paid.orgId, c.paid.wallet, c.paid.appSlug);
    HeldOrder(s.history, c.consumedAt, c.respondedAt, c.readings, c.paid.orgId, c.paid.wallet, c.paid.appSlug);
    LowerTwice(a.wallet);
    ClaimedAs(c, s.history[c.respondedAt].now, s.history[..c.respondedAt]);
  }

  /**
   Claims for a wallet and client come from one earlier approval: request k of the run
   submitted the form, met a session of that wallet up to case, found access allowed by its own
   later reads for the client's own organization, and stored the code for the same registered
   callback. Request id then presented the code and the client's secret, consumed it in time,
   and answered.
   */
  lemma ClaimsComeFromApproval(cfg: Config, w: World, moves: seq<Move>, id: nat) returns (k: nat)
    requires id in Run(cfg, w, moves).claims
    ensures var s := Run(cfg, w, moves);
      var c := s.claims[id];
      && c.body.code in s.approvals && OwedTo(cfg, s.history, s.approvals[c.body.code], c)
      && InsertedBy(moves, k, s.approvals[c.body.code], c.body.code)
      && ClaimedBy(moves, id, c) && SecretMatches(cfg, c.body, c.resolved.app)
  {
    hide OwedTo, InsertedBy, ClaimedBy, SecretMatches, LiveClaims;
    var s := Run(cfg, w, moves);
    ClaimOwed(cfg, w, moves, id);
    RunTraced(cfg, w, moves);
    ClaimSecret(cfg, w, moves, id);
    var c := s.claims[id];
    assert ProtocolTrace.Inserted(moves, s.approvals[c.body.code], c.body.code);
    k :| InsertedBy(moves, k, s.approvals[c.body.code], c.body.code);
  }

  lemma {:induction false} ClaimSecret(cfg: Config, w: World, moves: seq<Move>, id: nat)
    requires id in Run(cfg, w, moves).claims
    ensures SecretMatches(cfg, Run(cfg, w, moves).claims[id].body, Run(cfg, w, moves).claims[id].resolved.app)
  {
    hide Run, ResolvedIn, AccessAllowed, PaidFrom, BuildPartnerClaims, SecretMatches;
    Invariant(cfg, w, moves);
    assert ClaimKnown(cfg, Run(cfg, w, moves), id);
  }

  lemma HeldOrder(h: History, from: nat, to: nat, r: Readings, orgId: int, wallet: Text, slug: Text)
    requires HeldBetween(h, from, to, r, orgId, wallet, slug)
    ensures from < to
  {
  }

  lemma ClaimedAs(c: Claim, now: int, h: History)
    requires AccessAllowed(h, c.consumedAt, c.readings, c.paid.orgId, c.paid.wallet, c.paid.appSlug)
    requires c.claims == BuildPartnerClaims(c.paid, c.readings, now)
    ensures c.claims.wallet == LowerAscii(c.paid.wallet) && c.claims.orgId == c.paid.orgId && c.claims.verifiedAt == now
    ensures c.claims.identityActive && c.claims.role == c.readings.role.value
    ensures c.readings.permissions.Got? && c.claims.permissions == c.readings.permissions.value
  {
  }

  /** The claims repeat the live readings, and the exchange itself was authorised. */
  ghost predicate LiveClaims(cfg: Config, h: History, c: Claim) {
    && c.consumedAt < c.respondedAt < |h|
    && HeldBetween(h, c.consumedAt, c.respondedAt, c.readings, c.claims.orgId, c.claims.wallet, c.resolved.app.slug)
    && c.claims.identityActive && c.claims.verifiedAt == h[c.respondedAt].now
    && c.claims.role == h[c.readings.role.at].chain.role(c.claims.orgId, c.claims.wallet)
    && c.readings.permissions.Got? && Between(c.consumedAt, c.readings.permissions.at, c.respondedAt, h)
    && c.claims.permissions == h[c.readings.permissions.at].chain.permissions(c.claims.orgId, c.claims.wallet)
    && ResolvedIn(cfg, h, c.body.clientId, c.body.redirectUri, c.resolved) && c.resolved.callbacksAt < c.consumedAt
    && SecretMatches(cfg, c.body, c.resolved.app) && c.resolved.app.orgId == c.claims.orgId
  }

  /**
   After the code was consumed every part of the decision was read again, each from the chain
   as it then was, and together they allow access. A reader that failed leaves no claims.
   */
  lemma {:induction false} ClaimsAreLive(cfg: Config, w: World, moves: seq<Move>, id: nat)
    requires id in Run(cfg, w, moves).claims
    ensures LiveClaims(cfg, Run(cfg, w, moves).history, Run(cfg, w, moves).claims[id])
  {
    hide ResolvedIn, AccessAllowed, SecretMatches, BuildPartnerClaims, Run, LowerAscii, HeldBetween, ReadFrom;
    var s := Run(cfg, w, moves);
    Invariant(cfg, w, moves);
    assert ClaimKnown(cfg, s, id);
    var c := s.claims[id];
    var a := s.approvals[c.body.code];
    AllowedHeld(s.history, c.respondedAt, c.consumedAt, c.readings, c.paid.orgId, c.paid.wallet, c.paid.appSlug);
    HeldOrder(s.history, c.consumedAt, c.respondedAt, c.readings, c.paid.orgId, c.paid.wallet, c.paid.appSlug);
    LowerTwice(a.wallet);
    ClaimedAs(c, s.history[c.respondedAt].now, s.history[..c.respondedAt]);
    ReadRoleAndPermissions(s.history, c.respondedAt, c.consumedAt, c.readings,
                           c.paid.orgId, c.paid.wallet, c.paid.appSlug);
  }

  lemma ReadRoleAndPermissions(h: History, to: nat, from: nat, r: Readings, orgId: int, wallet: Text, slug: Text)
    requires to <= |h| && AccessAllowed(h[..to], from, r, orgId, wallet, slug)
    ensures r.role.Got? && Between(from, r.role.at, to, h) && r.role.value == h[r.role.at].chain.role(orgId, wallet)
    ensures r.permissions.Got? ==>
      Between(from, r.permissions.at, to, h)
        && r.permissions.value == h[r.permissions.at].chain.permissions(orgId, wallet)
  {
    hide Decision;
  }

  /** A code is turned into claims at most once. */
  lemma {:induction false} ClaimsOnce(cfg: Config, w: World, moves: seq<Move>, i: nat, j: nat)
    requires i in Run(cfg, w, moves).claims && j in Run(cfg, w, moves).claims
    requires Run(cfg, w, moves).claims[i].body.code == Run(cfg, w, moves).claims[j].body.code
    ensures i == j
  {
    hide Run, ClaimJustified;
    Invariant(cfg, w, moves);
    assert ClaimKnown(cfg, Run(cfg, w, moves), i) && ClaimKnown(cfg, Run(cfg, w, moves), j);
  }

  /** From step n on, the chain holds the wallet's identity revoked. */
  ghost predicate RevokedFrom(h: History, n: nat, wallet: Text) {
    forall k | n <= k < |h| :: !h[k].chain.identity(wallet).active
  }

  /** Revocation takes effect at once: a code consumed after it gives no claims. */
  lemma {:induction false} RevokedGetsNothing(cfg: Config, w: World, moves: seq<Move>, n: nat, id: nat)
    requires id in Run(cfg, w, moves).claims
    requires RevokedFrom(Run(cfg, w, moves).history, n, Run(cfg, w, moves).claims[id].claims.wallet)
    ensures Run(cfg, w, moves).claims[id].consumedAt + 1 < n
  {
    hide Run, ResolvedIn, SecretMatches;
    ClaimsAreLive(cfg, w, moves, id);
  }

  lemma InsertTouches(s: State, k: nat)
    requires k in s.calls && s.calls[k].ApproveDecided?
    ensures InsertCode(s, k).calls == s.calls[k := Ended] && InsertCode(s, k).claims == s.claims
  {
    hide InsertInto, GrantOf;
  }

  lemma ConsumeTouches(s: State, k: nat, answered: bool)
    requires k in s.calls && s.calls[k].ExchangeResolved?
    ensures var s' := ConsumeCode(s, k, answered);
      && k in s'.calls && s'.calls == s.calls[k := s'.calls[k]] && s'.claims == s.claims
      && (!answered ==> s'.calls[k].Ended?)
  {
    hide ConsumeFrom, QueryOf;
  }

  lemma GiveTouches(s: State, k: nat)
    requires k in s.calls && s.calls[k].ExchangeReading?
    ensures var s' := GiveClaims(s, k);
      && k in s'.calls && s'.calls == s.calls[k := s'.calls[k]]
      && forall j: nat | j in s'.claims && j != k :: j in s.claims
  {
    hide AllRead, FirstRound, Decision, BuildPartnerClaims;
    assert s.calls[k := s.calls[k]] == s.calls;
  }

  lemma AdvanceEnded(cfg: Config, w: World, n: nat, step: Step)
    ensures Advance(cfg, w, n, Ended, step) == Ended
  {
  }

  predicate Finished(s: State, id: nat) { id in s.calls && s.calls[id].Ended? && id !in s.claims }

  lemma WriteTouches(cfg: Config, s: State, m: Move, id: nat)
    requires Finished(s, id) && Writes(m.step) && m.call != id
    ensures Finished(Effect(cfg, s, m), id)
  {
    hide InsertCode, ConsumeCode, GiveClaims, Advance, FormOk, BodyOk;
    var k := m.call;
    if k in s.calls {
      match s.calls[k]
      case ApproveDecided(_, _) => InsertTouches(s, k);
      case ExchangeResolved(_, _) => ConsumeTouches(s, k, m.step.Consume?);
      case ExchangeReading(_, _, _, _, _) => GiveTouches(s, k);
      case _ =>
    }
  }

  /** A finished request makes no step of its own. */
  lemma OwnTouches(cfg: Config, s: State, m: Move)
    requires Finished(s, m.call)
    ensures Finished(Effect(cfg, s, m), m.call)
  {
    hide FormOk, BodyOk, Advance, InsertCode, ConsumeCode, GiveClaims;
    AdvanceEnded(cfg, s.world, |s.history|, m.step);
  }

  lemma OtherTouches(cfg: Config, s: State, m: Move, id: nat)
    requires Finished(s, id) && !Writes(m.step) && m.call != id
    ensures Finished(Effect(cfg, s, m), id)
  {
    hide FormOk, BodyOk, Advance, InsertCode, ConsumeCode, GiveClaims, Abort;
  }

  lemma FinishedStays(cfg: Config, s: State, m: Move, id: nat)
    requires Finished(s, id)
    ensures Finished(Apply(cfg, s, m), id)
  {
    hide Effect;
    if m.call == id {
      OwnTouches(cfg, s, m);
    } else if Writes(m.step) {
      WriteTouches(cfg, s, m, id);
    } else {
      OtherTouches(cfg, s, m, id);
    }
  }

  lemma FailFinishes(cfg: Config, s: State, m: Move)
    requires m.step.Fail? && m.call in s.calls && m.call !in s.claims
    ensures Finished(Apply(cfg, s, m), m.call)
  {
    hide InsertCode, ConsumeCode, GiveClaims, Advance;
    match s.calls[m.call]
    case ApproveDecided(_, _) => InsertTouches(s, m.call);
    case ExchangeResolved(_, _) => ConsumeTouches(s, m.call, false);
    case _ =>
  }

  /** A request in flight that meets a failing read or write never answers with claims. */
  lemma {:induction false} FailedNeverClaims(cfg: Config, w: World, moves: seq<Move>, n: nat, id: nat)
    requires n < |moves| && moves[n].call == id && moves[n].step.Fail? && Waiting(Run(cfg, w, moves[..n]), id)
    ensures Finished(Run(cfg, w, moves), id)
  {
    hide Apply, ClaimJustified;
    var before, m := moves[..|moves| - 1], moves[|moves| - 1];
    if n < |moves| - 1 {
      assert before[..n] == moves[..n];
      FailedNeverClaims(cfg, w, before, n, id);
      FinishedStays(cfg, Run(cfg, w, before), m, id);
    } else {
      Invariant(cfg, w, before);
      assert ClaimKnown(cfg, Run(cfg, w, before), id);
      FailFinishes(cfg, Run(cfg, w, before), m);
    }
  }

  predicate Waiting(s: State, id: nat) { id in s.calls && !s.calls[id].Ended? }
}
