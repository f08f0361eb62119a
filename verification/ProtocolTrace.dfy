/**
 Who did what: every request in flight, approval and claim is tied to the steps of the run
 that made it, so that a wallet is one a session step supplied and a secret one that was sent.
 */
module ProtocolTrace {
  import opened Texts
  import opened Callbacks
  import opened CodeStore
  import opened Protocol

  // ---- the steps behind a request ----

  ghost predicate MadeAt(moves: seq<Move>, at: nat, id: nat, step: Step) {
    at < |moves| && moves[at] == Move(id, step)
  }

  ghost predicate MadeBefore(moves: seq<Move>, end: nat, id: nat, step: Step) {
    exists at: nat :: at < end && MadeAt(moves, at, id, step)
  }

  ghost predicate ResolvedBy(moves: seq<Move>, id: nat, r: Resolved) {
    MadeAt(moves, r.appAt, id, Step.ReadApp) && MadeAt(moves, r.callbacksAt, id, Step.ReadCallbacks)
  }

  /** Each reading was made by a step of the request that asks that reader. */
  ghost predicate ReadBy(moves: seq<Move>, id: nat, r: Readings) {
    && (r.organization.Got? ==> MadeAt(moves, r.organization.at, id, ReadChain(Organization)))
    && (r.identity.Got? ==> MadeAt(moves, r.identity.at, id, ReadChain(Identity)))
    && (r.role.Got? ==> MadeAt(moves, r.role.at, id, ReadChain(Role)))
    && (r.expired.Got? ==> MadeAt(moves, r.expired.at, id, ReadChain(Membership)))
    && (r.registered.Got? ==> MadeAt(moves, r.registered.at, id, ReadChain(AppRegistered)))
    && (r.allowed.Got? ==> MadeAt(moves, r.allowed.at, id, ReadChain(AppAllowed)))
    && (r.permissions.Got? ==> MadeAt(moves, r.permissions.at, id, ReadChain(Permissions)))
  }

  /** The request submitted the form, found its client, and then met the wallet's session. */
  ghost predicate SessionBy(moves: seq<Move>, id: nat, form: Form, r: Resolved, wallet: Text, sessionAt: nat) {
    && MadeBefore(moves, r.appAt, id, BeginApprove(form)) && ResolvedBy(moves, id, r)
    && MadeAt(moves, sessionAt, id, ReadSession(Some(wallet)))
  }

  ghost predicate ApprovedBy(moves: seq<Move>, id: nat, a: Approval, code: Text) {
    && SessionBy(moves, id, a.form, a.resolved, a.wallet, a.sessionAt)
    && ReadBy(moves, id, a.readings) && MadeAt(moves, a.decidedAt, id, Decide(code))
  }

  /** The approving request itself stored the code. */
  ghost predicate InsertedBy(moves: seq<Move>, id: nat, a: Approval, code: Text) {
    && ApprovedBy(moves, id, a, code)
    && (MadeAt(moves, a.insertedAt, id, Step.Insert) || MadeAt(moves, a.insertedAt, id, Fail(true)))
  }

  ghost predicate ConsumedBy(moves: seq<Move>, id: nat, b: Body, r: Resolved, consumedAt: nat, readings: Readings) {
    && MadeBefore(moves, r.appAt, id, BeginExchange(b)) && ResolvedBy(moves, id, r)
    && MadeAt(moves, consumedAt, id, Step.Consume) && ReadBy(moves, id, readings)
  }

  /** The answering request presented the client's credential and consumed the code itself. */
  ghost predicate ClaimedBy(moves: seq<Move>, id: nat, c: Claim) {
    ConsumedBy(moves, id, c.body, c.resolved, c.consumedAt, c.readings) && MadeAt(moves, c.respondedAt, id, Respond)
  }

  ghost predicate CallTraced(moves: seq<Move>, id: nat, c: Call) {
    match c
    case ApproveStart(form) => MadeBefore(moves, |moves|, id, BeginApprove(form))
    case ApproveFound(form, _, appAt) =>
      MadeBefore(moves, appAt, id, BeginApprove(form)) && MadeAt(moves, appAt, id, Step.ReadApp)
    case ApproveResolved(form, r) => MadeBefore(moves, r.appAt, id, BeginApprove(form)) && ResolvedBy(moves, id, r)
    case ApproveReading(form, r, wallet, at, readings) =>
      SessionBy(moves, id, form, r, wallet, at) && ReadBy(moves, id, readings)
    case ApproveDecided(a, code) => ApprovedBy(moves, id, a, code)
    case ExchangeStart(b) => MadeBefore(moves, |moves|, id, BeginExchange(b))
    case ExchangeFound(b, _, appAt) =>
      MadeBefore(moves, appAt, id, BeginExchange(b)) && MadeAt(moves, appAt, id, Step.ReadApp)
    case ExchangeResolved(b, r) => MadeBefore(moves, r.appAt, id, BeginExchange(b)) && ResolvedBy(moves, id, r)
    case ExchangeReading(b, r, _, at, readings) => ConsumedBy(moves, id, b, r, at, readings)
    case Ended => true
  }

  ghost predicate Inserted(moves: seq<Move>, a: Approval, code: Text) {
    exists id: nat :: InsertedBy(moves, id, a, code)
  }

  ghost predicate Traced(moves: seq<Move>, s: State) {
    && |s.history| == |moves|
    && (forall id | id in s.calls :: CallTraced(moves, id, s.calls[id]))
    && (forall code | code in s.approvals :: Inserted(moves, s.approvals[code], code))
    && (forall id | id in s.claims :: ClaimedBy(moves, id, s.claims[id]))
  }

  // ---- a longer run still has them ----

  lemma MadeBeforeLater(moves: seq<Move>, m: Move, end: nat, id: nat, step: Step)
    requires MadeBefore(moves, end, id, step)
    ensures MadeBefore(moves + [m], end, id, step)
  {
    var at: nat :| at < end && MadeAt(moves, at, id, step);
    assert MadeAt(moves + [m], at, id, step);
  }

  lemma ReadByLater(moves: seq<Move>, m: Move, id: nat, r: Readings)
    requires ReadBy(moves, id, r)
    ensures ReadBy(moves + [m], id, r)
  {
  }

  lemma SessionByLater(moves: seq<Move>, m: Move, id: nat, form: Form, r: Resolved, wallet: Text, at: nat)
    requires SessionBy(moves, id, form, r, wallet, at)
    ensures SessionBy(moves + [m], id, form, r, wallet, at)
  {
    hide MadeBefore;
    MadeBeforeLater(moves, m, r.appAt, id, BeginApprove(form));
  }

  lemma ApprovedByLater(moves: seq<Move>, m: Move, id: nat, a: Approval, code: Text)
    requires ApprovedBy(moves, id, a, code)
    ensures ApprovedBy(moves + [m], id, a, code)
  {
    hide SessionBy, ReadBy;
    SessionByLater(moves, m, id, a.form, a.resolved, a.wallet, a.sessionAt);
    ReadByLater(moves, m, id, a.readings);
  }

  lemma ConsumedByLater(moves: seq<Move>, m: Move, id: nat, b: Body, r: Resolved, at: nat, readings: Readings)
    requires ConsumedBy(moves, id, b, r, at, readings)
    ensures ConsumedBy(moves + [m], id, b, r, at, readings)
  {
    hide MadeBefore, ReadBy;
    MadeBeforeLater(moves, m, r.appAt, id, BeginExchange(b));
    ReadByLater(moves, m, id, readings);
  }

  lemma CallLater(moves: seq<Move>, m: Move, id: nat, c: Call)
    requires CallTraced(moves, id, c)
    ensures CallTraced(moves + [m], id, c)
  {
    hide MadeBefore, ReadBy, SessionBy, ApprovedBy, ConsumedBy;
    match c
    case ApproveStart(form) => BegunLater(moves, m, id, BeginApprove(form));
    case ApproveFound(form, _, appAt) => MadeBeforeLater(moves, m, appAt, id, BeginApprove(form));
    case ApproveResolved(form, r) => MadeBeforeLater(moves, m, r.appAt, id, BeginApprove(form));
    case ApproveReading(form, r, wallet, at, readings) =>
      SessionByLater(moves, m, id, form, r, wallet, at);
      ReadByLater(moves, m, id, readings);
    case ApproveDecided(a, code) => ApprovedByLater(moves, m, id, a, code);
    case ExchangeStart(b) => BegunLater(moves, m, id, BeginExchange(b));
    case ExchangeFound(b, _, appAt) => MadeBeforeLater(moves, m, appAt, id, BeginExchange(b));
    case ExchangeResolved(b, r) => MadeBeforeLater(moves, m, r.appAt, id, BeginExchange(b));
    case ExchangeReading(b, r, _, at, readings) => ConsumedByLater(moves, m, id, b, r, at, readings);
    case Ended =>
  }

  lemma BegunLater(moves: seq<Move>, m: Move, id: nat, step: Step)
    requires MadeBefore(moves, |moves|, id, step)
    ensures MadeBefore(moves + [m], |moves + [m]|, id, step)
    ensures MadeBefore(moves + [m], |moves|, id, step)
  {
    var at: nat :| at < |moves| && MadeAt(moves, at, id, step);
    assert MadeAt(moves + [m], at, id, step);
  }

  lemma InsertedLater(moves: seq<Move>, m: Move, a: Approval, code: Text)
    requires Inserted(moves, a, code)
    ensures Inserted(moves + [m], a, code)
  {
    hide ApprovedBy;
    var id: nat :| InsertedBy(moves, id, a, code);
    ApprovedByLater(moves, m, id, a, code);
    assert InsertedBy(moves + [m], id, a, code);
  }

  lemma ClaimedLater(moves: seq<Move>, m: Move, id: nat, c: Claim)
    requires ClaimedBy(moves, id, c)
    ensures ClaimedBy(moves + [m], id, c)
  {
    hide ConsumedBy;
    ConsumedByLater(moves, m, id, c.body, c.resolved, c.consumedAt, c.readings);
  }

  // ---- every step ----

  lemma ReadOneBy(moves: seq<Move>, id: nat, ch: Chain, r: Readings, reader: Reader, orgId: int, wallet: Text,
                  slug: Text)
    requires ReadBy(moves + [Move(id, ReadChain(reader))], id, r)
    ensures ReadBy(moves + [Move(id, ReadChain(reader))], id, ReadOne(ch, |moves|, r, reader, orgId, wallet, slug))
  {
    hide FirstRound;
  }

  lemma NothingReadBy(moves: seq<Move>, id: nat)
    ensures ReadBy(moves, id, NO_READINGS)
  {
  }

  lemma ApproveTraced(cfg: Config, w: World, moves: seq<Move>, id: nat, c: Call, step: Step)
    requires CallTraced(moves + [Move(id, step)], id, c)
    requires c.ApproveStart? ==> MadeBefore(moves + [Move(id, step)], |moves|, id, BeginApprove(c.form))
    requires c.ApproveStart? || c.ApproveFound? || c.ApproveResolved?
    ensures CallTraced(moves + [Move(id, step)], id, Advance(cfg, w, |moves|, c, step))
  {
    NothingReadBy(moves + [Move(id, step)], id);
    hide MadeBefore, ReadBy, FindApp, Accepts, SecretOk;
  }

  lemma ExchangeTraced(cfg: Config, w: World, moves: seq<Move>, id: nat, c: Call, step: Step)
    requires CallTraced(moves + [Move(id, step)], id, c)
    requires c.ExchangeStart? ==> MadeBefore(moves + [Move(id, step)], |moves|, id, BeginExchange(c.body))
    requires c.ExchangeStart? || c.ExchangeFound?
    ensures CallTraced(moves + [Move(id, step)], id, Advance(cfg, w, |moves|, c, step))
  {
    hide MadeBefore, ReadBy, FindApp, Accepts, SecretOk;
  }

  lemma ReadingTraced(cfg: Config, w: World, moves: seq<Move>, id: nat, c: Call, step: Step)
    requires CallTraced(moves + [Move(id, step)], id, c) && (c.ApproveReading? || c.ExchangeReading?)
    ensures CallTraced(moves + [Move(id, step)], id, Advance(cfg, w, |moves|, c, step))
  {
    hide MadeBefore, ReadBy, SessionBy, ResolvedBy, AllRead, Decision, ReadOne;
    match (c, step)
    case (ApproveReading(form, r, wallet, at, readings), ReadChain(reader)) =>
      ReadOneBy(moves, id, w.chain, readings, reader, form.orgId, wallet, r.app.slug);
    case (ExchangeReading(b, r, paid, at, readings), ReadChain(reader)) =>
      ReadOneBy(moves, id, w.chain, readings, reader, paid.orgId, paid.wallet, paid.appSlug);
    case _ =>
  }

  lemma AdvanceTraced(cfg: Config, w: World, moves: seq<Move>, id: nat, c: Call, step: Step)
    requires CallTraced(moves, id, c)
    ensures CallTraced(moves + [Move(id, step)], id, Advance(cfg, w, |moves|, c, step))
  {
    CallLater(moves, Move(id, step), id, c);
    if c.ApproveStart? {
      BegunLater(moves, Move(id, step), id, BeginApprove(c.form));
    } else if c.ExchangeStart? {
      BegunLater(moves, Move(id, step), id, BeginExchange(c.body));
    }
    hide CallTraced, MadeBefore;
    if c.ApproveStart? || c.ApproveFound? || c.ApproveResolved? {
      ApproveTraced(cfg, w, moves, id, c, step);
    } else if c.ExchangeStart? || c.ExchangeFound? {
      ExchangeTraced(cfg, w, moves, id, c, step);
    } else if c.ApproveReading? || c.ExchangeReading? {
      ReadingTraced(cfg, w, moves, id, c, step);
    }
  }

  /** What is remembered stays traced; only the request that moved may differ. */
  lemma TracedLater(moves: seq<Move>, m: Move, s: State, s': State)
    requires Traced(moves, s) && |s'.history| == |moves| + 1
    requires forall id | id in s'.calls && id != m.call :: id in s.calls && s'.calls[id] == s.calls[id]
    requires m.call in s'.calls ==> CallTraced(moves + [m], m.call, s'.calls[m.call])
    requires forall c | c in s'.approvals :: (c in s.approvals && s'.approvals[c] == s.approvals[c])
                                             || Inserted(moves + [m], s'.approvals[c], c)
    requires forall id | id in s'.claims :: (id in s.claims && s'.claims[id] == s.claims[id])
                                            || ClaimedBy(moves + [m], id, s'.claims[id])
    ensures Traced(moves + [m], s')
  {
    hide CallTraced, Inserted, ClaimedBy;
    forall id | id in s'.calls ensures CallTraced(moves + [m], id, s'.calls[id]) {
      if id != m.call { CallLater(moves, m, id, s.calls[id]); }
    }
    forall c | c in s'.approvals ensures Inserted(moves + [m], s'.approvals[c], c) {
      if !Inserted(moves + [m], s'.approvals[c], c) { InsertedLater(moves, m, s.approvals[c], c); }
    }
    forall id | id in s'.claims ensures ClaimedBy(moves + [m], id, s'.claims[id]) {
      if !ClaimedBy(moves + [m], id, s'.claims[id]) { ClaimedLater(moves, m, id, s.claims[id]); }
    }
  }

  lemma EndedTraced(moves: seq<Move>, id: nat)
    ensures CallTraced(moves, id, Ended)
  {
  }

  /** A step that only sets the call of its request, or nothing at all. */
  lemma SetTraced(moves: seq<Move>, m: Move, s: State, s': State)
    requires Traced(moves, s)
    requires s' == s.(world := s'.world, codes := s'.codes, calls := s'.calls, history := s.history + [s.world])
    requires s'.calls == s.calls || (m.call in s'.calls && s'.calls == s.calls[m.call := s'.calls[m.call]])
    requires m.call in s'.calls ==> CallTraced(moves + [m], m.call, s'.calls[m.call])
    ensures Traced(moves + [m], s')
  {
    hide CallTraced, Inserted, ClaimedBy;
    TracedLater(moves, m, s, s');
  }

  lemma KeptTraced(moves: seq<Move>, m: Move, s: State, id: nat)
    requires Traced(moves, s) && id in s.calls
    ensures CallTraced(moves + [m], id, s.calls[id])
  {
    hide CallTraced;
    CallLater(moves, m, id, s.calls[id]);
  }

  /** The request that moved ends, and one approval is new. */
  lemma ApprovalTraced(moves: seq<Move>, m: Move, s: State, s': State, code: Text, a: Approval)
    requires Traced(moves, s) && Inserted(moves + [m], a, code) && |s'.history| == |moves| + 1
    requires s'.calls == s.calls[m.call := Ended] && s'.approvals == s.approvals[code := a] && s'.claims == s.claims
    ensures Traced(moves + [m], s')
  {
    EndedTraced(moves + [m], m.call);
    hide CallTraced, Inserted, ClaimedBy;
    TracedLater(moves, m, s, s');
  }

  /** The request that moved ends, and its claims are new. */
  lemma ClaimTraced(moves: seq<Move>, m: Move, s: State, s': State, c: Claim)
    requires Traced(moves, s) && ClaimedBy(moves + [m], m.call, c) && |s'.history| == |moves| + 1
    requires s'.calls == s.calls[m.call := Ended] && s'.approvals == s.approvals && s'.claims == s.claims[m.call := c]
    ensures Traced(moves + [m], s')
  {
    EndedTraced(moves + [m], m.call);
    hide CallTraced, Inserted, ClaimedBy;
    TracedLater(moves, m, s, s');
  }

  lemma InsertShape(s: State, id: nat)
    requires id in s.calls && s.calls[id].ApproveDecided?
    ensures var s', c := InsertCode(s, id), s.calls[id];
      && s' == s.(calls := s.calls[id := Ended], codes := s'.codes, approvals := s'.approvals)
      && (s'.approvals == s.approvals || s'.approvals == s.approvals[c.code := c.approval.(insertedAt := |s.history|)])
  {
    hide InsertInto, GrantOf;
  }

  lemma GiveShape(s: State, id: nat)
    requires id in s.calls && s.calls[id].ExchangeReading?
    ensures var s', c := GiveClaims(s, id), s.calls[id];
      || s' == s
      || s' == SetCall(s, id, Ended)
      || exists claims :: s' == SetCall(s, id, Ended).(claims := s.claims[id :=
           Claim(c.body, c.resolved, c.paid, c.consumedAt, c.readings, |s.history|, claims)])
  {
    hide AllRead, Decision, BuildPartnerClaims;
  }

  lemma InsertTraced(moves: seq<Move>, s: State, id: nat, step: Step)
    requires Traced(moves, s) && id in s.calls && s.calls[id].ApproveDecided? && (step.Insert? || step == Fail(true))
    ensures Traced(moves + [Move(id, step)], InsertCode(s, id).(history := s.history + [s.world]))
  {
    var m, c := Move(id, step), s.calls[id];
    var s' := InsertCode(s, id).(history := s.history + [s.world]);
    LengthTraced(moves, s);
    InsertsTraced(moves, s, m);
    EndedTraced(moves + [m], id);
    InsertShape(s, id);
    hide Traced, CallTraced, Inserted, ClaimedBy, InsertCode;
    if s'.approvals == s.approvals {
      SetTraced(moves, m, s, s');
    } else {
      ApprovalTraced(moves, m, s, s', c.code, c.approval.(insertedAt := |moves|));
    }
  }

  lemma LengthTraced(moves: seq<Move>, s: State)
    requires Traced(moves, s)
    ensures |s.history| == |moves|
  {
  }

  lemma InsertsTraced(moves: seq<Move>, s: State, m: Move)
    requires Traced(moves, s) && m.call in s.calls && s.calls[m.call].ApproveDecided?
      && (m.step.Insert? || m.step == Fail(true))
    ensures Inserted(moves + [m], s.calls[m.call].approval.(insertedAt := |moves|), s.calls[m.call].code)
  {
    var c := s.calls[m.call];
    KeptTraced(moves, m, s, m.call);
    CallApproved(moves + [m], m.call, c);
    InsertsBy(moves + [m], m.call, c.approval, |moves|, c.code);
  }

  lemma CallApproved(moves: seq<Move>, id: nat, c: Call)
    requires c.ApproveDecided? && CallTraced(moves, id, c)
    ensures ApprovedBy(moves, id, c.approval, c.code)
  {
  }

  lemma InsertsBy(moves: seq<Move>, id: nat, a: Approval, at: nat, code: Text)
    requires ApprovedBy(moves, id, a, code)
    requires MadeAt(moves, at, id, Step.Insert) || MadeAt(moves, at, id, Fail(true))
    ensures Inserted(moves, a.(insertedAt := at), code)
  {
    hide SessionBy, ReadBy;
    assert InsertedBy(moves, id, a.(insertedAt := at), code);
  }

  lemma ConsumeTraced(moves: seq<Move>, s: State, id: nat, step: Step, answered: bool)
    requires Traced(moves, s) && id in s.calls && s.calls[id].ExchangeResolved?
    requires if answered then step.Consume? else step == Fail(true)
    ensures Traced(moves + [Move(id, step)], ConsumeCode(s, id, answered).(history := s.history + [s.world]))
  {
    var m := Move(id, step);
    var s' := ConsumeCode(s, id, answered).(history := s.history + [s.world]);
    CallLater(moves, m, id, s.calls[id]);
    EndedTraced(moves + [m], id);
    NothingReadBy(moves + [m], id);
    if answered { ConsumesBy(moves + [m], id, s.calls[id], |moves|); }
    hide CallTraced, Inserted, ClaimedBy, ConsumeFrom, QueryOf, ConsumedBy;
    TracedLater(moves, m, s, s');
  }

  lemma ConsumesBy(moves: seq<Move>, id: nat, c: Call, at: nat)
    requires c.ExchangeResolved? && CallTraced(moves, id, c) && MadeAt(moves, at, id, Step.Consume)
    ensures forall paid :: CallTraced(moves, id, ExchangeReading(c.body, c.resolved, paid, at, NO_READINGS))
  {
    hide MadeBefore;
    NothingReadBy(moves, id);
  }

  lemma GiveTraced(moves: seq<Move>, s: State, id: nat)
    requires Traced(moves, s) && id in s.calls && s.calls[id].ExchangeReading?
    ensures Traced(moves + [Move(id, Respond)], GiveClaims(s, id).(history := s.history + [s.world]))
  {
    var m, c := Move(id, Respond), s.calls[id];
    var s' := GiveClaims(s, id).(history := s.history + [s.world]);
    LengthTraced(moves, s);
    KeptTraced(moves, m, s, id);
    GivesBy(moves + [m], id, c, |moves|);
    EndedTraced(moves + [m], id);
    GiveShape(s, id);
    hide Traced, CallTraced, Inserted, ClaimedBy, GiveClaims;
    if s'.claims == s.claims {
      SetTraced(moves, m, s, s');
    } else {
      ClaimTraced(moves, m, s, s', s'.claims[id]);
    }
  }

  lemma GivesBy(moves: seq<Move>, id: nat, c: Call, at: nat)
    requires c.ExchangeReading? && CallTraced(moves, id, c) && MadeAt(moves, at, id, Respond)
    ensures forall claims ::
      ClaimedBy(moves, id, Claim(c.body, c.resolved, c.paid, c.consumedAt, c.readings, at, claims))
  {
    hide ConsumedBy;
  }

  predicate Writes(step: Step) { step.Insert? || step.Consume? || step.Respond? || step.Fail? }

  lemma FailStepTraced(cfg: Config, moves: seq<Move>, s: State, id: nat, applied: bool)
    requires Traced(moves, s)
    ensures Traced(moves + [Move(id, Fail(applied))], Apply(cfg, s, Move(id, Fail(applied))))
  {
    hide Traced, InsertCode, ConsumeCode, GiveClaims, Advance, CallTraced;
    var m := Move(id, Fail(applied));
    EndedTraced(moves + [m], id);
    if id in s.calls && applied && s.calls[id].ApproveDecided? {
      InsertTraced(moves, s, id, m.step);
    } else if id in s.calls && applied && s.calls[id].ExchangeResolved? {
      ConsumeTraced(moves, s, id, m.step, false);
    } else {
      SetTraced(moves, m, s, Apply(cfg, s, m));
    }
  }

  lemma WriteStepTraced(cfg: Config, moves: seq<Move>, s: State, m: Move)
    requires Traced(moves, s) && Writes(m.step) && !m.step.Fail?
    ensures Traced(moves + [m], Apply(cfg, s, m))
  {
    hide Traced, InsertCode, ConsumeCode, GiveClaims, Advance, CallTraced, Abort, SetCall;
    var id := m.call;
    if m.step.Insert? && id in s.calls && s.calls[id].ApproveDecided? {
      InsertTraced(moves, s, id, m.step);
    } else if m.step.Consume? && id in s.calls && s.calls[id].ExchangeResolved? {
      ConsumeTraced(moves, s, id, m.step, true);
    } else if m.step.Respond? && id in s.calls && s.calls[id].ExchangeReading? {
      GiveTraced(moves, s, id);
    } else {
      if id in s.calls { KeptTraced(moves, m, s, id); }
      SetTraced(moves, m, s, Apply(cfg, s, m));
    }
  }

  predicate Begins(step: Step) { step.BeginApprove? || step.BeginExchange? }

  lemma BeginTraced(moves: seq<Move>, m: Move)
    ensures m.step.BeginApprove? ==> CallTraced(moves + [m], m.call, ApproveStart(m.step.form))
    ensures m.step.BeginExchange? ==> CallTraced(moves + [m], m.call, ExchangeStart(m.step.body))
  {
    assert MadeAt(moves + [m], |moves|, m.call, m.step);
  }

  lemma BeginStepTraced(cfg: Config, moves: seq<Move>, s: State, m: Move)
    requires Traced(moves, s) && Begins(m.step)
    ensures Traced(moves + [m], Apply(cfg, s, m))
  {
    hide Traced, Advance, CallTraced, FormOk, BodyOk, InsertCode, ConsumeCode, GiveClaims, Abort;
    BeginTraced(moves, m);
    if m.call in s.calls { KeptTraced(moves, m, s, m.call); }
    SetTraced(moves, m, s, Apply(cfg, s, m));
  }

  lemma AdvanceStepTraced(cfg: Config, moves: seq<Move>, s: State, m: Move)
    requires Traced(moves, s) && m.call in s.calls
    ensures CallTraced(moves + [m], m.call, s.calls[m.call])
    ensures CallTraced(moves + [m], m.call, Advance(cfg, s.world, |moves|, s.calls[m.call], m.step))
    ensures |s.history| == |moves|
  {
    KeptTraced(moves, m, s, m.call);
    hide CallTraced, Advance;
    AdvanceTraced(cfg, s.world, moves, m.call, s.calls[m.call], m.step);
  }

  lemma OtherStepTraced(cfg: Config, moves: seq<Move>, s: State, m: Move)
    requires Traced(moves, s) && !Writes(m.step) && !Begins(m.step)
    ensures Traced(moves + [m], Apply(cfg, s, m))
  {
    hide Traced, Advance, CallTraced, InsertCode, ConsumeCode, GiveClaims, Abort;
    if m.call in s.calls { AdvanceStepTraced(cfg, moves, s, m); }
    SetTraced(moves, m, s, Apply(cfg, s, m));
  }

  /** In every run, whatever is remembered is traced to the steps that made it. */
  lemma {:induction false} RunTraced(cfg: Config, w: World, moves: seq<Move>)
    ensures Traced(moves, Run(cfg, w, moves))
  {
    hide Apply, CallTraced, Inserted, ClaimedBy;
    if moves == [] {
    } else {
      var before, m := moves[..|moves| - 1], moves[|moves| - 1];
      RunTraced(cfg, w, before);
      assert before + [m] == moves;
      if m.step.Fail? {
        FailStepTraced(cfg, before, Run(cfg, w, before), m.call, m.step.applied);
      } else if Writes(m.step) {
        WriteStepTraced(cfg, before, Run(cfg, w, before), m);
      } else if Begins(m.step) {
        BeginStepTraced(cfg, before, Run(cfg, w, before), m);
      } else {
        OtherStepTraced(cfg, before, Run(cfg, w, before), m);
      }
    }
  }
}
