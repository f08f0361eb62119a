/** What becomes of a stored code: it is there until an hour past its expiry, and unused until consumed. */
module ProtocolCodes {
  import opened Texts
  import opened CodeStore
  import opened Protocol
  import opened ProtocolFacts

  /** Step j purges the code's row: more than an hour after its expiry. */
  ghost predicate PurgedAt(cfg: Config, w: World, moves: seq<Move>, j: nat, code: Text) {
    && j < |moves| && moves[j].step.Purge?
    && var s := Run(cfg, w, moves[..j]);
      code in s.approvals && s.approvals[code].expiresAt < s.world.now - 3_600_000
  }

  /** What one step does to the row of a code that was approved before. */
  ghost predicate RowStep(s: State, s': State, purge: bool, code: Text)
    requires code in s.approvals
  {
    && code in s'.approvals && s'.approvals[code] == s.approvals[code]
    && (code in s.consumers ==> code in s'.consumers)
    && (code in s'.codes <==>
          code in s.codes && !(purge && s.codes[code].grant.expiresAt < s.world.now - 3_600_000))
    && (code in s'.codes ==>
          (s'.codes[code].grant == s.codes[code].grant
           && (s'.codes[code] == s.codes[code] || (s'.codes[code].usedAt.Some? && code in s'.consumers))))
    && (code in s'.consumers && code !in s.consumers && code in s'.codes ==> s'.codes[code].usedAt.Some?)
  }

  lemma InsertStep(s: State, id: nat, code: Text)
    requires id in s.calls && s.calls[id].ApproveDecided?
    ensures var s' := InsertCode(s, id);
      && s'.world == s.world
      && (code in s.approvals ==> RowStep(s, s', false, code))
      && (code !in s.approvals && code in s'.approvals ==>
            code in s'.codes && s'.codes[code].usedAt.None? && s'.consumers == s.consumers)
  {
    hide NewRow;
    NewRowUnused(GrantOf(s.calls[id].approval.(insertedAt := |s.history|), s.calls[id].code));
  }

  lemma NewRowUnused(g: Grant)
    ensures NewRow(g).usedAt.None?
  {
  }

  lemma ConsumeStep(s: State, id: nat, answered: bool, code: Text)
    requires id in s.calls && s.calls[id].ExchangeResolved?
    ensures var s' := ConsumeCode(s, id, answered);
      s'.approvals == s.approvals && (code in s.approvals ==> RowStep(s, s', false, code))
  {
    hide Redeemable, Payout;
  }

  /** A row of a code nobody had approved before is fresh. */
  ghost predicate FreshRow(s: State, s': State, code: Text) {
    code in s'.approvals ==> code in s'.codes && s'.codes[code].usedAt.None? && s'.consumers == s.consumers
  }

  /** The step of a request that stores nothing and consumes nothing. */
  predicate Idle(s: State, m: Move) {
    || m.call !in s.calls
    || !(m.step.Insert? || m.step.Consume? || m.step.Fail?)
    || !(s.calls[m.call].ApproveDecided? || s.calls[m.call].ExchangeResolved?)
  }

  lemma IdleRow(cfg: Config, s: State, m: Move, code: Text)
    requires Idle(s, m)
    ensures var s' := Apply(cfg, s, m);
      && s'.approvals == s.approvals && s'.consumers == s.consumers
      && (m.step.Purge? || s'.codes == s.codes)
      && (code in s.approvals ==> RowStep(s, s', m.step.Purge?, code))
  {
    hide InsertCode, ConsumeCode, Advance, GiveClaims, FormOk, BodyOk;
    if m.call in s.calls && s.calls[m.call].ExchangeReading? { AnswerStores(s, m.call); }
    IdleStores(cfg, s, m);
    var s' := Apply(cfg, s, m);
    if m.step.Purge? {
      assert s'.codes == map c | c in s.codes && s.codes[c].grant.expiresAt >= s.world.now - 3_600_000 :: s.codes[c];
    }
    hide Apply;
    if !m.step.Purge? { UntouchedRow(s, s', code); }
  }

  lemma AnswerStores(s: State, id: nat)
    requires id in s.calls && s.calls[id].ExchangeReading?
    ensures var s' := GiveClaims(s, id);
      s'.approvals == s.approvals && s'.codes == s.codes && s'.consumers == s.consumers
  {
    hide AllRead, Decision, BuildPartnerClaims;
  }

  predicate Outside(step: Step) {
    step.Tick? || step.ChainChange? || step.EditApps? || step.EditCallbacks? || step.Purge?
  }

  /** Nothing but inserting, consuming, answering and failing touches what is stored. */
  lemma PlainStores(cfg: Config, s: State, m: Move)
    requires !Outside(m.step) && !(m.step.Insert? || m.step.Consume? || m.step.Respond? || m.step.Fail?)
    ensures var s' := Effect(cfg, s, m);
      s'.approvals == s.approvals && s'.consumers == s.consumers && s'.codes == s.codes && s'.world == s.world
  {
    hide Advance, FormOk, BodyOk, InsertCode, ConsumeCode, GiveClaims, Abort;
  }

  lemma OutsideStores(cfg: Config, s: State, m: Move)
    requires Outside(m.step)
    ensures Effect(cfg, s, m).approvals == s.approvals && Effect(cfg, s, m).consumers == s.consumers
    ensures m.step.Purge? || Effect(cfg, s, m).codes == s.codes
  {
    hide Advance, FormOk, BodyOk, InsertCode, ConsumeCode, GiveClaims, Abort, SetCall;
  }

  lemma IdleStores(cfg: Config, s: State, m: Move)
    requires Idle(s, m)
    ensures var s' := Apply(cfg, s, m);
      && s'.approvals == s.approvals && s'.consumers == s.consumers && (m.step.Purge? || s'.codes == s.codes)
  {
    hide InsertCode, ConsumeCode, Advance, GiveClaims, FormOk, BodyOk, Abort;
    if m.call in s.calls && m.step.Fail? {
      AbortStores(s, m.call, m.step.applied);
      assert Effect(cfg, s, m) == Abort(s, m.call, m.step.applied);
    } else if m.call in s.calls && m.step.Respond? && s.calls[m.call].ExchangeReading? {
      AnswerStores(s, m.call);
      assert Effect(cfg, s, m) == GiveClaims(s, m.call);
    } else if m.step.Insert? || m.step.Consume? || m.step.Respond? || m.step.Fail? {
      assert Effect(cfg, s, m) == s;
    } else if Outside(m.step) {
      OutsideStores(cfg, s, m);
    } else {
      PlainStores(cfg, s, m);
    }
    hide Effect;
  }

  lemma AbortStores(s: State, id: nat, applied: bool)
    requires id in s.calls && !s.calls[id].ApproveDecided? && !s.calls[id].ExchangeResolved?
    ensures var s' := Abort(s, id, applied);
      s'.approvals == s.approvals && s'.codes == s.codes && s'.consumers == s.consumers
  {
    hide InsertCode, ConsumeCode;
  }

  lemma StepRow(cfg: Config, s: State, m: Move, code: Text)
    ensures var s' := Apply(cfg, s, m);
      && (code in s.approvals ==> RowStep(s, s', m.step.Purge?, code))
      && (code !in s.approvals ==> FreshRow(s, s', code) && (code in s'.approvals ==> !m.step.Purge?))
  {
    var id := m.call;
    hide InsertCode, ConsumeCode, Advance, RowStep, GiveClaims;
    if Idle(s, m) {
      IdleRow(cfg, s, m, code);
    } else if s.calls[id].ApproveDecided? && !m.step.Consume? {
      if m.step.Insert? || m.step.applied {
        InsertStep(s, id, code);
        SameRow(s, InsertCode(s, id), Apply(cfg, s, m), code);
      } else {
        UntouchedRow(s, Apply(cfg, s, m), code);
      }
    } else if s.calls[id].ExchangeResolved? && !m.step.Insert? {
      if m.step.Consume? || m.step.applied {
        ConsumeStep(s, id, m.step.Consume?, code);
        SameRow(s, ConsumeCode(s, id, m.step.Consume?), Apply(cfg, s, m), code);
      } else {
        UntouchedRow(s, Apply(cfg, s, m), code);
      }
    } else {
      UntouchedRow(s, Apply(cfg, s, m), code);
    }
  }

  lemma SameRow(s: State, a: State, b: State, code: Text)
    requires a.approvals == b.approvals && a.codes == b.codes && a.consumers == b.consumers
    ensures code in s.approvals && RowStep(s, a, false, code) ==> RowStep(s, b, false, code)
  {
  }

  lemma UntouchedRow(s: State, s': State, code: Text)
    requires s'.approvals == s.approvals && s'.codes == s.codes && s'.consumers == s.consumers
    ensures code in s.approvals ==> RowStep(s, s', false, code)
  {
  }

  /** The row an approval leaves, written out. */
  function RowOf(a: Approval, code: Text): Grant {
    Grant(code, a.form.clientId, a.resolved.app.slug, a.form.orgId, LowerAscii(a.wallet), a.resolved.registered,
          a.expiresAt)
  }

  /** The row is there unless it is gone, says what was approved, and is used once it has a consumer. */
  ghost predicate CodeState(s: State, gone: bool, code: Text) {
    && code in s.approvals && (code !in s.codes <==> gone)
    && (code in s.codes ==>
          (s.codes[code].grant == RowOf(s.approvals[code], code)
           && (s.codes[code].usedAt.Some? <==> code in s.consumers)))
  }

  /**
   In every run the code of an approval is stored, for its client, organization, wallet and
   callback, until some purge more than an hour after its expiry; and it is unused exactly as
   long as no request has consumed it.
   */
  lemma {:induction false} CodeExactly(cfg: Config, w: World, moves: seq<Move>, code: Text)
    requires code in Run(cfg, w, moves).approvals
    ensures CodeState(Run(cfg, w, moves), exists j: nat :: PurgedAt(cfg, w, moves, j, code), code)
  {
    var n := |moves| - 1;
    var before := moves[..n];
    var s := Run(cfg, w, before);
    assert Run(cfg, w, moves) == Apply(cfg, s, moves[n]);
    hide Apply, Run, RowOf, PurgedAt, RowStep, FreshRow, CodeState;
    CodeRow(cfg, w, moves, code);
    CodeRow(cfg, w, before, code);
    StepRow(cfg, s, moves[n], code);
    if code in s.approvals {
      CodeExactly(cfg, w, before, code);
      PurgeLast(cfg, w, moves, code);
      CodeNext(s, Run(cfg, w, moves), moves[n].step.Purge?, exists j: nat :: PurgedAt(cfg, w, before, j, code), code);
    } else {
      NotPurged(cfg, w, moves, code);
      CodeNew(s, Run(cfg, w, moves), code);
    }
  }

  lemma CodeNext(s: State, s': State, purge: bool, gone: bool, code: Text)
    requires code in s.approvals && CodeState(s, gone, code) && RowStep(s, s', purge, code)
    ensures CodeState(s', gone || (purge && s.approvals[code].expiresAt < s.world.now - 3_600_000), code)
  {
    hide LowerAscii;
  }

  lemma CodeNew(s: State, s': State, code: Text)
    requires code in s'.approvals && FreshRow(s, s', code) && code !in s.consumers
    requires code in s'.codes ==> s'.codes[code].grant == RowOf(s'.approvals[code], code)
    ensures CodeState(s', false, code)
  {
  }

  lemma PurgeLast(cfg: Config, w: World, moves: seq<Move>, code: Text)
    requires moves != [] && code in Run(cfg, w, moves[..|moves| - 1]).approvals
    ensures var n, before := |moves| - 1, moves[..|moves| - 1];
      var s := Run(cfg, w, before);
      (exists j: nat :: PurgedAt(cfg, w, moves, j, code)) <==>
      (exists j: nat :: PurgedAt(cfg, w, before, j, code))
      || (moves[n].step.Purge? && s.approvals[code].expiresAt < s.world.now - 3_600_000)
  {
    hide Run;
    var n, before := |moves| - 1, moves[..|moves| - 1];
    assert forall j: nat | j < n :: before[..j] == moves[..j];
    if j: nat :| PurgedAt(cfg, w, before, j, code) { assert PurgedAt(cfg, w, moves, j, code); }
    if j: nat :| PurgedAt(cfg, w, moves, j, code) {
      if j < n { assert PurgedAt(cfg, w, before, j, code); }
    }
    var s := Run(cfg, w, before);
    if moves[n].step.Purge? && s.approvals[code].expiresAt < s.world.now - 3_600_000 {
      assert PurgedAt(cfg, w, moves, n, code);
    }
  }

  lemma NotPurged(cfg: Config, w: World, moves: seq<Move>, code: Text)
    requires moves != [] && code !in Run(cfg, w, moves[..|moves| - 1]).approvals
    ensures forall j: nat :: !PurgedAt(cfg, w, moves, j, code)
  {
    hide Run;
    var n, before := |moves| - 1, moves[..|moves| - 1];
    forall j: nat ensures !PurgedAt(cfg, w, moves, j, code) {
      if PurgedAt(cfg, w, moves, j, code) {
        assert before[..j] == moves[..j];
        ApprovedStays(cfg, w, before, j, code);
      }
    }
  }

  /** What the invariant says of a code's row. */
  lemma {:induction false} CodeRow(cfg: Config, w: World, moves: seq<Move>, code: Text)
    ensures var s := Run(cfg, w, moves);
      && (code in s.codes ==> code in s.approvals && s.codes[code].grant == RowOf(s.approvals[code], code))
      && (code in s.consumers ==> code in s.approvals)
  {
    Invariant(cfg, w, moves);
    var s := Run(cfg, w, moves);
    assert CodeKnown(s, code) && ConsumerKnown(s, code);
    hide Run, LowerAscii;
  }

  lemma {:induction false} ApprovedStays(cfg: Config, w: World, moves: seq<Move>, j: nat, code: Text)
    requires j <= |moves| && code in Run(cfg, w, moves[..j]).approvals
    ensures code in Run(cfg, w, moves).approvals
  {
    hide Apply;
    if j == |moves| {
      assert moves[..j] == moves;
    } else {
      var before := moves[..|moves| - 1];
      assert before[..j] == moves[..j];
      ApprovedStays(cfg, w, before, j, code);
      StepRow(cfg, Run(cfg, w, before), moves[|moves| - 1], code);
    }
  }

  // ---- the world ----

  /** The world changes by its own steps alone, and its clock never goes back. */
  lemma WorldExactly(cfg: Config, s: State, m: Move)
    ensures var w, w' := s.world, Apply(cfg, s, m).world;
      && w'.now == (if m.step.Tick? && m.step.later > w.now then m.step.later else w.now)
      && w'.chain == (if m.step.ChainChange? then m.step.chain else w.chain)
      && w'.apps == (if m.step.EditApps? then m.step.apps else w.apps)
      && w'.callbacks == (if m.step.EditCallbacks? then m.step.callbacks else w.callbacks)
  {
    hide InsertCode, ConsumeCode, Advance, GiveClaims, FormOk, BodyOk, Abort, SetCall;
    if !Outside(m.step) {
      if m.step.Insert? || m.step.Consume? || m.step.Respond? || m.step.Fail? {
        WritesKeepWorld(cfg, s, m);
      } else {
        PlainStores(cfg, s, m);
      }
      hide Effect;
    }
  }

  lemma WritesKeepWorld(cfg: Config, s: State, m: Move)
    requires m.step.Insert? || m.step.Consume? || m.step.Respond? || m.step.Fail?
    ensures Effect(cfg, s, m).world == s.world
  {
    hide InsertCode, ConsumeCode, GiveClaims, Abort, Advance;
    if m.call in s.calls {
      if m.step.Fail? { AbortKeepsWorld(s, m.call, m.step.applied); }
      match s.calls[m.call]
      case ApproveDecided(_, _) => InsertKeepsWorld(s, m.call);
      case ExchangeResolved(_, _) => ConsumeKeepsWorld(s, m.call, true);
      case ExchangeReading(_, _, _, _, _) => GiveKeepsWorld(s, m.call);
      case _ =>
    }
  }

  lemma AbortKeepsWorld(s: State, id: nat, applied: bool)
    requires id in s.calls
    ensures Abort(s, id, applied).world == s.world
  {
    hide InsertCode, ConsumeCode;
    if s.calls[id].ApproveDecided? {
      InsertKeepsWorld(s, id);
    } else if s.calls[id].ExchangeResolved? {
      ConsumeKeepsWorld(s, id, false);
    }
  }

  lemma InsertKeepsWorld(s: State, id: nat)
    requires id in s.calls && s.calls[id].ApproveDecided?
    ensures InsertCode(s, id).world == s.world
  {
    hide InsertInto, GrantOf;
  }

  lemma ConsumeKeepsWorld(s: State, id: nat, answered: bool)
    requires id in s.calls && s.calls[id].ExchangeResolved?
    ensures ConsumeCode(s, id, answered).world == s.world
  {
    hide ConsumeFrom, QueryOf;
  }

  lemma GiveKeepsWorld(s: State, id: nat)
    requires id in s.calls && s.calls[id].ExchangeReading?
    ensures GiveClaims(s, id).world == s.world
  {
    hide AllRead, Decision, BuildPartnerClaims;
  }

  lemma {:induction false} TimeGoesOn(cfg: Config, w: World, moves: seq<Move>, i: nat)
    requires i < |Run(cfg, w, moves).history|
    ensures Run(cfg, w, moves).history[i].now <= Run(cfg, w, moves).world.now
  {
    var n := |moves| - 1;
    var s := Run(cfg, w, moves[..n]);
    WorldExactly(cfg, s, moves[n]);
    AppendsWorld(cfg, s, moves[n]);
    hide Apply;
    if i < |s.history| { TimeGoesOn(cfg, w, moves[..n], i); }
  }
}
