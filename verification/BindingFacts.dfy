/**
 What every interleaving of confirm requests keeps, and the one interleaving of two
 deployments that takes a good binding away.
 */
module BindingFacts {
  import opened Texts
  import opened Binding

  // ---- what holds in every run ----

  /** The unique index: one row per token and deployment, the unstamped rows counting as one. */
  ghost predicate UniqueTokens(table: Table) {
    forall a, b | a in table && b in table && table[a].token.Some? && table[a].token == table[b].token
                  && table[a].stamp == table[b].stamp :: a == b
  }

  ghost predicate LowerStamps(table: Table) {
    forall id | id in table && table[id].stamp.Some? :: LowerText(table[id].stamp.value)
  }

  /** The chain holds the row's own hash and organization for the token it is bound to. */
  predicate Agreed(tokens: Tokens, r: Asset) {
    && r.token.Some? && r.stamp.Some? && (r.stamp.value, r.token.value) in tokens
    && SameHex(tokens[(r.stamp.value, r.token.value)].hash, r.hash)
    && tokens[(r.stamp.value, r.token.value)].orgId == r.orgId
  }

  /** An unstamped row that is bound to the token and is not the request's own. */
  predicate UnstampedRival(table: Table, q: Request, id: nat) {
    id in table && id != q.asset && table[id].token == Some(q.token) && table[id].stamp.None?
  }

  ghost predicate Listed(claims: seq<Claim>, id: nat) { exists i :: 0 <= i < |claims| && claims[i].id == id }

  /** What a request in flight knows: hashes never change, and no unstamped rival goes unnoticed. */
  ghost predicate CallKnown(s: State, c: Call) {
    match c
    case Started(q) => LowerText(q.deployment)
    case Loaded(q, draft) =>
      LowerText(q.deployment) && q.asset in s.table && SameRecord(s.table[q.asset], draft)
    case Verified(q) => RequestVerified(s, q)
    case Releasing(q, claims) =>
      && RequestVerified(s, q)
      && (forall id | UnstampedRival(s.table, q, id) :: Listed(claims, id))
      && (forall i | 0 <= i < |claims| :: ClaimKnown(s, q, claims[i]))
    case Ended => true
  }

  predicate ClaimKnown(s: State, q: Request, c: Claim) {
    c.id in s.table && c.id != q.asset && s.table[c.id].hash == c.hash
    && (c.stamp.Some? ==> LowerText(c.stamp.value) && s.table[c.id].stamp.Some?)
  }

  predicate SameRecord(a: Asset, b: Asset) { a.hash == b.hash && a.orgId == b.orgId }

  predicate RequestVerified(s: State, q: Request) {
    LowerText(q.deployment) && q.asset in s.table && MayBind(s.table[q.asset], s.tokens, q)
  }

  ghost predicate Inv(s: State) {
    && UniqueTokens(s.table) && LowerStamps(s.table)
    && forall c | c in s.calls :: CallKnown(s, s.calls[c])
  }

  /** Rows stay, keep their record, and only the unstamped bindings that were there remain. */
  ghost predicate Later(s: State, s': State) {
    && (forall id | id in s.table ::
          id in s'.table && SameRecord(s.table[id], s'.table[id])
            && (s.table[id].stamp.Some? ==> s'.table[id].stamp.Some?))
    && (forall k | k in s.tokens :: k in s'.tokens && s'.tokens[k] == s.tokens[k])
    && (forall id | id in s'.table && s'.table[id].token.Some? && s'.table[id].stamp.None? ::
          id in s.table && s.table[id].token == s'.table[id].token && s.table[id].stamp.None?)
  }

  lemma KnownLater(s: State, s': State, c: Call)
    requires Later(s, s') && CallKnown(s, c)
    ensures CallKnown(s', c)
  {
    match c
    case Releasing(q, claims) =>
      forall id | UnstampedRival(s'.table, q, id) ensures Listed(claims, id) {
        assert UnstampedRival(s.table, q, id);
      }
    case _ =>
  }

  lemma ReleasedLater(s: State, s': State, id: nat, token: nat)
    requires s' == s.(table := s'.table, calls := s'.calls) && s'.table == ReleaseRow(s.table, id, token)
    requires UniqueTokens(s.table) && LowerStamps(s.table)
    ensures Later(s, s') && UniqueTokens(s'.table) && LowerStamps(s'.table)
  {
  }

  lemma BoundLater(s: State, s': State, q: Request)
    requires BindRow(s.table, q) == Some(s'.table) && s'.tokens == s.tokens && LowerText(q.deployment)
    requires UniqueTokens(s.table) && LowerStamps(s.table)
    ensures Later(s, s') && UniqueTokens(s'.table) && LowerStamps(s'.table)
  {
  }

  /** One request moves on; the others know what they knew. */
  lemma CallKeeps(s: State, s': State, id: nat)
    requires Inv(s) && Later(s, s') && UniqueTokens(s'.table) && LowerStamps(s'.table)
    requires id in s'.calls && s'.calls == s.calls[id := s'.calls[id]] && CallKnown(s', s'.calls[id])
    ensures Inv(s')
  {
    hide CallKnown, Later;
    forall c | c in s'.calls ensures CallKnown(s', s'.calls[c]) {
      if c != id { KnownLater(s, s', s.calls[c]); }
    }
  }

  lemma WorldKeeps(s: State, s': State)
    requires Inv(s) && Later(s, s') && UniqueTokens(s'.table) && LowerStamps(s'.table) && s'.calls == s.calls
    ensures Inv(s')
  {
    hide CallKnown, Later;
    forall c | c in s'.calls ensures CallKnown(s', s'.calls[c]) { KnownLater(s, s', s.calls[c]); }
  }

  lemma EndKeeps(s: State, s': State, id: nat)
    requires Inv(s) && Later(s, s') && UniqueTokens(s'.table) && LowerStamps(s'.table)
    requires s'.calls == s.calls[id := Ended]
    ensures Inv(s')
  {
    CallKeeps(s, s', id);
  }

  lemma ClaimsKnown(s: State, q: Request, order: seq<nat>)
    requires LowerStamps(s.table) && RequestVerified(s, q) && ListsClaims(s.table, q, order)
    ensures CallKnown(s, Releasing(q, ClaimsIn(s.table, order)))
  {
    var claims := ClaimsIn(s.table, order);
    forall id | UnstampedRival(s.table, q, id) ensures Listed(claims, id) {
      assert id in ClaimIds(s.table, q);
      var i :| 0 <= i < |order| && order[i] == id;
      assert claims[i].id == id;
    }
    forall i | 0 <= i < |claims| ensures ClaimKnown(s, q, claims[i]) {
      assert order[i] in ClaimIds(s.table, q);
    }
  }

  /** A claim dealt with is no unstamped rival any more. */
  lemma NextKnown(s: State, s': State, q: Request, claims: seq<Claim>)
    requires claims != [] && CallKnown(s, Releasing(q, claims)) && Later(s, s')
    requires !UnstampedRival(s'.table, q, claims[0].id)
    ensures CallKnown(s', Releasing(q, claims[1..]))
  {
    forall id | UnstampedRival(s'.table, q, id) ensures Listed(claims[1..], id) {
      assert UnstampedRival(s.table, q, id);
      var i :| 0 <= i < |claims| && claims[i].id == id;
      assert claims[1..][i - 1].id == id;
    }
    forall i | 0 <= i < |claims| - 1 ensures ClaimKnown(s', q, claims[1..][i]) {
      assert ClaimKnown(s, q, claims[i + 1]);
    }
  }

  lemma ReleaseKeeps(s: State, id: nat, q: Request, claims: seq<Claim>)
    requires Inv(s) && id in s.calls && s.calls[id] == Releasing(q, claims) && claims != []
    ensures (q.deployment, q.token) in s.tokens
    ensures Inv(ReleaseStep(s, id, q, claims)) && Inv(SetCall(ReleaseStep(s, id, q, claims), id, Ended))
    ensures Later(s, ReleaseStep(s, id, q, claims))
  {
    assert CallKnown(s, s.calls[id]);
    var s' := ReleaseStep(s, id, q, claims);
    assert ClaimKnown(s, q, claims[0]);
    hide CallKnown, Inv, UniqueTokens, LowerStamps, Later;
    assert UniqueTokens(s.table) && LowerStamps(s.table) by { InvTable(s); }
    if s'.table == s.table {
      SameLater(s, s');
    } else {
      ReleasedLater(s, s', claims[0].id, q.token);
    }
    if s'.calls[id].Releasing? {
      NextKnown(s, s', q, claims);
      CallKeeps(s, s', id);
    } else {
      EndKeeps(s, s', id);
    }
    SameLater(s', SetCall(s', id, Ended));
    InvTable(s');
    EndKeeps(s', SetCall(s', id, Ended), id);
  }

  lemma InvTable(s: State)
    requires Inv(s)
    ensures UniqueTokens(s.table) && LowerStamps(s.table)
  {
  }

  lemma SameLater(s: State, s': State)
    requires s'.table == s.table && s'.tokens == s.tokens
    ensures Later(s, s')
  {
  }

  lemma BindKeeps(s: State, id: nat, q: Request, answered: bool)
    requires Inv(s) && id in s.calls && s.calls[id] == Releasing(q, [])
    ensures Inv(BindStep(s, id, q, answered)) && Later(s, BindStep(s, id, q, answered))
  {
    var s' := BindStep(s, id, q, answered);
    assert CallKnown(s, s.calls[id]);
    InvTable(s);
    hide Inv, BindRow, UniqueTokens, LowerStamps, Later;
    match BindRow(s.table, q)
    case None => SameLater(s, s');
    case Some(_) => BoundLater(s, s', q);
    EndKeeps(s, s', id);
  }

  lemma SameKnown(s: State, s': State, c: Call)
    requires s'.table == s.table && s'.tokens == s.tokens && CallKnown(s, c)
    ensures CallKnown(s', c)
  {
    SameLater(s, s');
    KnownLater(s, s', c);
  }

  /** The steps before the first write. */
  lemma ReadingKeeps(s: State, id: nat, step: Step)
    requires Inv(s) && id in s.calls && !s.calls[id].Releasing? && !step.Fail?
    ensures Inv(Advance(s, id, s.calls[id], step)) && Later(s, Advance(s, id, s.calls[id], step))
  {
    var c, s' := s.calls[id], Advance(s, id, s.calls[id], step);
    assert CallKnown(s, c);
    InvTable(s);
    SameLater(s, s');
    hide Inv, UniqueTokens, LowerStamps, Later, ListsClaims, ClaimsIn;
    match (c, step)
    case (Started(q), Load) => CallKeeps(s, s', id);
    case (Loaded(q, draft), Verify) => CallKeeps(s, s', id);
    case (Verified(q), ReadClaims(order)) =>
      if ListsClaims(s.table, q, order) {
        ClaimsKnown(s, q, order);
        SameKnown(s, s', s'.calls[id]);
        CallKeeps(s, s', id);
      }
    case _ =>
  }

  lemma AdvanceKeeps(s: State, id: nat, step: Step)
    requires Inv(s) && id in s.calls
    ensures Inv(Advance(s, id, s.calls[id], step)) && Later(s, Advance(s, id, s.calls[id], step))
  {
    var c, s' := s.calls[id], Advance(s, id, s.calls[id], step);
    InvTable(s);
    SameLater(s, s);
    hide Inv, UniqueTokens, LowerStamps, Later, BindStep, ReleaseStep, ListsClaims, CallKnown, MayBind, ClaimsIn;
    match (c, step)
    case (Releasing(q, claims), ReleaseNext) => if claims != [] { ReleaseKeeps(s, id, q, claims); }
    case (Releasing(q, claims), Bind) => if claims == [] { BindKeeps(s, id, q, true); }
    case (Releasing(q, claims), Fail(true)) =>
      if claims == [] {
        BindKeeps(s, id, q, false);
      } else {
        ReleaseKeeps(s, id, q, claims);
        LaterCalls(s, ReleaseStep(s, id, q, claims), s');
      }
    case (_, Fail(_)) =>
      SameLater(s, s');
      EndKeeps(s, s', id);
    case (Releasing(_, _), _) =>
    case _ => ReadingKeeps(s, id, step);
  }

  lemma LaterCalls(s: State, s1: State, s2: State)
    requires Later(s, s1) && s2.table == s1.table && s2.tokens == s1.tokens
    ensures Later(s, s2)
  {
  }

  lemma DraftKeeps(s: State, m: Move)
    requires Inv(s) && m.step.Draft?
    ensures Inv(Apply(s, m)) && Later(s, Apply(s, m))
  {
    hide CallKnown, Advance;
    WorldKeeps(s, Apply(s, m));
  }

  lemma OtherKeeps(s: State, m: Move)
    requires Inv(s) && (m.step.Mint? || m.step.Begin?)
    ensures Inv(Apply(s, m)) && Later(s, Apply(s, m))
  {
    hide Advance;
    var s' := Apply(s, m);
    InvTable(s);
    if m.step.Mint? {
      hide CallKnown, UniqueTokens, LowerStamps;
      WorldKeeps(s, s');
    } else {
      hide UniqueTokens, LowerStamps, Later, Inv;
      SameLater(s, s');
      if s' != s { CallKeeps(s, s', m.call); }
    }
  }

  lemma StepKeeps(s: State, m: Move)
    requires Inv(s)
    ensures Inv(Apply(s, m)) && Later(s, Apply(s, m))
  {
    hide Inv, Later, Advance;
    if m.step.Draft? {
      DraftKeeps(s, m);
    } else if m.step.Mint? || m.step.Begin? {
      OtherKeeps(s, m);
    } else if m.call in s.calls {
      AdvanceKeeps(s, m.call, m.step);
    } else {
      SameLater(s, s);
    }
  }

  lemma {:induction false} Invariant(table: Table, tokens: Tokens, moves: seq<Move>)
    requires UniqueTokens(table) && LowerStamps(table)
    ensures Inv(Run(Initial(table, tokens), moves))
  {
    if moves == [] {
    } else {
      hide Inv, Apply;
      Invariant(table, tokens, moves[..|moves| - 1]);
      StepKeeps(Run(Initial(table, tokens), moves[..|moves| - 1]), moves[|moves| - 1]);
    }
  }

  // ---- the theorems, for any number of deployments ----

  /** No two rows hold the same token on one deployment. */
  lemma {:induction false} NoTokenTwice(table: Table, tokens: Tokens, moves: seq<Move>, a: nat, b: nat)
    requires UniqueTokens(table) && LowerStamps(table)
    requires var t := Run(Initial(table, tokens), moves).table;
      a in t && b in t && t[a].token.Some? && t[a].token == t[b].token && t[a].stamp == t[b].stamp
    ensures a == b
  {
    hide Run, CallKnown;
    Invariant(table, tokens, moves);
  }

  predicate NewlyBound(s: State, s': State, id: nat) {
    id in s.table && s.table[id].token.None? && id in s'.table && s'.table[id].token.Some?
  }

  predicate NewlyReleased(s: State, s': State, id: nat) {
    id in s.table && s.table[id].token.Some? && id in s'.table && s'.table[id].token != s.table[id].token
  }

  /** A row is bound only to a token whose hash and organization on its own deployment are the row's. */
  lemma {:induction false} BoundOnlyIfAgreed(table: Table, tokens: Tokens, moves: seq<Move>, m: Move, id: nat)
    requires UniqueTokens(table) && LowerStamps(table)
    requires var s := Run(Initial(table, tokens), moves); NewlyBound(s, Apply(s, m), id)
    ensures var s' := Apply(Run(Initial(table, tokens), moves), m); Agreed(s'.tokens, s'.table[id])
  {
    hide Run, SameHex;
    Invariant(table, tokens, moves);
    var s := Run(Initial(table, tokens), moves);
    BindsAgreed(s, m, id);
  }

  lemma BindsAgreed(s: State, m: Move, id: nat)
    requires Inv(s) && NewlyBound(s, Apply(s, m), id)
    ensures Agreed(Apply(s, m).tokens, Apply(s, m).table[id])
  {
    hide Taken, ListsClaims, ClaimsIn, ClassifyClaim, SameHex, UniqueTokens, LowerStamps;
    assert m.call in s.calls && CallKnown(s, s.calls[m.call]);
  }

  /**
   A row loses a token only to a request for that token whose own deployment holds another
   hash for it than the row's.
   */
  lemma {:induction false} ReleasedOnlyIfContradicted(table: Table, tokens: Tokens, moves: seq<Move>, m: Move, id: nat)
    requires UniqueTokens(table) && LowerStamps(table)
    requires var s := Run(Initial(table, tokens), moves); NewlyReleased(s, Apply(s, m), id)
    ensures var s := Run(Initial(table, tokens), moves);
      && m.call in s.calls && s.calls[m.call].Releasing?
      && var q := s.calls[m.call].request;
      && Apply(s, m).table[id].token.None? && s.table[id].token == Some(q.token)
      && (q.deployment, q.token) in s.tokens && !SameHex(s.tokens[(q.deployment, q.token)].hash, s.table[id].hash)
  {
    hide Run;
    Invariant(table, tokens, moves);
    ReleasesContradicted(Run(Initial(table, tokens), moves), m, id);
  }

  lemma ReleasesContradicted(s: State, m: Move, id: nat)
    requires Inv(s) && NewlyReleased(s, Apply(s, m), id)
    ensures m.call in s.calls && s.calls[m.call].Releasing? && s.calls[m.call].claims != []
    ensures var q, c := s.calls[m.call].request, s.calls[m.call].claims[0];
      && Apply(s, m).table[id].token.None? && s.table[id].token == Some(q.token)
      && (q.deployment, q.token) in s.tokens && !SameHex(s.tokens[(q.deployment, q.token)].hash, s.table[id].hash)
      && c.id == id && ClassifyClaim(c, s.tokens[(q.deployment, q.token)].hash, q.deployment) == Release
  {
    hide Taken, ListsClaims, ClaimsIn, SameHex, UniqueTokens, LowerStamps, MayBind;
    assert m.call in s.calls && CallKnown(s, s.calls[m.call]);
    var c := s.calls[m.call];
    assert c.Releasing? && c.claims != [];
    assert ClaimKnown(s, c.request, c.claims[0]);
    SameHexFlip(c.claims[0].hash, s.tokens[(c.request.deployment, c.request.token)].hash);
  }

  lemma SameHexFlip(a: Text, b: Text)
    ensures SameHex(a, b) == SameHex(b, a)
  {
  }

  /** Any binding the chain agrees with can only be lost to another deployment's request. */
  lemma {:induction false} AgreedLostOnlyToOthers(table: Table, tokens: Tokens, moves: seq<Move>, m: Move, id: nat)
    requires UniqueTokens(table) && LowerStamps(table)
    requires var s := Run(Initial(table, tokens), moves);
      NewlyReleased(s, Apply(s, m), id) && Agreed(s.tokens, s.table[id])
    ensures var s := Run(Initial(table, tokens), moves);
      && m.call in s.calls && s.calls[m.call].Releasing?
      && Some(s.calls[m.call].request.deployment) != s.table[id].stamp
  {
    hide Run, SameHex, UniqueTokens, LowerStamps;
    ReleasedOnlyIfContradicted(table, tokens, moves, m, id);
  }

  // ---- one deployment ----

  /** Every request of the run is served for the same deployment. */
  ghost predicate OneDeployment(moves: seq<Move>, d: Text) {
    forall i | 0 <= i < |moves| && moves[i].step.Begin? :: moves[i].step.request.deployment == d
  }

  ghost predicate CallsServe(s: State, d: Text) {
    forall c | c in s.calls && !s.calls[c].Ended? :: s.calls[c].request.deployment == d
  }

  /** A step changes one call at most, and never its request. */
  lemma AdvanceCall(s: State, id: nat, step: Step)
    requires id in s.calls
    ensures var s' := Advance(s, id, s.calls[id], step);
      && id in s'.calls && s'.calls == s.calls[id := s'.calls[id]]
      && (s'.calls[id].Ended? || (!s.calls[id].Ended? && s'.calls[id].request == s.calls[id].request))
  {
    hide Taken, ListsClaims, ClaimsIn, ClassifyClaim, MayBind, ReleaseRow, BindRow;
    assert s.calls[id := s.calls[id]] == s.calls;
  }

  lemma ServeStep(s: State, m: Move, d: Text)
    requires CallsServe(s, d) && (m.step.Begin? ==> m.step.request.deployment == d)
    ensures CallsServe(Apply(s, m), d)
  {
    hide Advance, LowerText;
    if m.call in s.calls { AdvanceCall(s, m.call, m.step); }
  }

  lemma {:induction false} AllServe(start: State, moves: seq<Move>, d: Text)
    requires start.calls == map[] && OneDeployment(moves, d)
    ensures CallsServe(Run(start, moves), d)
  {
    if moves == [] {
    } else {
      hide Apply;
      AllServe(start, moves[..|moves| - 1], d);
      ServeStep(Run(start, moves[..|moves| - 1]), moves[|moves| - 1], d);
    }
  }

  /** Served by one deployment, no interleaving ever releases a binding its chain agrees with. */
  lemma {:induction false} AgreedNeverReleased(table: Table, tokens: Tokens, moves: seq<Move>, m: Move, id: nat,
                                               d: Text)
    requires UniqueTokens(table) && LowerStamps(table) && OneDeployment(moves, d)
    requires var s := Run(Initial(table, tokens), moves);
      && id in s.table && s.table[id].token.Some? && (d, s.table[id].token.value) in s.tokens
      && SameHex(s.tokens[(d, s.table[id].token.value)].hash, s.table[id].hash)
    ensures var s := Run(Initial(table, tokens), moves); !NewlyReleased(s, Apply(s, m), id)
  {
    hide Run, SameHex, UniqueTokens, LowerStamps, Apply;
    var s := Run(Initial(table, tokens), moves);
    AllServe(Initial(table, tokens), moves, d);
    if NewlyReleased(s, Apply(s, m), id) { ReleasedOnlyIfContradicted(table, tokens, moves, m, id); }
  }

  // ---- after a success ----

  /** What a success means: its row is bound and agreed, and nothing else claims the token. */
  ghost predicate SuccessKnown(s: State, q: Request) {
    && q.asset in s.table && s.table[q.asset].token == Some(q.token) && s.table[q.asset].stamp == Some(q.deployment)
    && Agreed(s.tokens, s.table[q.asset])
    && RivalFree(s, q)
  }

  /** No unstamped row claims the token of the request. */
  ghost predicate RivalFree(s: State, q: Request) { forall id :: !UnstampedRival(s.table, q, id) }

  lemma RivalFreeStays(s: State, s': State, q: Request)
    requires RivalFree(s, q) && Later(s, s')
    ensures RivalFree(s', q)
  {
    forall id ensures !UnstampedRival(s'.table, q, id) {
      assert !UnstampedRival(s.table, q, id);
    }
  }

  lemma NewSuccess(s: State, m: Move, q: Request)
    requires Inv(s) && q in Apply(s, m).successes && q !in s.successes
    ensures SuccessKnown(Apply(s, m), q)
  {
    hide Taken, ListsClaims, ClaimsIn, SameHex, UniqueTokens, LowerStamps, ClassifyClaim, ReleaseRow;
    assert m.call in s.calls && CallKnown(s, s.calls[m.call]);
    var s' := Apply(s, m);
    assert s.calls[m.call] == Releasing(q, []);
    forall id ensures !UnstampedRival(s'.table, q, id) {
      assert !UnstampedRival(s.table, q, id);
    }
  }

  lemma {:induction false} LastStep(start: State, moves: seq<Move>)
    requires moves != []
    ensures Run(start, moves) == Apply(Run(start, moves[..|moves| - 1]), moves[|moves| - 1])
  {
  }

  /** Once answered "verified", no unstamped row ever claims the token again. */
  lemma {:induction false} RivalsGone(table: Table, tokens: Tokens, moves: seq<Move>, q: Request)
    requires UniqueTokens(table) && LowerStamps(table) && q in Run(Initial(table, tokens), moves).successes
    ensures RivalFree(Run(Initial(table, tokens), moves), q)
  {
    if moves == [] {
    } else {
      var before, m := moves[..|moves| - 1], moves[|moves| - 1];
      var s := Run(Initial(table, tokens), before);
      LastStep(Initial(table, tokens), moves);
      hide Run, Apply, Inv, Later, RivalFree;
      Invariant(table, tokens, before);
      if q in s.successes {
        RivalsGone(table, tokens, before, q);
        StepKeeps(s, m);
        RivalFreeStays(s, Apply(s, m), q);
      } else {
        NewSuccess(s, m, q);
      }
    }
  }

  /** At the step that answers "verified" the row holds the token alone, and the chain agrees. */
  lemma {:induction false} SuccessAtOnce(table: Table, tokens: Tokens, moves: seq<Move>, m: Move, q: Request)
    requires UniqueTokens(table) && LowerStamps(table)
    requires var s := Run(Initial(table, tokens), moves); q in Apply(s, m).successes && q !in s.successes
    ensures SuccessKnown(Apply(Run(Initial(table, tokens), moves), m), q)
  {
    hide Run, Apply, Inv;
    Invariant(table, tokens, moves);
    NewSuccess(Run(Initial(table, tokens), moves), m, q);
  }

  /**
   For good after a success, whatever deployments are served: no unstamped row claims the
   token, and while the row still holds it, no other row of the deployment does.
   */
  lemma {:induction false} SuccessExclusive(table: Table, tokens: Tokens, moves: seq<Move>, q: Request, other: nat)
    requires UniqueTokens(table) && LowerStamps(table)
    requires var s := Run(Initial(table, tokens), moves);
      q in s.successes && other in s.table && other != q.asset && s.table[other].token == Some(q.token)
    ensures var s := Run(Initial(table, tokens), moves);
      && s.table[other].stamp.Some?
      && (q.asset in s.table
          && s.table[q.asset].token == Some(q.token) && s.table[q.asset].stamp == Some(q.deployment) ==>
            s.table[other].stamp != Some(q.deployment))
  {
    hide Run, CallKnown;
    RivalsGone(table, tokens, moves, q);
    Invariant(table, tokens, moves);
    assert !UnstampedRival(Run(Initial(table, tokens), moves).table, q, other);
  }

  // ---- runs that lose nothing ----

  /** Step n of the run takes a token away from a row the chain agrees with. */
  ghost predicate LostAt(start: State, moves: seq<Move>, n: nat, id: nat) {
    && n < |moves| && NewlyReleased(Run(start, moves[..n]), Apply(Run(start, moves[..n]), moves[n]), id)
    && Agreed(Run(start, moves[..n]).tokens, Run(start, moves[..n]).table[id])
  }

  ghost predicate LosesNothing(start: State, moves: seq<Move>) {
    forall n: nat, id: nat :: !LostAt(start, moves, n, id)
  }

  lemma LosesNothingBefore(start: State, moves: seq<Move>)
    requires moves != [] && LosesNothing(start, moves)
    ensures LosesNothing(start, moves[..|moves| - 1])
  {
    hide Run, Apply, NewlyReleased, Agreed;
    var before := moves[..|moves| - 1];
    forall n: nat, id: nat ensures !LostAt(start, before, n, id) {
      if n < |before| {
        assert before[..n] == moves[..n];
        assert !LostAt(start, moves, n, id);
      }
    }
  }

  /** A bound row that is not released is not touched at all. */
  lemma BoundRowKept(s: State, m: Move, id: nat)
    requires Inv(s) && id in s.table && s.table[id].token.Some? && !NewlyReleased(s, Apply(s, m), id)
    ensures id in Apply(s, m).table && Apply(s, m).table[id] == s.table[id]
  {
    hide Taken, ListsClaims, ClaimsIn, SameHex, UniqueTokens, LowerStamps, MayBind, ClassifyClaim;
    if m.call in s.calls && s.calls[m.call].Releasing? { assert CallKnown(s, s.calls[m.call]); }
  }

  lemma SuccessStays(s: State, m: Move, q: Request)
    requires Inv(s) && SuccessKnown(s, q) && !NewlyReleased(s, Apply(s, m), q.asset)
    ensures SuccessKnown(Apply(s, m), q)
  {
    BoundRowKept(s, m, q.asset);
    StepKeeps(s, m);
    hide Apply, Inv, SameHex, RivalFree;
    RivalFreeStays(s, Apply(s, m), q);
  }

  /**
   In a run that loses no agreed binding, every success lasts: its row holds the token, the
   chain agrees, and no other row of its deployment and no unstamped row claims the token.
   */
  lemma {:induction false} SuccessLasts(table: Table, tokens: Tokens, moves: seq<Move>, q: Request)
    requires UniqueTokens(table) && LowerStamps(table) && LosesNothing(Initial(table, tokens), moves)
    requires q in Run(Initial(table, tokens), moves).successes
    ensures SuccessKnown(Run(Initial(table, tokens), moves), q)
    ensures UniqueTokens(Run(Initial(table, tokens), moves).table)
  {
    var start := Initial(table, tokens);
    Invariant(table, tokens, moves);
    InvTable(Run(start, moves));
    if moves == [] {
    } else {
      var before, m := moves[..|moves| - 1], moves[|moves| - 1];
      var s := Run(start, before);
      LastStep(start, moves);
      LosesNothingBefore(start, moves);
      assert !LostAt(start, moves, |before|, q.asset);
      hide Run, Apply, Inv, LosesNothing, UniqueTokens;
      Invariant(table, tokens, before);
      if q in s.successes {
        SuccessLasts(table, tokens, before, q);
        SuccessStays(s, m, q);
      } else {
        NewSuccess(s, m, q);
      }
    }
  }

  /** A claim on a row that another deployment stamped was read with that stamp. */
  predicate StampSeen(table: Table, d: Text, c: Claim) {
    c.id in table && table[c.id].stamp.Some? && table[c.id].stamp != Some(d) ==> c.stamp == table[c.id].stamp
  }

  ghost predicate StampsSeen(s: State, d: Text) {
    forall k | k in s.calls && s.calls[k].Releasing? :: ClaimsSeen(s.table, d, s.calls[k].claims)
  }

  ghost predicate ClaimsSeen(table: Table, d: Text, claims: seq<Claim>) {
    forall i | 0 <= i < |claims| :: StampSeen(table, d, claims[i])
  }

  /** Rows only ever get the stamp d, and new rows have no claim on them yet. */
  ghost predicate OnlyStamps(s: State, s': State, d: Text) {
    forall id | id in s.table ::
      id in s'.table && (s'.table[id].stamp == s.table[id].stamp || s'.table[id].stamp == Some(d))
  }

  lemma OnlyStampsStep(s: State, m: Move, d: Text)
    requires CallsServe(s, d)
    ensures OnlyStamps(s, Apply(s, m), d)
  {
    hide Taken, ListsClaims, ClaimsIn, ClassifyClaim, MayBind, LowerText;
  }

  lemma SeenStays(s: State, s': State, d: Text, q: Request, claims: seq<Claim>)
    requires CallKnown(s, Releasing(q, claims)) && ClaimsSeen(s.table, d, claims) && OnlyStamps(s, s', d)
    ensures ClaimsSeen(s'.table, d, claims)
  {
    hide MayBind, SameHex;
    forall i | 0 <= i < |claims| ensures StampSeen(s'.table, d, claims[i]) {
      assert ClaimKnown(s, q, claims[i]) && StampSeen(s.table, d, claims[i]);
    }
  }

  /** Where the claims of a releasing call come from. */
  lemma ClaimsBefore(s: State, m: Move, k: nat)
    requires k in Apply(s, m).calls && Apply(s, m).calls[k].Releasing?
    ensures k in s.calls && (s.calls[k].Releasing? || s.calls[k].Verified?)
    ensures Apply(s, m).calls[k].request == s.calls[k].request
    ensures var claims := Apply(s, m).calls[k].claims;
      if s.calls[k].Releasing? then
        claims == s.calls[k].claims || (s.calls[k].claims != [] && claims == s.calls[k].claims[1..])
      else
        && Apply(s, m).table == s.table
        && exists order :: ListsClaims(s.table, s.calls[k].request, order) && claims == ClaimsIn(s.table, order)
  {
    hide Taken, ClassifyClaim, MayBind, LowerText, ReleaseRow, BindRow, ClaimIds;
  }

  lemma ClaimsAreRows(table: Table, q: Request, order: seq<nat>)
    requires ListsClaims(table, q, order)
    ensures var claims := ClaimsIn(table, order);
      forall i | 0 <= i < |claims| :: claims[i].id in table && claims[i] == ClaimOf(table, claims[i].id)
  {
    forall i | 0 <= i < |order| ensures order[i] in table { assert order[i] in ClaimIds(table, q); }
  }

  lemma SeenStep(s: State, m: Move, d: Text)
    requires Inv(s) && CallsServe(s, d) && StampsSeen(s, d)
    ensures StampsSeen(Apply(s, m), d)
  {
    var s' := Apply(s, m);
    OnlyStampsStep(s, m, d);
    forall k | k in s'.calls && s'.calls[k].Releasing? ensures ClaimsSeen(s'.table, d, s'.calls[k].claims) {
      ClaimsBefore(s, m, k);
      hide Apply, OnlyStamps, CallKnown, ListsClaims, ClaimsIn;
      var q, claims := s.calls[k].request, s'.calls[k].claims;
      if s.calls[k].Releasing? {
        SeenStays(s, s', d, q, s.calls[k].claims);
      } else {
        var order :| ListsClaims(s.table, q, order) && claims == ClaimsIn(s.table, order);
        ClaimsAreRows(s.table, q, order);
      }
    }
  }

  lemma {:induction false} AllSeen(table: Table, tokens: Tokens, moves: seq<Move>, d: Text)
    requires UniqueTokens(table) && LowerStamps(table) && OneDeployment(moves, d)
    ensures StampsSeen(Run(Initial(table, tokens), moves), d)
  {
    if moves == [] {
    } else {
      var before, m := moves[..|moves| - 1], moves[|moves| - 1];
      LastStep(Initial(table, tokens), moves);
      hide Apply, Inv, CallsServe, StampsSeen, Run;
      AllSeen(table, tokens, before, d);
      Invariant(table, tokens, before);
      AllServe(Initial(table, tokens), before, d);
      SeenStep(Run(Initial(table, tokens), before), m, d);
    }
  }

  /** Served by one deployment, no run loses a binding the chain agrees with. */
  lemma OneDeploymentLosesNothing(table: Table, tokens: Tokens, moves: seq<Move>, d: Text)
    requires UniqueTokens(table) && LowerStamps(table) && OneDeployment(moves, d)
    ensures LosesNothing(Initial(table, tokens), moves)
  {
    hide Run, Apply, SameHex, Inv, UniqueTokens, LowerStamps;
    var start := Initial(table, tokens);
    forall n: nat, id: nat ensures !LostAt(start, moves, n, id) {
      if LostAt(start, moves, n, id) {
        var s := Run(start, moves[..n]);
        Invariant(table, tokens, moves[..n]);
        AllServe(start, moves[..n], d);
        AllSeen(table, tokens, moves[..n], d);
        ReleasesContradicted(s, moves[n], id);
        InvTable(s);
        SeenRelease(s, moves[n], id, d);
      }
    }
  }

  lemma SeenRelease(s: State, m: Move, id: nat, d: Text)
    requires Inv(s) && CallsServe(s, d) && StampsSeen(s, d) && NewlyReleased(s, Apply(s, m), id)
    ensures !Agreed(s.tokens, s.table[id])
  {
    ReleasesContradicted(s, m, id);
    hide Apply, UniqueTokens;
    var c := s.calls[m.call];
    assert CallKnown(s, c);
    assert StampSeen(s.table, d, c.claims[0]);
  }

  // ---- one request alone ----

  /** A rival that the chain agrees with, on this deployment or unstamped. */
  predicate Conflicting(table: Table, chainHash: Text, q: Request, id: nat) {
    id in ClaimIds(table, q) && ClassifyClaim(ClaimOf(table, id), chainHash, q.deployment) == Conflict
  }

  /** Releasing succeeds unless a claim conflicts, and then clears every claim but other deployments'. */
  lemma {:induction false} ReleaseAllExactly(table: Table, claims: seq<Claim>, chainHash: Text, q: Request)
    ensures var (table', ok) := ReleaseAll(table, claims, chainHash, q);
      && (ok <==> forall i | 0 <= i < |claims| :: ClassifyClaim(claims[i], chainHash, q.deployment) != Conflict)
      && (forall id :: id in table <==> id in table')
      && (forall id | id in table :: table'[id] == table[id] || (table'[id] == table[id].(token := None, mintTx := None)
            && table[id].token == Some(q.token)
            && (exists i :: 0 <= i < |claims|
                  && claims[i].id == id && ClassifyClaim(claims[i], chainHash, q.deployment) == Release)))
      && (ok ==> forall i | 0 <= i < |claims| && ClassifyClaim(claims[i], chainHash, q.deployment) == Release ::
            claims[i].id in table ==> table'[claims[i].id].token != Some(q.token))
    decreases |claims|
  {
    hide ClassifyClaim;
    if claims == [] {
    } else {
      var verdict := ClassifyClaim(claims[0], chainHash, q.deployment);
      var rest := claims[1..];
      if verdict != Conflict {
        var next := if verdict == Release then ReleaseRow(table, claims[0].id, q.token) else table;
        ReleaseAllExactly(next, rest, chainHash, q);
        forall i | 0 < i < |claims| ensures claims[i] == rest[i - 1] {
        }
      }
    }
  }

  lemma ListedConflicts(table: Table, chainHash: Text, q: Request, order: seq<nat>)
    requires ListsClaims(table, q, order)
    ensures
      (forall i | 0 <= i < |order| :: ClassifyClaim(ClaimsIn(table, order)[i], chainHash, q.deployment) != Conflict)
      <==> forall id: nat :: !Conflicting(table, chainHash, q, id)
  {
    hide ClassifyClaim;
    var claims := ClaimsIn(table, order);
    if id: nat :| Conflicting(table, chainHash, q, id) {
      var i :| 0 <= i < |order| && order[i] == id;
      assert claims[i] == ClaimOf(table, id);
    }
    if i :| 0 <= i < |order| && ClassifyClaim(claims[i], chainHash, q.deployment) == Conflict {
      assert order[i] in ClaimIds(table, q);
      assert Conflicting(table, chainHash, q, order[i]);
    }
  }

  /** Once every contradicted claim is released, the index lets the token be bound. */
  lemma {:induction false} ReleasedFree(table: Table, chainHash: Text, q: Request, order: seq<nat>)
    requires ListsClaims(table, q, order) && ReleaseAll(table, ClaimsIn(table, order), chainHash, q).1
    ensures !Taken(ReleaseAll(table, ClaimsIn(table, order), chainHash, q).0, q)
    ensures q.asset in table ==>
      var table' := ReleaseAll(table, ClaimsIn(table, order), chainHash, q).0;
      q.asset in table' && table'[q.asset] == table[q.asset]
  {
    var claims := ClaimsIn(table, order);
    var table' := ReleaseAll(table, claims, chainHash, q).0;
    ReleaseAllExactly(table, claims, chainHash, q);
    forall i | 0 <= i < |claims| ensures claims[i].id != q.asset { assert order[i] in ClaimIds(table, q); }
    forall id | id in table' && id != q.asset && table'[id].token == Some(q.token)
      ensures table'[id].stamp != Some(q.deployment)
    {
      assert id in ClaimIds(table, q);
      var i :| 0 <= i < |order| && order[i] == id;
      assert claims[i] == ClaimOf(table, id);
    }
  }

  /**
   Alone, a confirm succeeds exactly when its row is a draft, the chain holds the row's hash
   and organization for the token, and no rival record agrees with the chain too.
   */
  lemma ConfirmExactly(table: Table, tokens: Tokens, q: Request, order: seq<nat>)
    requires ListsClaims(table, q, order)
    ensures Confirm(table, tokens, q, order).1 <==>
      && q.asset in table && table[q.asset].token.None? && MayBind(table[q.asset], tokens, q)
      && forall id: nat :: !Conflicting(table, tokens[(q.deployment, q.token)].hash, q, id)
    ensures Confirm(table, tokens, q, order).1 ==>
      Confirm(table, tokens, q, order).0[q.asset] ==
        table[q.asset].(token := Some(q.token), stamp := Some(q.deployment), mintTx := Some(q.txHash))
  {
    hide ClassifyClaim, SameHex, Conflicting;
    if q.asset in table && table[q.asset].token.None? && MayBind(table[q.asset], tokens, q) {
      var chainHash, claims := tokens[(q.deployment, q.token)].hash, ClaimsIn(table, order);
      ListedConflicts(table, chainHash, q, order);
      ReleaseAllExactly(table, claims, chainHash, q);
      if ReleaseAll(table, claims, chainHash, q).1 { ReleasedFree(table, chainHash, q, order); }
    }
  }
}
