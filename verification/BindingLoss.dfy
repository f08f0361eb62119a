/**
 When a binding the chain agrees with can be taken away: exactly when the table already holds
 a bound row that its own deployment does not vouch for.
 */
module BindingLoss {
  import opened Texts
  import opened Binding
  import opened BindingFacts

  // ---- runs put together ----

  lemma {:induction false} RunConcat(start: State, a: seq<Move>, b: seq<Move>)
    ensures Run(start, a + b) == Run(Run(start, a), b)
  {
    hide Apply;
    if b == [] {
      assert a + b == a;
    } else {
      assert (a + b)[..|a + b| - 1] == a + b[..|b| - 1];
      RunConcat(start, a, b[..|b| - 1]);
    }
  }

  lemma {:induction false} RunOne(start: State, m: Move)
    ensures Run(start, [m]) == Apply(start, m)
  {
    assert [m][..0] == [];
  }

  function Checks(call: nat, q: Request, order: seq<nat>): seq<Move> {
    [Move(call, Begin(q)), Move(call, Load), Move(call, Verify), Move(call, ReadClaims(order))]
  }

  /** The steps of a request up to its reading of the rival claims. */
  lemma {:induction false} ReachReleasing(s: State, call: nat, q: Request, order: seq<nat>)
    requires call !in s.calls && LowerText(q.deployment) && q.asset in s.table && s.table[q.asset].token.None?
    requires MayBind(s.table[q.asset], s.tokens, q) && ListsClaims(s.table, q, order)
    ensures Run(s, Checks(call, q, order)) == SetCall(s, call, Releasing(q, ClaimsIn(s.table, order)))
  {
    hide MayBind, LowerText, ClaimsIn;
    var s1 := SetCall(s, call, Started(q));
    var s2 := SetCall(s, call, Loaded(q, s.table[q.asset]));
    var s3 := SetCall(s, call, Verified(q));
    var ms := Checks(call, q, order);
    assert Apply(s, ms[0]) == s1;
    assert Apply(s1, ms[1]) == s2 by { assert s1.calls[call := Loaded(q, s.table[q.asset])] == s2.calls; }
    assert Apply(s2, ms[2]) == s3 by { assert s2.calls[call := Verified(q)] == s3.calls; }
    var s4 := SetCall(s, call, Releasing(q, ClaimsIn(s.table, order)));
    assert Apply(s3, ms[3]) == s4 by { assert s3.calls[call := Releasing(q, ClaimsIn(s.table, order))] == s4.calls; }
    RunFour(s, s1, s2, s3, s4, ms);
  }

  lemma {:induction false} RunFour(s: State, s1: State, s2: State, s3: State, s4: State, ms: seq<Move>)
    requires |ms| == 4 && Apply(s, ms[0]) == s1 && Apply(s1, ms[1]) == s2 && Apply(s2, ms[2]) == s3
      && Apply(s3, ms[3]) == s4
    ensures Run(s, ms) == s4
  {
    hide Apply;
    assert ms[..1][..0] == [] && Run(s, ms[..1]) == s1;
    assert ms[..2][..1] == ms[..1] && Run(s, ms[..2]) == s2;
    assert ms[..3][..2] == ms[..2] && Run(s, ms[..3]) == s3;
  }

  function Releases(call: nat, n: nat): seq<Move> {
    if n == 0 then [] else [Move(call, ReleaseNext)] + Releases(call, n - 1)
  }

  predicate Skipped(q: Request, chainHash: Text, claims: seq<Claim>) {
    forall i | 0 <= i < |claims| :: ClassifyClaim(claims[i], chainHash, q.deployment) == OtherDeployment
  }

  lemma SkipOne(s: State, call: nat, q: Request, claims: seq<Claim>)
    requires call in s.calls && s.calls[call] == Releasing(q, claims) && (q.deployment, q.token) in s.tokens
      && claims != []
    requires ClassifyClaim(claims[0], s.tokens[(q.deployment, q.token)].hash, q.deployment) == OtherDeployment
    ensures Apply(s, Move(call, ReleaseNext)) == SetCall(s, call, Releasing(q, claims[1..]))
  {
    hide ClassifyClaim;
  }

  /** Claims of other deployments are passed over one by one. */
  lemma {:induction false} SkipClaims(s: State, call: nat, q: Request, claims: seq<Claim>)
    requires call in s.calls && s.calls[call] == Releasing(q, claims) && (q.deployment, q.token) in s.tokens
    requires Skipped(q, s.tokens[(q.deployment, q.token)].hash, claims)
    ensures Run(s, Releases(call, |claims|)) == SetCall(s, call, Releasing(q, []))
    decreases |claims|
  {
    if claims == [] {
      assert s.calls[call := Releasing(q, [])] == s.calls;
    } else {
      hide Run, Apply, ClassifyClaim;
      var m := Move(call, ReleaseNext);
      var next := SetCall(s, call, Releasing(q, claims[1..]));
      SkipOne(s, call, q, claims);
      SkipClaims(next, call, q, claims[1..]);
      RunConcat(s, [m], Releases(call, |claims| - 1));
      RunOne(s, m);
      assert next.calls[call := Releasing(q, [])] == s.calls[call := Releasing(q, [])];
    }
  }

  // ---- the race ----

  function Claimants(table: Table, token: nat): set<nat> { set id | id in table && table[id].token == Some(token) }

  /**
   A bound row whose hash is not what deployment d holds for its token, two drafts that may
   be bound to that token on d, and deployment e that vouches for the row. All other rows with
   the token are stamped, and not by e.
   */
  predicate RaceSetting(s: State, row: nat, q: Request, r: Request, own: Request) {
    && row in s.table && q.asset in s.table && r.asset in s.table
    && own.asset == row && own.token == q.token && r.token == q.token && r.deployment == q.deployment
    && LowerText(q.deployment) && LowerText(own.deployment)
    && s.table[row].token == Some(q.token)
    && (s.table[row].stamp.None? || s.table[row].stamp == Some(q.deployment))
    && s.table[q.asset].token.None? && s.table[r.asset].token.None?
    && MayBind(s.table[q.asset], s.tokens, q) && MayBind(s.table[r.asset], s.tokens, r)
    && MayBind(s.table[row], s.tokens, own)
    && (q.deployment, q.token) in s.tokens && !SameHex(s.table[row].hash, s.tokens[(q.deployment, q.token)].hash)
    && forall id | id in Claimants(s.table, q.token) && id != row ::
         s.table[id].stamp.Some? && LowerText(s.table[id].stamp.value) && s.table[id].stamp.value != own.deployment
  }

  function RaceMoves(q: Request, r: Request, own: Request, row: nat, others: seq<nat>): seq<Move> {
    Checks(0, q, [row] + others) + (Checks(1, r, [row] + others) + ([Move(1, ReleaseNext)]
    + (Checks(2, own, others) + (Releases(2, |others|) + [Move(2, Bind)]))))
  }

  lemma {:induction false} Enumerate(ids: set<nat>) returns (order: seq<nat>)
    ensures |order| == |ids| && forall id :: id in order <==> id in ids
    decreases |ids|
  {
    if ids == {} {
      order := [];
    } else {
      var id :| id in ids;
      var rest := Enumerate(ids - {id});
      order := [id] + rest;
    }
  }

  lemma RowFirst(table: Table, row: nat, q: Request, others: seq<nat>)
    requires row in table && table[row].token == Some(q.token) && q.asset in table && table[q.asset].token.None?
    requires |others| == |Claimants(table, q.token) - {row}|
    requires forall id :: id in others <==> id in Claimants(table, q.token) - {row}
    ensures ListsClaims(table, q, [row] + others)
    ensures ClaimsIn(table, [row] + others) == [ClaimOf(table, row)] + ClaimsIn(table, others)
  {
    assert ClaimIds(table, q) == Claimants(table, q.token);
    assert Claimants(table, q.token) == (Claimants(table, q.token) - {row}) + {row};
  }

  lemma OthersOnly(table: Table, freed: Table, row: nat, own: Request, others: seq<nat>)
    requires row in table && freed == table[row := table[row].(token := None, mintTx := None)] && own.asset == row
    requires |others| == |Claimants(table, own.token) - {row}|
    requires forall id :: id in others <==> id in Claimants(table, own.token) - {row}
    ensures ListsClaims(freed, own, others)
    ensures forall i | 0 <= i < |others| ::
      others[i] in table && ClaimsIn(freed, others)[i] == ClaimOf(table, others[i])
  {
    assert ClaimIds(freed, own) == Claimants(table, own.token) - {row};
    forall i | 0 <= i < |others| ensures others[i] in Claimants(table, own.token) && others[i] != row {
      assert others[i] in others;
    }
  }

  lemma OthersSkipped(s: State, row: nat, own: Request, claims: seq<Claim>, others: seq<nat>, chainHash: Text)
    requires LowerText(own.deployment) && |claims| == |others|
    requires forall i | 0 <= i < |others| :: others[i] in s.table && claims[i] == ClaimOf(s.table, others[i])
    requires forall i | 0 <= i < |others| ::
      var stamp := s.table[others[i]].stamp;
      stamp.Some? && LowerText(stamp.value) && stamp.value != own.deployment
    ensures Skipped(own, chainHash, claims)
  {
  }

  /** A contradicted claim of the row as it still is takes the token away, whatever its stamp now. */
  lemma RaceRelease(s: State, call: nat, q: Request, c: Claim, rest: seq<Claim>)
    requires call in s.calls && s.calls[call] == Releasing(q, [c] + rest) && (q.deployment, q.token) in s.tokens
    requires c.id in s.table && s.table[c.id].token == Some(q.token) && (c.stamp.None? || c.stamp == Some(q.deployment))
    requires !SameHex(c.hash, s.tokens[(q.deployment, q.token)].hash)
    ensures Apply(s, Move(call, ReleaseNext)) == SetCall(s, call, Releasing(q, rest)).(
      table := s.table[c.id := s.table[c.id].(token := None, mintTx := None)])
  {
    assert ([c] + rest)[1..] == rest;
  }

  lemma BindsFree(s: State, call: nat, own: Request)
    requires call in s.calls && s.calls[call] == Releasing(own, [])
    requires own.asset in s.table && s.table[own.asset].token.None? && !Taken(s.table, own)
    ensures Apply(s, Move(call, Bind)).table == s.table[own.asset := s.table[own.asset].(
      token := Some(own.token), stamp := Some(own.deployment), mintTx := Some(own.txHash))]
    ensures var s' := Apply(s, Move(call, Bind));
      s'.tokens == s.tokens && forall k | k in s.calls && k != call :: k in s'.calls && s'.calls[k] == s.calls[k]
  {
    hide Taken;
  }

  lemma MayBindFreed(a: Asset, b: Asset, tokens: Tokens, q: Request)
    requires MayBind(a, tokens, q) && SameRecord(a, b)
    ensures MayBind(b, tokens, q) && (q.deployment, q.token) in tokens
  {
  }

  lemma MayBindAgrees(a: Asset, b: Asset, tokens: Tokens, q: Request)
    requires MayBind(a, tokens, q) && SameRecord(a, b) && b.token == Some(q.token) && b.stamp == Some(q.deployment)
    ensures Agreed(tokens, b)
  {
    hide SameHex;
  }

  lemma {:induction false} RaceRun(s0: State, s1: State, s2: State, s3: State, s4: State, s5: State, s6: State,
                                   row: nat, q: Request, r: Request, own: Request, others: seq<nat>)
    requires Run(s0, Checks(0, q, [row] + others)) == s1 && Run(s1, Checks(1, r, [row] + others)) == s2
    requires Apply(s2, Move(1, ReleaseNext)) == s3 && Run(s3, Checks(2, own, others)) == s4
    requires Run(s4, Releases(2, |others|)) == s5 && Apply(s5, Move(2, Bind)) == s6
    ensures Run(s0, RaceMoves(q, r, own, row, others)) == s6
  {
    hide Run, Apply, Checks, Releases;
    var ends := Releases(2, |others|) + [Move(2, Bind)];
    var last := Checks(2, own, others) + ends;
    RunConcat(s0, Checks(0, q, [row] + others), Checks(1, r, [row] + others) + ([Move(1, ReleaseNext)] + last));
    RunConcat(s1, Checks(1, r, [row] + others), [Move(1, ReleaseNext)] + last);
    RunConcat(s2, [Move(1, ReleaseNext)], last);
    RunOne(s2, Move(1, ReleaseNext));
    RunConcat(s3, Checks(2, own, others), ends);
    RunConcat(s4, Releases(2, |others|), [Move(2, Bind)]);
    RunOne(s5, Move(2, Bind));
  }

  /** What the three requests read, and that the last of them may bind. */
  lemma RaceReads(s: State, row: nat, q: Request, r: Request, own: Request, others: seq<nat>)
    requires RaceSetting(s, row, q, r, own)
    requires |others| == |Claimants(s.table, q.token) - {row}|
    requires forall id :: id in others <==> id in Claimants(s.table, q.token) - {row}
    ensures var c, claims := ClaimOf(s.table, row), ClaimsIn(s.table, others);
      && ListsClaims(s.table, q, [row] + others) && ClaimsIn(s.table, [row] + others) == [c] + claims
      && ListsClaims(s.table, r, [row] + others)
    ensures var freed := s.table[row := s.table[row].(token := None, mintTx := None)];
      && ListsClaims(freed, own, others) && MayBind(freed[row], s.tokens, own) && !Taken(freed, own)
      && Skipped(own, s.tokens[(own.deployment, own.token)].hash, ClaimsIn(freed, others))
  {
    var freed := s.table[row := s.table[row].(token := None, mintTx := None)];
    RowFirst(s.table, row, q, others);
    RowFirst(s.table, row, r, others);
    OthersOnly(s.table, freed, row, own, others);
    MayBindFreed(s.table[row], freed[row], s.tokens, own);
    forall i | 0 <= i < |others| ensures others[i] in Claimants(s.table, q.token) && others[i] != row {
      assert others[i] in others;
    }
    OthersSkipped(s, row, own, ClaimsIn(freed, others), others, s.tokens[(own.deployment, own.token)].hash);
  }

  /**
   Between reading the claims and releasing them the row is bound again, on a deployment that
   vouches for it, and the release does not look at the stamp.
   */
  lemma StaleReleaseRace(s0: State, row: nat, q: Request, r: Request, own: Request) returns (moves: seq<Move>)
    requires RaceSetting(s0, row, q, r, own) && s0.calls == map[]
    ensures var s := Run(s0, moves);
      && row in s.table && Agreed(s.tokens, s.table[row]) && NewlyReleased(s, Apply(s, Move(0, ReleaseNext)), row)
  {
    var others := Enumerate(Claimants(s0.table, q.token) - {row});
    RaceReads(s0, row, q, r, own, others);
    var freed := s0.table[row := s0.table[row].(token := None, mintTx := None)];
    var c, claims, ownClaims := ClaimOf(s0.table, row), ClaimsIn(s0.table, others), ClaimsIn(freed, others);
    hide MayBind, SameHex, LowerText, ListsClaims, ClaimsIn, Taken, Run, Apply, Skipped, Claimants;
    var s1 := SetCall(s0, 0, Releasing(q, [c] + claims));
    ReachReleasing(s0, 0, q, [row] + others);
    var s2 := SetCall(s1, 1, Releasing(r, [c] + claims));
    ReachReleasing(s1, 1, r, [row] + others);
    var s3 := SetCall(s2, 1, Releasing(r, claims)).(table := freed);
    RaceRelease(s2, 1, r, c, claims);
    var s4 := SetCall(s3, 2, Releasing(own, ownClaims));
    ReachReleasing(s3, 2, own, others);
    var s5 := SetCall(s4, 2, Releasing(own, []));
    SkipClaims(s4, 2, own, ownClaims);
    BindsFree(s5, 2, own);
    var s6 := Apply(s5, Move(2, Bind));
    RaceRun(s0, s1, s2, s3, s4, s5, s6, row, q, r, own, others);
    moves := RaceMoves(q, r, own, row, others);
    MayBindAgrees(freed[row], s6.table[row], s0.tokens, own);
    RaceRelease(s6, 0, q, c, claims);
  }

  // ---- tables every deployment vouches for ----

  /** The row is stamped, and its deployment holds the row's hash for its token. */
  predicate Held(tokens: Tokens, r: Asset) {
    r.token.Some? && r.stamp.Some? && (r.stamp.value, r.token.value) in tokens
    && SameHex(tokens[(r.stamp.value, r.token.value)].hash, r.hash)
  }

  ghost predicate AllHeld(table: Table, tokens: Tokens) {
    forall id | id in table && table[id].token.Some? :: Held(tokens, table[id])
  }

  /** No pending claim will ever be released. */
  predicate Harmless(tokens: Tokens, q: Request, c: Claim) {
    (q.deployment, q.token) in tokens ==>
      ClassifyClaim(c, tokens[(q.deployment, q.token)].hash, q.deployment) != Release
  }

  ghost predicate AllHarmless(s: State) {
    forall k | k in s.calls && s.calls[k].Releasing? :: HarmlessClaims(s.tokens, s.calls[k].request, s.calls[k].claims)
  }

  ghost predicate HarmlessClaims(tokens: Tokens, q: Request, claims: seq<Claim>) {
    forall i | 0 <= i < |claims| :: Harmless(tokens, q, claims[i])
  }

  lemma ReleasesNothing(s: State, m: Move, id: nat)
    requires Inv(s) && AllHarmless(s)
    ensures !NewlyReleased(s, Apply(s, m), id)
  {
    if m.call in s.calls && s.calls[m.call].Releasing? && s.calls[m.call].claims != [] {
      assert Harmless(s.tokens, s.calls[m.call].request, s.calls[m.call].claims[0]);
    }
    hide Apply;
    if NewlyReleased(s, Apply(s, m), id) { ReleasesContradicted(s, m, id); }
  }

  lemma AgreedHeld(tokens: Tokens, r: Asset)
    requires Agreed(tokens, r)
    ensures Held(tokens, r)
  {
    hide SameHex;
  }

  lemma HeldLater(s: State, s': State, r: Asset)
    requires Later(s, s') && Held(s.tokens, r)
    ensures Held(s'.tokens, r)
  {
    hide SameHex;
  }

  lemma RowBefore(s: State, m: Move, id: nat)
    requires id in Apply(s, m).table && Apply(s, m).table[id].token.Some?
    ensures id in s.table
  {
    hide Taken, ListsClaims, ClaimsIn, ClassifyClaim, MayBind;
  }

  lemma HeldStep(s: State, m: Move)
    requires Inv(s) && AllHeld(s.table, s.tokens) && AllHarmless(s)
    ensures AllHeld(Apply(s, m).table, Apply(s, m).tokens)
  {
    var s' := Apply(s, m);
    StepKeeps(s, m);
    hide Apply, Inv, Later, Held, AllHarmless;
    forall id | id in s'.table && s'.table[id].token.Some? ensures Held(s'.tokens, s'.table[id]) {
      RowBefore(s, m, id);
      if s.table[id].token.None? {
        BindsAgreed(s, m, id);
        AgreedHeld(s'.tokens, s'.table[id]);
      } else {
        ReleasesNothing(s, m, id);
        BoundRowKept(s, m, id);
        HeldLater(s, s', s.table[id]);
      }
    }
  }

  /** A claim on a row its deployment vouches for conflicts or is another deployment's. */
  lemma HeldHarmless(tokens: Tokens, r: Asset, id: nat, q: Request)
    requires Held(tokens, r) && r.token == Some(q.token) && LowerText(r.stamp.value) && LowerText(q.deployment)
    ensures Harmless(tokens, q, Claim(id, r.hash, r.stamp))
  {
  }

  lemma HarmlessLater(s: State, s': State, q: Request, c: Claim)
    requires Later(s, s') && Harmless(s.tokens, q, c) && (q.deployment, q.token) in s.tokens
    ensures Harmless(s'.tokens, q, c)
  {
    hide ClassifyClaim;
  }

  lemma ReleasingToken(s: State, k: nat)
    requires Inv(s) && k in s.calls && (s.calls[k].Releasing? || s.calls[k].Verified?)
    ensures var q := s.calls[k].request; (q.deployment, q.token) in s.tokens && LowerText(q.deployment)
  {
    assert CallKnown(s, s.calls[k]);
  }

  lemma ReadHarmless(s: State, q: Request, order: seq<nat>)
    requires AllHeld(s.table, s.tokens) && LowerStamps(s.table) && ListsClaims(s.table, q, order)
      && LowerText(q.deployment)
    ensures HarmlessClaims(s.tokens, q, ClaimsIn(s.table, order))
  {
    hide Harmless, LowerText, SameHex;
    forall i | 0 <= i < |order| ensures Harmless(s.tokens, q, ClaimsIn(s.table, order)[i]) {
      assert order[i] in ClaimIds(s.table, q);
      HeldHarmless(s.tokens, s.table[order[i]], order[i], q);
    }
  }

  lemma HarmlessStep(s: State, m: Move)
    requires Inv(s) && AllHeld(s.table, s.tokens) && AllHarmless(s)
    ensures AllHarmless(Apply(s, m))
  {
    var s' := Apply(s, m);
    StepKeeps(s, m);
    InvTable(s);
    forall k | k in s'.calls && s'.calls[k].Releasing?
      ensures HarmlessClaims(s'.tokens, s'.calls[k].request, s'.calls[k].claims)
    {
      ClaimsBefore(s, m, k);
      ReleasingToken(s, k);
      hide Apply, Inv, Later, Harmless, AllHeld, ListsClaims, ClaimsIn, LowerText, LowerStamps, UniqueTokens;
      var q, claims := s.calls[k].request, s'.calls[k].claims;
      if s.calls[k].Verified? {
        var order :| ListsClaims(s.table, q, order) && claims == ClaimsIn(s.table, order);
        ReadHarmless(s, q, order);
      }
      forall i | 0 <= i < |claims| ensures Harmless(s'.tokens, q, claims[i]) {
        assert Harmless(s.tokens, q, claims[i]);
        HarmlessLater(s, s', q, claims[i]);
      }
    }
  }

  lemma {:induction false} HeldRun(table: Table, tokens: Tokens, moves: seq<Move>)
    requires UniqueTokens(table) && LowerStamps(table) && AllHeld(table, tokens)
    ensures var s := Run(Initial(table, tokens), moves); AllHeld(s.table, s.tokens) && AllHarmless(s)
  {
    if moves == [] {
    } else {
      var before, m := moves[..|moves| - 1], moves[|moves| - 1];
      LastStep(Initial(table, tokens), moves);
      hide Apply, Inv, AllHeld, AllHarmless, Run;
      HeldRun(table, tokens, before);
      Invariant(table, tokens, before);
      HeldStep(Run(Initial(table, tokens), before), m);
      HarmlessStep(Run(Initial(table, tokens), before), m);
    }
  }

  /** From such a table no run of any number of deployments ever takes a token away from a row. */
  lemma {:induction false} HeldNeverReleased(table: Table, tokens: Tokens, moves: seq<Move>, m: Move, id: nat)
    requires UniqueTokens(table) && LowerStamps(table) && AllHeld(table, tokens)
    ensures var s := Run(Initial(table, tokens), moves); !NewlyReleased(s, Apply(s, m), id)
  {
    hide Apply, Inv, AllHeld, AllHarmless, Run;
    HeldRun(table, tokens, moves);
    Invariant(table, tokens, moves);
    ReleasesNothing(Run(Initial(table, tokens), moves), m, id);
  }

  /** And so every success lasts, with any number of deployments. */
  lemma {:induction false} HeldSuccessLasts(table: Table, tokens: Tokens, moves: seq<Move>, q: Request)
    requires UniqueTokens(table) && LowerStamps(table) && AllHeld(table, tokens)
    requires q in Run(Initial(table, tokens), moves).successes
    ensures SuccessKnown(Run(Initial(table, tokens), moves), q)
  {
    hide Run, Apply, AllHeld, SuccessKnown, UniqueTokens, LowerStamps;
    forall n: nat, id: nat ensures !LostAt(Initial(table, tokens), moves, n, id) {
      if n < |moves| { HeldNeverReleased(table, tokens, moves[..n], moves[n], id); }
    }
    SuccessLasts(table, tokens, moves, q);
  }

  // ---- from any other table some run loses a binding ----

  lemma {:induction false} LongerThan(texts: set<Text>) returns (n: nat)
    ensures forall t | t in texts :: |t| < n
    decreases |texts|
  {
    if texts == {} {
      n := 0;
    } else {
      var t :| t in texts;
      var m := LongerThan(texts - {t});
      assert forall u | u in texts :: u == t || u in texts - {t};
      n := if |t| >= m then |t| + 1 else m;
    }
  }

  lemma FreshText(texts: set<Text>) returns (t: Text)
    ensures t !in texts && LowerText(t)
  {
    var n := LongerThan(texts);
    t := seq(n, _ => 48);
  }

  lemma {:induction false} FreshId(ids: set<nat>) returns (n: nat)
    ensures forall id | id in ids :: id < n
    decreases |ids|
  {
    if ids == {} {
      n := 0;
    } else {
      var id :| id in ids;
      var m := FreshId(ids - {id});
      assert forall other | other in ids :: other == id || other in ids - {id};
      n := if id >= m then id + 1 else m;
    }
  }

  /** Every deployment a stamp or a token names. */
  function Deployments(table: Table, tokens: Tokens): set<Text> {
    (set id | id in table && table[id].stamp.Some? :: table[id].stamp.value) + (set k | k in tokens :: k.0)
  }

  /** A row to lose: no other row with its token is unstamped. */
  predicate Losable(table: Table, tokens: Tokens, row: nat) {
    && row in table && table[row].token.Some? && !Held(tokens, table[row])
    && forall id | id in Claimants(table, table[row].token.value) && id != row :: table[id].stamp.Some?
  }

  lemma SomeLosable(table: Table, tokens: Tokens) returns (row: nat)
    requires UniqueTokens(table) && !AllHeld(table, tokens)
    ensures Losable(table, tokens, row)
  {
    if u: nat :| u in table && table[u].token.Some? && table[u].stamp.None? {
      row := u;
    } else {
      row :| row in table && table[row].token.Some? && !Held(tokens, table[row]);
    }
  }

  /** Two mints and two drafts prepare the race on deployments d and e. */
  function Setup(row: Asset, token: nat, d: Text, e: Text, a: nat, b: nat, onD: Token): seq<Move> {
    [Move(0, Mint(d, token, onD)), Move(0, Mint(e, token, Token(row.orgId, row.hash)))]
    + [Move(0, Draft(a, onD.orgId, onD.hash, None)), Move(0, Draft(b, onD.orgId, onD.hash, None))]
  }

  lemma SetupRun(table: Table, tokens: Tokens, row: Asset, token: nat, d: Text, e: Text, a: nat, b: nat, onD: Token)
    requires a !in table && b !in table && a != b && (e, token) !in tokens && d != e
    requires (d, token) in tokens ==> tokens[(d, token)] == onD
    ensures Run(Initial(table, tokens), Setup(row, token, d, e, a, b, onD)) == Initial(
      table[a := Asset(onD.orgId, onD.hash, None, None, None)][b := Asset(onD.orgId, onD.hash, None, None, None)],
      tokens[(d, token) := onD][(e, token) := Token(row.orgId, row.hash)])
  {
    var ms := Setup(row, token, d, e, a, b, onD);
    var s0 := Initial(table, tokens);
    var s1 := Initial(table, tokens[(d, token) := onD]);
    var s2 := Initial(table, tokens[(d, token) := onD][(e, token) := Token(row.orgId, row.hash)]);
    var s3 := s2.(table := table[a := Asset(onD.orgId, onD.hash, None, None, None)]);
    var s4 := s3.(table := s3.table[b := Asset(onD.orgId, onD.hash, None, None, None)]);
    assert (d, token) in tokens ==> tokens[(d, token) := onD] == tokens;
    hide Advance;
    RunFour(s0, s1, s2, s3, s4, ms);
  }

  lemma LongerHash(h: Text)
    ensures !SameHex(h, h + [48]) && !SameHex(h + [48], h)
  {
  }

  /** After the setup the race can begin. */
  lemma SetupRaces(table: Table, tokens: Tokens, row: nat, d: Text, e: Text, a: nat, b: nat, onD: Token,
                   q: Request, r: Request, own: Request, s: State)
    requires LowerStamps(table) && Losable(table, tokens, row)
    requires a !in table && b !in table && d != e && LowerText(d) && LowerText(e) && e !in Deployments(table, tokens)
    requires table[row].stamp.None? || table[row].stamp == Some(d)
    requires !SameHex(table[row].hash, onD.hash)
    requires q == Request(a, table[row].token.value, [], d) && r == Request(b, q.token, [], d)
      && own == Request(row, q.token, [], e)
    requires s == Initial(
      table[a := Asset(onD.orgId, onD.hash, None, None, None)][b := Asset(onD.orgId, onD.hash, None, None, None)],
      tokens[(d, q.token) := onD][(e, q.token) := Token(table[row].orgId, table[row].hash)])
    ensures RaceSetting(s, row, q, r, own)
  {
    hide SameHex, LowerText;
    SameHexSelf(onD.hash);
    SameHexSelf(table[row].hash);
    forall id | id in Claimants(s.table, q.token) && id != row
      ensures s.table[id].stamp.Some? && LowerText(s.table[id].stamp.value) && s.table[id].stamp.value != e
    {
      assert id in Claimants(table, q.token);
      assert table[id].stamp.value in Deployments(table, tokens);
    }
  }

  lemma SameHexSelf(h: Text)
    ensures SameHex(h, h)
  {
  }

  /** Where the row's own claim will be contradicted: its stamp, or a deployment yet unknown. */
  lemma Contradicting(table: Table, tokens: Tokens, row: nat) returns (d: Text, onD: Token)
    requires LowerStamps(table) && Losable(table, tokens, row)
    ensures LowerText(d) && (table[row].stamp.None? || table[row].stamp == Some(d))
    ensures !SameHex(table[row].hash, onD.hash)
    ensures (d, table[row].token.value) in tokens ==> tokens[(d, table[row].token.value)] == onD
  {
    var token, h := table[row].token.value, table[row].hash;
    LongerHash(h);
    onD := Token(table[row].orgId, h + [48]);
    if table[row].stamp.None? {
      d := FreshText(Deployments(table, tokens));
      assert (d, token) in tokens ==> (d, token).0 in Deployments(table, tokens);
    } else {
      d := table[row].stamp.value;
      if (d, token) in tokens {
        onD := tokens[(d, token)];
        SameHexFlip(onD.hash, h);
      }
    }
  }

  lemma LosesIt(table: Table, tokens: Tokens, row: nat) returns (moves: seq<Move>, n: nat)
    requires LowerStamps(table) && Losable(table, tokens, row)
    ensures LostAt(Initial(table, tokens), moves, n, row)
  {
    var token := table[row].token.value;
    var d, onD := Contradicting(table, tokens, row);
    var e := FreshText(Deployments(table, tokens) + {d});
    assert (e, token) in tokens ==> (e, token).0 in Deployments(table, tokens);
    var a := FreshId(table.Keys);
    var b := a + 1;
    var q, r, own := Request(a, token, [], d), Request(b, token, [], d), Request(row, token, [], e);
    SetupRun(table, tokens, table[row], token, d, e, a, b, onD);
    var setup := Setup(table[row], token, d, e, a, b, onD);
    var s := Run(Initial(table, tokens), setup);
    SetupRaces(table, tokens, row, d, e, a, b, onD, q, r, own, s);
    hide Run, Apply, RaceSetting, Losable, Agreed, NewlyReleased, Setup, Deployments, LowerText;
    var race := StaleReleaseRace(s, row, q, r, own);
    RunConcat(Initial(table, tokens), setup, race);
    n := |setup + race|;
    moves := setup + race + [Move(0, ReleaseNext)];
    assert moves[..n] == setup + race;
  }

  /**
   Some run, of any number of deployments, takes away a binding the chain agrees with, exactly
   when the table has a bound row that is unstamped or whose deployment does not hold its hash
   for its token.
   */
  lemma LossExactly(table: Table, tokens: Tokens)
    requires UniqueTokens(table) && LowerStamps(table)
    ensures (exists moves, n: nat, id: nat :: LostAt(Initial(table, tokens), moves, n, id)) <==> !AllHeld(table, tokens)
  {
    hide Run, Apply, AllHeld, UniqueTokens, LowerStamps, Agreed;
    if AllHeld(table, tokens) {
      forall moves, n: nat, id: nat ensures !LostAt(Initial(table, tokens), moves, n, id) {
        if n < |moves| { HeldNeverReleased(table, tokens, moves[..n], moves[n], id); }
      }
    } else {
      var row := SomeLosable(table, tokens);
      var moves, n := LosesIt(table, tokens, row);
    }
  }
}
