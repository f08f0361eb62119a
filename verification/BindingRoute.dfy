/**
 One confirm request as its statements are written, and that the interleaving system takes
 exactly those statements when nothing comes between them.
 */
module BindingRoute {
  import opened Texts
  import opened Binding
  import opened BindingFacts
  import opened BindingLoss

  // ---- the route, written out ----

  /** Another row of the token, unstamped or stamped with this deployment. */
  predicate Rival(r: Asset, q: Request) {
    r.token == Some(q.token) && (r.stamp.Some? ==> LowerAscii(r.stamp.value) == LowerAscii(q.deployment))
  }

  /** A draft whose hash and organization the chain holds for the token, and no rival's hash. */
  ghost predicate Confirmable(table: Table, tokens: Tokens, q: Request) {
    && q.asset in table && table[q.asset].token == None && (q.deployment, q.token) in tokens
    && var held := tokens[(q.deployment, q.token)];
    && held.orgId == table[q.asset].orgId && LowerAscii(held.hash) == LowerAscii(table[q.asset].hash)
    && forall id | id in table && id != q.asset && Rival(table[id], q) ::
         LowerAscii(table[id].hash) != LowerAscii(held.hash)
  }

  /** The row a confirmed request leaves of each row: bound, released, or as it was. */
  function RowAfter(id: nat, r: Asset, q: Request): Asset {
    if id == q.asset then Asset(r.orgId, r.hash, Some(q.token), Some(q.deployment), Some(q.txHash))
    else if Rival(r, q) then Asset(r.orgId, r.hash, None, r.stamp, None)
    else r
  }

  /** A rival whose hash the chain contradicts is released, any other row is kept. */
  predicate KeptOrReleased(r: Asset, r': Asset, q: Request, held: Text) {
    || r' == r
    || (Rival(r, q) && LowerAscii(r.hash) != LowerAscii(held) && r' == Asset(r.orgId, r.hash, None, r.stamp, None))
  }

  lemma VerdictExactly(r: Asset, id: nat, held: Text, q: Request)
    requires r.token == Some(q.token)
    ensures var v := ClassifyClaim(Claim(id, r.hash, r.stamp), held, q.deployment);
      && (v == OtherDeployment <==> !Rival(r, q))
      && (v == Conflict <==> Rival(r, q) && LowerAscii(r.hash) == LowerAscii(held))
  {
  }

  /** The query returns each such row once, in some order. */
  lemma ListsExactly(table: Table, q: Request, order: seq<nat>)
    ensures ListsClaims(table, q, order) <==>
      && Distinct(order)
      && forall id: nat :: id in order <==> id in table && id != q.asset && table[id].token == Some(q.token)
  {
    var ids := ClaimIds(table, q);
    OnceEach(order);
    assert (forall id: nat :: id in order <==> id in ids) ==> Ids(order) == ids;
    hide Distinct;
    assert forall id: nat :: id in ids <==> id in table && id != q.asset && table[id].token == Some(q.token);
  }

  function Ids(order: seq<nat>): set<nat> { set id | id in order }

  lemma {:induction false} OnceEach(order: seq<nat>)
    ensures |Ids(order)| <= |order|
    ensures |Ids(order)| == |order| <==> Distinct(order)
  {
    var ids := Ids(order);
    if order == [] {
      assert ids == {};
    } else {
      var last := |order| - 1;
      var init := order[..last];
      OnceEach(init);
      DistinctInit(order);
      hide Distinct;
      var before := Ids(init);
      assert order == init + [order[last]];
      assert ids == before + {order[last]};
      assert order[last] in before <==> order[last] in init;
      if order[last] in init {
        assert ids == before;
      } else {
        assert before * {order[last]} == {};
      }
    }
  }

  lemma DistinctInit(order: seq<nat>)
    requires order != []
    ensures var last := |order| - 1;
      Distinct(order) <==> Distinct(order[..last]) && order[last] !in order[..last]
  {
    var last := |order| - 1;
    var init := order[..last];
    if order[last] in init {
      var i :| 0 <= i < last && init[i] == order[last];
      assert order[i] == order[last];
    }
    if !Distinct(init) {
      var i, j :| 0 <= i < j < last && init[i] == init[j];
      assert order[i] == order[j];
    }
  }

  /** What is stated below of one row, for every claim that was listed. */
  lemma ListedVerdicts(table: Table, held: Text, q: Request, order: seq<nat>)
    requires ListsClaims(table, q, order)
    ensures forall i | 0 <= i < |order| ::
      && order[i] in table && order[i] != q.asset && ClaimsIn(table, order)[i].id == order[i]
      && var r, v := table[order[i]], ClassifyClaim(ClaimsIn(table, order)[i], held, q.deployment);
      && r.token == Some(q.token) && (v == OtherDeployment <==> !Rival(r, q))
      && (v == Conflict <==> Rival(r, q) && LowerAscii(r.hash) == LowerAscii(held))
    ensures forall id: nat | id in table && id != q.asset && table[id].token == Some(q.token) ::
      exists i :: 0 <= i < |order| && order[i] == id
  {
    hide ClassifyClaim;
    forall i | 0 <= i < |order|
      ensures order[i] in table && order[i] != q.asset && table[order[i]].token == Some(q.token)
      ensures var r, v := table[order[i]], ClassifyClaim(ClaimsIn(table, order)[i], held, q.deployment);
        && (v == OtherDeployment <==> !Rival(r, q))
        && (v == Conflict <==> Rival(r, q) && LowerAscii(r.hash) == LowerAscii(held))
    {
      assert order[i] in ClaimIds(table, q);
      VerdictExactly(table[order[i]], order[i], held, q);
    }
    forall id: nat | id in table && id != q.asset && table[id].token == Some(q.token)
      ensures exists i :: 0 <= i < |order| && order[i] == id
    {
      assert id in ClaimIds(table, q);
    }
  }

  lemma RivalToken(r: Asset, q: Request)
    requires Rival(r, q)
    ensures r.token == Some(q.token)
  {
  }

  /** The loop over the claims of one reading, written out: what it does to one row. */
  lemma {:induction false} LoopRow(table: Table, held: Text, q: Request, order: seq<nat>, id: nat)
    requires ListsClaims(table, q, order) && id in table
    ensures var table' := ReleaseAll(table, ClaimsIn(table, order), held, q).0;
      && id in table' && KeptOrReleased(table[id], table'[id], q, held)
      && (id == q.asset ==> table'[id] == table[id])
  {
    var claims := ClaimsIn(table, order);
    ReleaseAllExactly(table, claims, held, q);
    ListedVerdicts(table, held, q, order);
    hide ClassifyClaim, ReleaseAll, ListsClaims, LowerAscii, ClaimsIn, Rival;
  }

  /** When it goes through. */
  lemma {:induction false} LoopPasses(table: Table, held: Text, q: Request, order: seq<nat>)
    requires ListsClaims(table, q, order)
    ensures var (table', ok) := ReleaseAll(table, ClaimsIn(table, order), held, q);
      && (ok <==> forall id: nat | id in table && id != q.asset && Rival(table[id], q) ::
            LowerAscii(table[id].hash) != LowerAscii(held))
      && table'.Keys == table.Keys
      && (ok ==> forall id | id in table && id != q.asset && Rival(table[id], q) :: table'[id].token != Some(q.token))
  {
    var claims := ClaimsIn(table, order);
    var (table', ok) := ReleaseAll(table, claims, held, q);
    ReleaseAllExactly(table, claims, held, q);
    ListedVerdicts(table, held, q, order);
    hide ClassifyClaim, ReleaseAll, ListsClaims, LowerAscii, ClaimsIn, Rival;
    assert table'.Keys == table.Keys;
    forall id: nat | id in table && id != q.asset && Rival(table[id], q)
      ensures ok ==> LowerAscii(table[id].hash) != LowerAscii(held) && table'[id].token != Some(q.token)
    {
      RivalToken(table[id], q);
      var i :| 0 <= i < |order| && order[i] == id;
      assert claims[i].id == id;
    }
    if !ok {
      var i :| 0 <= i < |claims| && ClassifyClaim(claims[i], held, q.deployment) == Conflict;
      assert Rival(table[order[i]], q);
    }
  }

  lemma BoundExactly(table: Table, q: Request)
    ensures BindRow(table, q).Some? <==>
      && q.asset in table && table[q.asset].token == None
      && forall id: nat | id in table && id != q.asset ::
           !(table[id].token == Some(q.token) && table[id].stamp == Some(q.deployment))
    ensures BindRow(table, q).Some? ==>
      BindRow(table, q).value == table[q.asset := RowAfter(q.asset, table[q.asset], q)]
  {
  }

  /** What a request that fails may have done to a row. */
  predicate Spared(tokens: Tokens, q: Request, id: nat, r: Asset, r': Asset) {
    || r' == r
    || (id != q.asset && (q.deployment, q.token) in tokens
        && KeptOrReleased(r, r', q, tokens[(q.deployment, q.token)].hash))
  }

  /**
   The whole route: it succeeds exactly on a confirmable request, and then binds its row and
   releases every rival; otherwise it at most releases contradicted rivals.
   */
  lemma RouteExactly(table: Table, tokens: Tokens, q: Request, order: seq<nat>)
    requires ListsClaims(table, q, order)
    ensures var (table', ok) := Confirm(table, tokens, q, order);
      && (ok <==> Confirmable(table, tokens, q)) && table'.Keys == table.Keys
      && (ok ==> forall id | id in table :: table'[id] == RowAfter(id, table[id], q))
      && (!ok ==> forall id | id in table :: Spared(tokens, q, id, table[id], table'[id]))
  {
    assert forall id | id in order :: id in ClaimIds(table, q);
    hide ReleaseAll, BindRow, Rival, LowerAscii, ListsClaims;
    if q.asset in table && table[q.asset].token.None? && MayBind(table[q.asset], tokens, q) {
      var held := tokens[(q.deployment, q.token)].hash;
      var (released, ok) := ReleaseAll(table, ClaimsIn(table, order), held, q);
      LoopPasses(table, held, q, order);
      forall id | id in table
        ensures KeptOrReleased(table[id], released[id], q, held) && (id == q.asset ==> released[id] == table[id])
      {
        LoopRow(table, held, q, order, id);
      }
      BoundExactly(released, q);
      if ok { RivalsReleased(table, released, q, held); }
    }
  }

  lemma RivalsReleased(table: Table, released: Table, q: Request, held: Text)
    requires q.asset in table && released.Keys == table.Keys && released[q.asset] == table[q.asset]
    requires forall id | id in table :: KeptOrReleased(table[id], released[id], q, held)
    requires forall id | id in table && id != q.asset && Rival(table[id], q) :: released[id].token != Some(q.token)
    ensures forall id: nat | id in released && id != q.asset ::
      !(released[id].token == Some(q.token) && released[id].stamp == Some(q.deployment))
    ensures forall id | id in table && id != q.asset :: released[id] == RowAfter(id, table[id], q)
  {
    hide LowerAscii;
  }

  // ---- the system takes these statements ----

  /** What is left of a request that went through a table by itself. */
  predicate Finished(s: State, s': State, call: nat, table: Table, q: Request, ok: bool) {
    s' == State(table, s.tokens, s.calls[call := Ended], if ok then s.successes + {q} else s.successes)
  }

  lemma TurnAlone(s: State, call: nat, q: Request, claims: seq<Claim>)
    requires call in s.calls && s.calls[call] == Releasing(q, claims) && claims != []
    requires (q.deployment, q.token) in s.tokens
    ensures Apply(s, Move(call, ReleaseNext)) == ReleaseStep(s, call, q, claims)
  {
    hide ClassifyClaim, ReleaseRow, LowerText;
  }

  lemma BindAlone(s: State, call: nat, q: Request)
    requires call in s.calls && s.calls[call] == Releasing(q, [])
    ensures Apply(s, Move(call, Bind)) == BindStep(s, call, q, true)
  {
  }

  /** The loop and the bind. */
  lemma {:induction false} ReleasesAlone(s: State, call: nat, q: Request, claims: seq<Claim>) returns (ms: seq<Move>)
    requires call in s.calls && s.calls[call] == Releasing(q, claims) && (q.deployment, q.token) in s.tokens
    ensures forall i | 0 <= i < |ms| :: ms[i].call == call
    ensures var (released, ok) := ReleaseAll(s.table, claims, s.tokens[(q.deployment, q.token)].hash, q);
      var bound := if ok then BindRow(released, q) else None;
      Finished(s, Run(s, ms), call, if bound.Some? then bound.value else released, q, bound.Some?)
    decreases |claims|
  {
    hide BindRow, Run, Apply, ClassifyClaim, ReleaseRow;
    if claims == [] {
      BindAlone(s, call, q);
      ms := [Move(call, Bind)];
      RunOne(s, ms[0]);
    } else {
      var m := Move(call, ReleaseNext);
      TurnAlone(s, call, q, claims);
      RunOne(s, m);
      var next := Apply(s, m);
      if next.calls[call] == Ended {
        ms := [m];
      } else {
        var rest := ReleasesAlone(next, call, q, claims[1..]);
        ms := [m] + rest;
        RunConcat(s, [m], rest);
        assert next.calls[call := Ended] == s.calls[call := Ended];
      }
    }
  }

  /**
   From any state of the system, with any other requests in flight, a new request whose steps
   follow each other does what the route does: the same table, the same answer.
   */
  lemma SerialRequest(s: State, call: nat, q: Request, order: seq<nat>) returns (ms: seq<Move>)
    requires call !in s.calls && LowerAscii(q.deployment) == q.deployment && ListsClaims(s.table, q, order)
    ensures forall i | 0 <= i < |ms| :: ms[i].call == call
    ensures var (table, ok) := Confirm(s.table, s.tokens, q, order);
      Finished(s, Run(s, ms), call, table, q, ok)
  {
    assert forall id | id in order :: id in ClaimIds(s.table, q);
    hide Run, ReleaseAll, BindRow, ListsClaims, LowerAscii;
    if q.asset in s.table && s.table[q.asset].token.None? && MayBind(s.table[q.asset], s.tokens, q) {
      ReachReleasing(s, call, q, order);
      hide MayBind;
      var claims := ClaimsIn(s.table, order);
      var s1 := SetCall(s, call, Releasing(q, claims));
      var rest := ReleasesAlone(s1, call, q, claims);
      ms := Checks(call, q, order) + rest;
      RunConcat(s, Checks(call, q, order), rest);
      assert s1.calls[call := Ended] == s.calls[call := Ended];
    } else {
      ms := RefusedAlone(s, call, q);
    }
  }

  lemma RefusedAlone(s: State, call: nat, q: Request) returns (ms: seq<Move>)
    requires call !in s.calls && LowerText(q.deployment)
    requires !(q.asset in s.table && s.table[q.asset].token.None? && MayBind(s.table[q.asset], s.tokens, q))
    ensures forall i | 0 <= i < |ms| :: ms[i].call == call
    ensures Run(s, ms) == SetCall(s, call, Ended)
  {
    hide MayBind, LowerText, Run;
    var s1 := SetCall(s, call, Started(q));
    assert Apply(s, Move(call, Begin(q))) == s1;
    RunOne(s, Move(call, Begin(q)));
    RunOne(s1, Move(call, Load));
    if q.asset in s.table && s.table[q.asset].token.None? {
      var s2 := SetCall(s, call, Loaded(q, s.table[q.asset]));
      assert Apply(s1, Move(call, Load)) == s2 by { assert s1.calls[call := s2.calls[call]] == s2.calls; }
      RunOne(s2, Move(call, Verify));
      ms := [Move(call, Begin(q))] + ([Move(call, Load)] + [Move(call, Verify)]);
      RunConcat(s1, [Move(call, Load)], [Move(call, Verify)]);
      RunConcat(s, [Move(call, Begin(q))], [Move(call, Load)] + [Move(call, Verify)]);
      assert s2.calls[call := Ended] == s.calls[call := Ended];
    } else {
      ms := [Move(call, Begin(q))] + [Move(call, Load)];
      RunConcat(s, [Move(call, Begin(q))], [Move(call, Load)]);
      assert s1.calls[call := Ended] == s.calls[call := Ended];
    }
  }

  // ---- the other steps ----

  /** An answer "verified" is given by a bind that answered, and by nothing else. */
  lemma SuccessStep(s: State, m: Move, q: Request)
    requires q !in s.successes && q in Apply(s, m).successes
    ensures m.step == Bind && m.call in s.calls && s.calls[m.call] == Releasing(q, [])
  {
    hide ClassifyClaim, ReleaseRow, BindRow, MayBind, ListsClaims, LowerText;
  }

  /** Drafts appear under new ids, unstamped or with a lowercase stamp; minted tokens never change. */
  lemma WorldStep(s: State, m: Move)
    ensures m.step.Draft? && m.step.id !in s.table ==>
      Apply(s, m).table == (if m.step.stamp.Some? && LowerAscii(m.step.stamp.value) != m.step.stamp.value then s.table
        else s.table[m.step.id := Asset(m.step.orgId, m.step.hash, None, m.step.stamp, None)])
    ensures Apply(s, m).tokens == if m.step.Mint? && (m.step.deployment, m.step.token) !in s.tokens
      then s.tokens[(m.step.deployment, m.step.token) := m.step.minted] else s.tokens
  {
    hide ClassifyClaim, ReleaseRow, BindRow, MayBind, ListsClaims, LowerAscii;
  }
}
