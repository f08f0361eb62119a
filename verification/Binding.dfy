/**
 Binding asset records to tokens. Many confirm requests, perhaps of servers on different
 AssetNFT deployments, read, release and bind rows of one table, one statement at a time.
 */
module Binding {
  import opened Texts

  /** A row of `assets`; the stamp is the deployment's address, always lowercase. */
  datatype Asset = Asset(orgId: int, hash: Text, token: Option<nat>, stamp: Option<Text>, mintTx: Option<Text>)

  type Table = map<nat, Asset>

  datatype Token = Token(orgId: int, hash: Text)

  /** The tokens of every deployment; what a token holds never changes. */
  type Tokens = map<(Text, nat), Token>

  predicate SameHex(a: Text, b: Text) { LowerAscii(a) == LowerAscii(b) }

  datatype Request = Request(asset: nat, token: nat, txHash: Text, deployment: Text)

  /** What `readClaims` returns of a row. */
  datatype Claim = Claim(id: nat, hash: Text, stamp: Option<Text>)

  datatype Verdict = OtherDeployment | Conflict | Release

  function ClassifyClaim(c: Claim, chainHash: Text, deployment: Text): Verdict {
    if c.stamp.Some? && !SameHex(c.stamp.value, deployment) then OtherDeployment
    else if SameHex(c.hash, chainHash) then Conflict
    else Release
  }

  /** The checks of the draft against the chain, before any row is changed. */
  predicate MayBind(draft: Asset, tokens: Tokens, q: Request) {
    && (q.deployment, q.token) in tokens
    && tokens[(q.deployment, q.token)].orgId == draft.orgId
    && SameHex(tokens[(q.deployment, q.token)].hash, draft.hash)
  }

  function ClaimIds(table: Table, q: Request): set<nat> {
    set id | id in table && id != q.asset && table[id].token == Some(q.token)
  }

  function ClaimOf(table: Table, id: nat): Claim
    requires id in table
  {
    Claim(id, table[id].hash, table[id].stamp)
  }

  /** `update … where id = … and token_id = …` */
  function ReleaseRow(table: Table, id: nat, token: nat): Table {
    if id in table && table[id].token == Some(token) then table[id := table[id].(token := None, mintTx := None)]
    else table
  }

  /** `unique (coalesce(contract_address, 'unstamped'), token_id)` would be violated. */
  predicate Taken(table: Table, q: Request) {
    exists id | id in table ::
      id != q.asset && table[id].token == Some(q.token) && table[id].stamp == Some(q.deployment)
  }

  /** `update … where id = … and token_id is null`; None when it changes nothing or fails. */
  function BindRow(table: Table, q: Request): Option<Table> {
    if q.asset !in table || table[q.asset].token.Some? || Taken(table, q) then None
    else
      var bound := table[q.asset].(token := Some(q.token), stamp := Some(q.deployment), mintTx := Some(q.txHash));
      Some(table[q.asset := bound])
  }

  // ---- one request at a time ----

  /** Releases claim after claim until one conflicts; false when one does. */
  function ReleaseAll(table: Table, claims: seq<Claim>, chainHash: Text, q: Request): (Table, bool)
    decreases |claims|
  {
    if claims == [] then (table, true)
    else
      match ClassifyClaim(claims[0], chainHash, q.deployment)
      case OtherDeployment => ReleaseAll(table, claims[1..], chainHash, q)
      case Conflict => (table, false)
      case Release => ReleaseAll(ReleaseRow(table, claims[0].id, q.token), claims[1..], chainHash, q)
  }

  /** The rows the query returns, each once, in the order it returns them. */
  predicate ListsClaims(table: Table, q: Request, order: seq<nat>) {
    && (forall id | id in order :: id in ClaimIds(table, q))
    && (forall id | id in ClaimIds(table, q) :: id in order)
    && |order| == |ClaimIds(table, q)|
  }

  function ClaimsIn(table: Table, order: seq<nat>): seq<Claim>
    requires forall id | id in order :: id in table
  {
    seq(|order|, i requires 0 <= i < |order| => ClaimOf(table, order[i]))
  }

  /** The whole route; true when it answers "verified". */
  function Confirm(table: Table, tokens: Tokens, q: Request, order: seq<nat>): (Table, bool)
    requires ListsClaims(table, q, order)
  {
    if q.asset !in table || table[q.asset].token.Some? || !MayBind(table[q.asset], tokens, q) then (table, false)
    else
      var (released, ok) := ReleaseAll(table, ClaimsIn(table, order), tokens[(q.deployment, q.token)].hash, q);
      if !ok then (released, false)
      else if BindRow(released, q).Some? then (BindRow(released, q).value, true)
      else (released, false)
  }

  class AssetTable {
    var rows: Table

    constructor ()
      ensures rows == map[]
    {
      rows := map[];
    }

    method ReleaseContradictedClaims(claims: seq<Claim>, chainHash: Text, q: Request) returns (ok: bool)
      modifies this
      ensures (rows, ok) == ReleaseAll(old(rows), claims, chainHash, q)
    {
      for i := 0 to |claims|
        invariant ReleaseAll(old(rows), claims, chainHash, q) == ReleaseAll(rows, claims[i..], chainHash, q)
      {
        var claim := claims[i];
        assert claims[i..][0] == claim && claims[i..][1..] == claims[i + 1..];
        if claim.stamp.Some? && !SameHex(claim.stamp.value, q.deployment) { continue; }
        if SameHex(claim.hash, chainHash) { return false; }
        if claim.id in rows && rows[claim.id].token == Some(q.token) {
          rows := rows[claim.id := rows[claim.id].(token := None, mintTx := None)];
        }
      }
      return true;
    }

    method BindToken(q: Request) returns (ok: bool)
      modifies this
      ensures ok <==> BindRow(old(rows), q).Some?
      ensures rows == if ok then BindRow(old(rows), q).value else old(rows)
    {
      if q.asset !in rows || rows[q.asset].token.Some? { return false; }
      if Taken(rows, q) { return false; }
      var bound := rows[q.asset].(token := Some(q.token), stamp := Some(q.deployment), mintTx := Some(q.txHash));
      rows := rows[q.asset := bound];
      return true;
    }

    method ConfirmRoute(tokens: Tokens, q: Request, order: seq<nat>) returns (verified: bool)
      requires ListsClaims(rows, q, order)
      modifies this
      ensures (rows, verified) == Confirm(old(rows), tokens, q, order)
    {
      if q.asset !in rows { return false; }
      var draft := rows[q.asset];
      if draft.token.Some? { return false; }
      if (q.deployment, q.token) !in tokens { return false; }
      var chainAsset := tokens[(q.deployment, q.token)];
      if chainAsset.orgId != draft.orgId || !SameHex(chainAsset.hash, draft.hash) { return false; }
      var released := ReleaseContradictedClaims(ClaimsIn(rows, order), chainAsset.hash, q);
      if !released { return false; }
      verified := BindToken(q);
    }
  }

  // ---- requests interleaved ----

  datatype Call =
    | Started(request: Request)
    | Loaded(request: Request, draft: Asset)
    | Verified(request: Request)
    | Releasing(request: Request, claims: seq<Claim>)
    | Ended

  /** `successes` remembers every request that answered "verified". */
  datatype State = State(table: Table, tokens: Tokens, calls: map<nat, Call>, successes: set<Request>)

  datatype Step =
    | Draft(id: nat, orgId: int, hash: Text, stamp: Option<Text>)
    | Mint(deployment: Text, token: nat, minted: Token)
    | Begin(request: Request)
    | Load
    | Verify
    | ReadClaims(order: seq<nat>)
    | ReleaseNext
    | Bind
    | Fail(applied: bool)  // an error ends the request, perhaps after its write took effect

  datatype Move = Move(call: nat, step: Step)

  predicate LowerText(t: Text) { LowerAscii(t) == t }

  function SetCall(s: State, id: nat, c: Call): State { s.(calls := s.calls[id := c]) }

  /** One turn of the loop over claims. */
  function ReleaseStep(s: State, id: nat, q: Request, claims: seq<Claim>): State
    requires claims != [] && (q.deployment, q.token) in s.tokens
  {
    match ClassifyClaim(claims[0], s.tokens[(q.deployment, q.token)].hash, q.deployment)
    case OtherDeployment => SetCall(s, id, Releasing(q, claims[1..]))
    case Conflict => SetCall(s, id, Ended)
    case Release => SetCall(s, id, Releasing(q, claims[1..])).(table := ReleaseRow(s.table, claims[0].id, q.token))
  }

  function BindStep(s: State, id: nat, q: Request, answered: bool): State {
    match BindRow(s.table, q)
    case None => SetCall(s, id, Ended)
    case Some(table) =>
      SetCall(s, id, Ended).(table := table, successes := if answered then s.successes + {q} else s.successes)
  }

  function Advance(s: State, id: nat, c: Call, step: Step): State {
    match (c, step)
    case (Started(q), Load) =>
      SetCall(s, id, if q.asset in s.table && s.table[q.asset].token.None? then Loaded(q, s.table[q.asset]) else Ended)
    case (Loaded(q, draft), Verify) => SetCall(s, id, if MayBind(draft, s.tokens, q) then Verified(q) else Ended)
    case (Verified(q), ReadClaims(order)) =>
      if ListsClaims(s.table, q, order) then
        SetCall(s, id, Releasing(q, ClaimsIn(s.table, order)))
      else s
    case (Releasing(q, claims), ReleaseNext) =>
      if claims != [] && (q.deployment, q.token) in s.tokens then ReleaseStep(s, id, q, claims) else s
    case (Releasing(q, claims), Bind) => if claims == [] then BindStep(s, id, q, true) else s
    case (Releasing(q, claims), Fail(applied)) =>
      if !applied then SetCall(s, id, Ended)
      else if claims == [] then BindStep(s, id, q, false)
      else if (q.deployment, q.token) in s.tokens then SetCall(ReleaseStep(s, id, q, claims), id, Ended)
      else SetCall(s, id, Ended)
    case (_, Fail(_)) => SetCall(s, id, Ended)
    case _ => s
  }

  /** A draft is stamped or not; a minted token is new; addresses are lowercase. */
  function Apply(s: State, m: Move): State {
    match m.step
    case Draft(id, orgId, hash, stamp) =>
      if id in s.table || (stamp.Some? && !LowerText(stamp.value)) then s
      else s.(table := s.table[id := Asset(orgId, hash, None, stamp, None)])
    case Mint(deployment, token, minted) =>
      if (deployment, token) in s.tokens then s else s.(tokens := s.tokens[(deployment, token) := minted])
    case Begin(q) => if m.call in s.calls || !LowerText(q.deployment) then s else SetCall(s, m.call, Started(q))
    case _ => if m.call in s.calls then Advance(s, m.call, s.calls[m.call], m.step) else s
  }

  function Initial(table: Table, tokens: Tokens): State { State(table, tokens, map[], {}) }

  function Run(start: State, moves: seq<Move>): State {
    if moves == [] then start else Apply(Run(start, moves[..|moves| - 1]), moves[|moves| - 1])
  }
}
