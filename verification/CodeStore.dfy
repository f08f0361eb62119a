/**
 Authorization codes. Two stores with one contract: the in-memory map that checks and then
 marks, and the table changed by a conditional UPDATE.
 */
module CodeStore {
  import opened Texts

  const AUTHORIZATION_CODE_TTL_MS := 120_000

  datatype Grant = Grant(code: Text, clientId: Text, appSlug: Text, orgId: int, wallet: Text,
                         redirectUri: Text, expiresAt: int)

  datatype Row = Row(grant: Grant, usedAt: Option<int>)

  datatype Query = Query(code: Text, clientId: Text, redirectUri: Text, now: int)

  datatype Paid = Paid(appSlug: Text, orgId: int, wallet: Text, redirectUri: Text)

  /** The row an insert writes: the wallet lowercased, not used yet. */
  function NewRow(g: Grant): Row { Row(g.(wallet := LowerAscii(g.wallet)), None) }

  function Payout(g: Grant): Paid { Paid(g.appSlug, g.orgId, g.wallet, g.redirectUri) }

  /** What an unused code must still satisfy to be redeemed. */
  predicate Redeemable(g: Grant, q: Query) {
    g.code == q.code && g.clientId == q.clientId && g.redirectUri == q.redirectUri && q.now < g.expiresAt
  }

  // ---- the in-memory store ----

  type Rows = map<Text, Row>

  function InsertInto(rows: Rows, g: Grant): Option<Rows> {
    if g.code in rows then None else Some(rows[g.code := NewRow(g)])
  }

  function ConsumeFrom(rows: Rows, q: Query): (Rows, Option<Paid>) {
    if q.code in rows && rows[q.code].usedAt.None? && Redeemable(rows[q.code].grant, q) then
      (rows[q.code := rows[q.code].(usedAt := Some(q.now))], Some(Payout(rows[q.code].grant)))
    else (rows, None)
  }

  ghost predicate Keyed(rows: Rows) { forall c | c in rows :: rows[c].grant.code == c }

  class MemoryCodeStore {
    var rows: Rows

    constructor ()
      ensures rows == map[]
    {
      rows := map[];
    }

    /** False is the exception thrown for a duplicate code. */
    method Insert(g: Grant) returns (ok: bool)
      modifies this
      ensures ok <==> InsertInto(old(rows), g).Some?
      ensures rows == if ok then InsertInto(old(rows), g).value else old(rows)
    {
      if g.code in rows { return false; }
      rows := rows[g.code := Row(g.(wallet := LowerAscii(g.wallet)), None)];
      return true;
    }

    method Consume(q: Query) returns (r: Option<Paid>)
      requires Keyed(rows)
      modifies this
      ensures (rows, r) == ConsumeFrom(old(rows), q)
    {
      if q.code !in rows { return None; }
      var row := rows[q.code];
      if row.usedAt != None { return None; }
      if row.grant.clientId != q.clientId { return None; }
      if row.grant.redirectUri != q.redirectUri { return None; }
      if row.grant.expiresAt <= q.now { return None; }
      rows := rows[q.code := row.(usedAt := Some(q.now))];
      return Some(Paid(row.grant.appSlug, row.grant.orgId, row.grant.wallet, row.grant.redirectUri));
    }
  }

  // ---- the table ----

  /** `code` is the primary key. */
  ghost predicate PrimaryKey(table: set<Row>) {
    forall r, s | r in table && s in table && r.grant.code == s.grant.code :: r == s
  }

  predicate Matches(r: Row, q: Query) { r.usedAt.None? && Redeemable(r.grant, q) }

  /** The conditional UPDATE, over every row at once. */
  function Update(table: set<Row>, q: Query): set<Row> {
    set r | r in table :: if Matches(r, q) then r.(usedAt := Some(q.now)) else r
  }

  class SqlCodeStore {
    var table: set<Row>

    constructor ()
      ensures table == {}
    {
      table := {};
    }

    /** False is the error of a violated primary key. */
    method Insert(g: Grant) returns (ok: bool)
      requires PrimaryKey(table)
      modifies this
      ensures PrimaryKey(table)
      ensures ok <==> forall r | r in old(table) :: r.grant.code != g.code
      ensures table == if ok then old(table) + {NewRow(g)} else old(table)
    {
      if exists r :: r in table && r.grant.code == g.code { return false; }
      table := table + {NewRow(g)};
      return true;
    }

    /** One atomic step; the key makes the returned row the only one changed. */
    method Consume(q: Query) returns (r: Option<Paid>)
      requires PrimaryKey(table)
      modifies this
      ensures PrimaryKey(table)
      ensures table == Update(old(table), q)
      ensures r.None? <==> forall s | s in old(table) :: !Matches(s, q)
      ensures forall s | s in old(table) && Matches(s, q) :: r == Some(Payout(s.grant))
    {
      var matching := set s | s in table && Matches(s, q);
      table := Update(table, q);
      if matching == {} {
        assert forall s | s in old(table) :: Matches(s, q) ==> s in matching;
        r := None;
      } else {
        var s :| s in matching;
        r := Some(Payout(s.grant));
      }
    }
  }

  // ---- histories ----

  datatype Op = Insert(grant: Grant) | Consume(query: Query)

  datatype Answer = Inserted | Duplicate | Redeemed(paid: Paid) | Refused

  /** `consumeAuthorizationCode` refuses a code too short to be one without a lookup. */
  const MIN_CODE_LENGTH := 32

  function MemoryStep(rows: Rows, op: Op): (Rows, Answer) {
    match op
    case Insert(g) =>
      (match InsertInto(rows, g) case Some(rows') => (rows', Inserted) case None => (rows, Duplicate))
    case Consume(q) =>
      if |q.code| < MIN_CODE_LENGTH then (rows, Refused)
      else
        match ConsumeFrom(rows, q)
        case (rows', Some(p)) => (rows', Redeemed(p))
        case (rows', None) => (rows', Refused)
  }

  /** One operation of the table, as its methods specify it. */
  ghost predicate SqlStep(table: set<Row>, op: Op, table': set<Row>, answer: Answer) {
    match op
    case Insert(g) =>
      if exists r :: r in table && r.grant.code == g.code then table' == table && answer == Duplicate
      else table' == table + {NewRow(g)} && answer == Inserted
    case Consume(q) =>
      if |q.code| < MIN_CODE_LENGTH then table' == table && answer == Refused
      else
        && table' == Update(table, q)
        && (if exists r :: r in table && Matches(r, q) then
              exists r :: r in table && Matches(r, q) && answer == Redeemed(Payout(r.grant))
            else answer == Refused)
  }

  /** The table holds exactly the rows of the map. */
  ghost predicate SameRows(rows: Rows, table: set<Row>) {
    && Keyed(rows)
    && (forall c | c in rows :: rows[c] in table)
    && (forall r | r in table :: r.grant.code in rows && rows[r.grant.code] == r)
  }

  /** The two stores answer alike, and go on holding the same rows. */
  lemma StepsAgree(rows: Rows, table: set<Row>, op: Op, table': set<Row>, answer: Answer)
    requires SameRows(rows, table) && SqlStep(table, op, table', answer)
    ensures answer == MemoryStep(rows, op).1
    ensures SameRows(MemoryStep(rows, op).0, table')
  {
    if op.Consume? && |op.query.code| >= MIN_CODE_LENGTH {
      var q := op.query;
      var rows' := ConsumeFrom(rows, q).0;
      forall r | r in table ensures Matches(r, q) ==> r == rows[q.code] {
      }
      forall c | c in rows' ensures rows'[c] in table' {
        assert rows[c] in table;
        assert (if Matches(rows[c], q) then rows[c].(usedAt := Some(q.now)) else rows[c]) in Update(table, q);
      }
    } else if op.Insert? {
      var g := op.grant;
      assert g.code in rows ==> rows[g.code] in table;
    }
  }

  ghost predicate SqlRun(tables: seq<set<Row>>, ops: seq<Op>, answers: seq<Answer>) {
    && |tables| == |ops| + 1 && |answers| == |ops| && tables[0] == {}
    && forall i | 0 <= i < |ops| :: SqlStep(tables[i], ops[i], tables[i + 1], answers[i])
  }

  /** The in-memory store after a history, starting empty. */
  function After(ops: seq<Op>): Rows {
    if ops == [] then map[] else MemoryStep(After(ops[..|ops| - 1]), ops[|ops| - 1]).0
  }

  function AnswerAt(ops: seq<Op>, i: nat): Answer
    requires i < |ops|
  {
    MemoryStep(After(ops[..i]), ops[i]).1
  }

  lemma {:induction false} RunsAgree(tables: seq<set<Row>>, ops: seq<Op>, answers: seq<Answer>, n: nat)
    requires SqlRun(tables, ops, answers) && n <= |ops|
    ensures SameRows(After(ops[..n]), tables[n])
    ensures forall i | 0 <= i < n :: answers[i] == AnswerAt(ops, i)
  {
    if n == 0 {
    } else {
      RunsAgree(tables, ops, answers, n - 1);
      assert ops[..n][..n - 1] == ops[..n - 1];
      StepsAgree(After(ops[..n - 1]), tables[n - 1], ops[n - 1], tables[n], answers[n - 1]);
    }
  }

  lemma StepExists(table: set<Row>, op: Op) returns (table': set<Row>, answer: Answer)
    ensures SqlStep(table, op, table', answer)
  {
    match op
    case Insert(g) =>
      if exists r :: r in table && r.grant.code == g.code {
        table', answer := table, Duplicate;
      } else {
        table', answer := table + {NewRow(g)}, Inserted;
      }
    case Consume(q) =>
      table', answer := if |q.code| < MIN_CODE_LENGTH then table else Update(table, q), Refused;
      if |q.code| >= MIN_CODE_LENGTH && exists r :: r in table && Matches(r, q) {
        var r :| r in table && Matches(r, q);
        answer := Redeemed(Payout(r.grant));
      }
  }

  /** Every history has a run of the database. */
  lemma {:induction false} RunExists(ops: seq<Op>) returns (tables: seq<set<Row>>, answers: seq<Answer>)
    ensures SqlRun(tables, ops, answers)
  {
    if ops == [] {
      tables, answers := [{}], [];
    } else {
      var n := |ops| - 1;
      var ts, answersBefore := RunExists(ops[..n]);
      var table', answer := StepExists(ts[n], ops[n]);
      tables, answers := ts + [table'], answersBefore + [answer];
      hide SqlStep;
      forall i | 0 <= i < |ops| ensures SqlStep(tables[i], ops[i], tables[i + 1], answers[i]) {
        if i < n { assert ops[..n][i] == ops[i]; }
      }
    }
  }

  /** Over every history the two stores give the same answers. */
  lemma StoresAgree(tables: seq<set<Row>>, ops: seq<Op>, answers: seq<Answer>)
    requires SqlRun(tables, ops, answers)
    ensures forall i | 0 <= i < |ops| :: answers[i] == AnswerAt(ops, i)
  {
    RunsAgree(tables, ops, answers, |ops|);
  }

  // ---- what a history pays ----

  ghost predicate InsertedAt(ops: seq<Op>, i: int, g: Grant) {
    0 <= i < |ops| && ops[i] == Insert(g) && AnswerAt(ops, i) == Inserted
  }

  ghost predicate RedeemedAt(ops: seq<Op>, k: int, code: Text) {
    0 <= k < |ops| && ops[k].Consume? && ops[k].query.code == code && AnswerAt(ops, k).Redeemed?
  }

  predicate Used(rows: Rows, code: Text) { code in rows && rows[code].usedAt.Some? }

  lemma {:induction false} AfterStep(ops: seq<Op>, n: nat)
    requires 0 < n <= |ops|
    ensures (After(ops[..n]), AnswerAt(ops, n - 1)) == MemoryStep(After(ops[..n - 1]), ops[n - 1])
  {
    assert ops[..n][..n - 1] == ops[..n - 1];
  }

  /** A row is the insert that wrote it. */
  lemma {:induction false} RowOrigin(ops: seq<Op>, n: nat, code: Text)
    requires n <= |ops|
    ensures code in After(ops[..n]) ==> After(ops[..n])[code].grant.code == code
    ensures code in After(ops[..n]) <==> exists i, g :: i < n && InsertedAt(ops, i, g) && g.code == code
    ensures forall i, g | i < n && InsertedAt(ops, i, g) && g.code == code ::
      code in After(ops[..n]) && After(ops[..n])[code].grant == NewRow(g).grant
  {
    if n == 0 {
    } else {
      RowOrigin(ops, n - 1, code);
      AfterStep(ops, n);
      if ops[n - 1].Insert? && ops[n - 1].grant.code == code && code !in After(ops[..n - 1]) {
        assert InsertedAt(ops, n - 1, ops[n - 1].grant);
      }
    }
  }

  lemma UsedStep(rows: Rows, op: Op, code: Text)
    requires code in rows ==> rows[code].grant.code == code
    ensures Used(MemoryStep(rows, op).0, code) <==>
      Used(rows, code) || (op.Consume? && op.query.code == code && MemoryStep(rows, op).1.Redeemed?)
  {
  }

  /** A row is marked as soon as a consume of its code was paid, and never before. */
  lemma {:induction false} RowHistory(ops: seq<Op>, n: nat, code: Text)
    requires n <= |ops|
    ensures Used(After(ops[..n]), code) <==> exists k :: k < n && RedeemedAt(ops, k, code)
  {
    if n == 0 {
    } else {
      RowHistory(ops, n - 1, code);
      RowOrigin(ops, n - 1, code);
      AfterStep(ops, n);
      UsedStep(After(ops[..n - 1]), ops[n - 1], code);
      assert Used(After(ops[..n]), code) <==> Used(After(ops[..n - 1]), code) || RedeemedAt(ops, n - 1, code);
    }
  }

  /** An insert is accepted exactly when no earlier one had its code. */
  lemma {:induction false} InsertedExactly(ops: seq<Op>, i: nat)
    requires i < |ops| && ops[i].Insert?
    ensures AnswerAt(ops, i) == Inserted <==>
      forall k | 0 <= k < i && ops[k].Insert? :: ops[k].grant.code != ops[i].grant.code
    ensures AnswerAt(ops, i) == Inserted || AnswerAt(ops, i) == Duplicate
  {
    var code := ops[i].grant.code;
    RowOrigin(ops, i, code);
    if k :| 0 <= k < i && ops[k].Insert? && ops[k].grant.code == code {
      var first := FirstInsert(ops, k);
      assert InsertedAt(ops, first, ops[first].grant);
    }
  }

  lemma {:induction false} FirstInsert(ops: seq<Op>, k: nat) returns (i: nat)
    requires k < |ops| && ops[k].Insert?
    ensures i <= k && ops[i].Insert? && ops[i].grant.code == ops[k].grant.code && AnswerAt(ops, i) == Inserted
  {
    RowOrigin(ops, k, ops[k].grant.code);
    if AnswerAt(ops, k) == Inserted {
      i := k;
    } else {
      var j, g :| j < k && InsertedAt(ops, j, g) && g.code == ops[k].grant.code;
      i := j;
    }
  }

  /** The code, client and redirect are the grant's, and its time is not over. */
  predicate Presents(q: Query, g: Grant) {
    q.code == g.code && q.clientId == g.clientId && q.redirectUri == g.redirectUri && q.now < g.expiresAt
  }

  /**
   A consume is paid exactly when its code has 32 units or more, some accepted insert granted
   it to this client and redirect and has not expired, and no earlier consume of the code was
   paid; and then it is paid what that insert granted, the wallet in lower case.
   */
  lemma PaidExactly(ops: seq<Op>, j: nat)
    requires j < |ops| && ops[j].Consume?
    ensures AnswerAt(ops, j).Redeemed? <==>
      && |ops[j].query.code| >= 32
      && (exists i, g :: i < j && InsertedAt(ops, i, g) && Presents(ops[j].query, g))
      && !(exists k :: k < j && RedeemedAt(ops, k, ops[j].query.code))
    ensures forall i, g | i < j && InsertedAt(ops, i, g) && g.code == ops[j].query.code ::
      AnswerAt(ops, j).Redeemed? ==>
        AnswerAt(ops, j).paid == Paid(g.appSlug, g.orgId, LowerAscii(g.wallet), g.redirectUri)
  {
    var q := ops[j].query;
    RowHistory(ops, j, q.code);
    RowOrigin(ops, j, q.code);
    if q.code in After(ops[..j]) {
      var i, g :| i < j && InsertedAt(ops, i, g) && g.code == q.code;
      assert Redeemable(After(ops[..j])[q.code].grant, q) <==> Presents(q, g);
    }
  }

  /**
   A code of 43 units, the length of 32 random bytes in base64url, granted at `issued` for two
   minutes, is paid to its client on the first consume within them.
   */
  lemma FreshCodePaid(ops: seq<Op>, i: nat, j: nat, issued: int)
    requires i < j < |ops| && ops[i].Insert? && ops[j].Consume?
    requires ops[i].grant.expiresAt == issued + 120_000 && |ops[i].grant.code| == 43
    requires forall k | 0 <= k < i && ops[k].Insert? :: ops[k].grant.code != ops[i].grant.code
    requires forall k | 0 <= k < j && ops[k].Consume? :: ops[k].query.code != ops[i].grant.code
    requires var g, q := ops[i].grant, ops[j].query;
      q.code == g.code && q.clientId == g.clientId && q.redirectUri == g.redirectUri && q.now < issued + 120_000
    ensures var g := ops[i].grant;
      AnswerAt(ops, j) == Redeemed(Paid(g.appSlug, g.orgId, LowerAscii(g.wallet), g.redirectUri))
  {
    InsertedExactly(ops, i);
    PaidExactly(ops, j);
    assert InsertedAt(ops, i, ops[i].grant) && Presents(ops[j].query, ops[i].grant);
    hide LowerAscii;
  }

  /** Each code pays out at most once. */
  lemma PaidOnce(ops: seq<Op>, i: nat, j: nat, code: Text)
    requires RedeemedAt(ops, i, code) && RedeemedAt(ops, j, code)
    ensures i == j
  {
    if i < j {
      PaidExactly(ops, j);
    } else if j < i {
      PaidExactly(ops, i);
    }
  }
}
