/**
 Sign-in challenges: a nonce is recorded for one wallet, read, checked, and only then used,
 each a separate step that other requests may come between.
 */
module SignIn {
  import opened Texts
  import Siwe

  /**
   Foreign calls: `getAddress` and `verifyMessage` (None when they throw), the time of a
   date text (None is NaN), and `toISOString`.
   */
  datatype Foreign = Foreign(checksum: Text -> Option<Text>, recover: (Text, Text) -> Option<Text>,
                             time: Text -> Option<int>, iso: int -> Text)

  datatype Config = Config(domain: Text, origin: Text, chainId: nat)

  datatype NonceRow = NonceRow(wallet: Text, domain: Text, issuedAt: int, expiresAt: int, usedAt: Option<int>)

  type Rows = map<Text, NonceRow>

  const NONCE_TTL_MS := 300_000
  const PURGE_AFTER_MS := 3_600_000

  function Statement(): Text {
    Units("Sign in to OwneX.") + Units(" This request is free") + Units(" and will not create")
    + Units(" a blockchain") + Units(" transaction.")
  }

  /** The fields the server itself would write for this wallet, nonce and pair of times. */
  function ServerFields(cfg: Config, domain: Text, address: Text, nonce: Text, issuedAt: Text,
                        expires: Text): Siwe.Fields {
    Siwe.Fields(domain, address, Statement(), cfg.origin, cfg.chainId, nonce, issuedAt, expires)
  }

  function StatementText(): Text {
    Units("Sign in to OwneX.") + Units(" This request is free") + Units(" and will not create")
    + Units(" a blockchain") + Units(" transaction.")
  }

  /** The text of that message, line by line. */
  function ServerText(cfg: Config, domain: Text, address: Text, nonce: Text, issuedAt: Text, expires: Text): Text {
    Join([domain + (Units(" wants you") + Units(" to sign in") + Units(" with your") + Units(" Ethereum account:")),
          address,
          [],
          StatementText(),
          [],
          Units("URI: ") + cfg.origin,
          Units("Version: 1"),
          Units("Chain ID: ") + Decimal(cfg.chainId),
          Units("Nonce: ") + nonce,
          Units("Issued At: ") + issuedAt,
          Units("Expiration Time: ") + expires], 10)
  }

  lemma ServerTextExactly(cfg: Config, domain: Text, address: Text, nonce: Text, issuedAt: Text, expires: Text)
    ensures Siwe.Build(ServerFields(cfg, domain, address, nonce, issuedAt, expires))
      == ServerText(cfg, domain, address, nonce, issuedAt, expires)
  {
    hide Siwe.Build, Join, Decimal;
    Siwe.MessageText(ServerFields(cfg, domain, address, nonce, issuedAt, expires));
  }

  // ---- the steps of the two functions ----

  function IssuedRow(cfg: Config, address: Text, now: int): NonceRow {
    NonceRow(LowerAscii(address), cfg.domain, now, now + NONCE_TTL_MS, None)
  }

  function IssuedMessage(x: Foreign, cfg: Config, address: Text, nonce: Text, now: int): Text {
    Siwe.Build(ServerFields(cfg, cfg.domain, address, nonce, x.iso(now), x.iso(now + NONCE_TTL_MS)))
  }

  datatype Ticket = Ticket(message: Text, signature: Text, fields: Siwe.Fields, address: Text)

  /** The checks made before the database is asked. An unreadable expiry passes them. */
  function CheckFields(x: Foreign, cfg: Config, message: Text, signature: Text, now: int): (t: Option<Ticket>) {
    match Siwe.Parse(message)
    case None => None
    case Some(f) =>
      if f.domain != cfg.domain || f.chainId != cfg.chainId then None
      else if x.time(f.expirationTime).Some? && x.time(f.expirationTime).value <= now then None
      else
        match x.checksum(f.address)
        case None => None
        case Some(address) => Some(Ticket(message, signature, f, address))
  }

  function Expected(cfg: Config, t: Ticket, row: NonceRow): Text {
    Siwe.Build(ServerFields(cfg, row.domain, t.address, t.fields.nonce, t.fields.issuedAt, t.fields.expirationTime))
  }

  /** The signature recovers to the claimed wallet. */
  predicate SignedBy(x: Foreign, message: Text, signature: Text, address: Text) {
    x.recover(message, signature).Some? && x.checksum(x.recover(message, signature).value) == Some(address)
  }

  /** The checks of the row that was read, up to the conditional update. */
  predicate CheckRow(x: Foreign, cfg: Config, t: Ticket, row: Option<NonceRow>, now: int) {
    && row.Some? && row.value.usedAt.None? && row.value.expiresAt > now
    && row.value.wallet == LowerAscii(t.address)
    && Expected(cfg, t, row.value) == t.message
    && SignedBy(x, t.message, t.signature, t.address)
  }

  function LookUp(rows: Rows, nonce: Text): Option<NonceRow> {
    if nonce in rows then Some(rows[nonce]) else None
  }

  /** `update … where nonce = … and used_at is null`: true when a row was changed. */
  function UseNonce(rows: Rows, nonce: Text, now: int): (Rows, bool) {
    if nonce in rows && rows[nonce].usedAt.None? then (rows[nonce := rows[nonce].(usedAt := Some(now))], true)
    else (rows, false)
  }

  // ---- one request at a time ----

  /** verifyChallenge with the clocks it reads at its two expiry checks and its update. */
  function Verify(x: Foreign, cfg: Config, rows: Rows, message: Text, signature: Text, t1: int, t2: int, t3: int)
    : (Rows, Option<Text>)
  {
    match CheckFields(x, cfg, message, signature, t1)
    case None => (rows, None)
    case Some(t) =>
      if !CheckRow(x, cfg, t, LookUp(rows, t.fields.nonce), t2) then (rows, None)
      else
        var (rows', used) := UseNonce(rows, t.fields.nonce, t3);
        (rows', if used then Some(t.address) else None)
  }

  class NonceTable {
    var rows: Rows

    constructor ()
      ensures rows == map[]
    {
      rows := map[];
    }

    /** None is a thrown error: a malformed wallet, or a nonce already in the table. */
    method IssueChallenge(x: Foreign, cfg: Config, walletInput: Text, nonce: Text,
                          now: int) returns (message: Option<Text>)
      modifies this
      ensures message.Some? <==> x.checksum(walletInput).Some? && nonce !in old(rows)
      ensures message.None? ==> rows == old(rows)
      ensures message.Some? ==>
        && message.value == IssuedMessage(x, cfg, x.checksum(walletInput).value, nonce, now)
        && rows == old(rows)[nonce := IssuedRow(cfg, x.checksum(walletInput).value, now)]
    {
      var address := x.checksum(walletInput);
      if address.None? { return None; }
      var text := IssuedMessage(x, cfg, address.value, nonce, now);
      if nonce in rows { return None; }
      rows := rows[nonce := NonceRow(LowerAscii(address.value), cfg.domain, now, now + NONCE_TTL_MS, None)];
      return Some(text);
    }

    method VerifyChallenge(x: Foreign, cfg: Config, message: Text, signature: Text, t1: int, t2: int, t3: int)
      returns (address: Option<Text>)
      modifies this
      ensures (rows, address) == Verify(x, cfg, old(rows), message, signature, t1, t2, t3)
    {
      hide Siwe.Parse, Siwe.Build, Statement, ServerFields, LowerAscii;
      var parsed := Siwe.Parse(message);
      if parsed.None? { return None; }
      var f := parsed.value;
      if f.domain != cfg.domain { return None; }
      if f.chainId != cfg.chainId { return None; }
      var expires := x.time(f.expirationTime);
      if expires.Some? && expires.value <= t1 { return None; }
      var claimed := x.checksum(f.address);
      if claimed.None? { return None; }

      if f.nonce !in rows { return None; }
      var row := rows[f.nonce];
      if row.usedAt.Some? { return None; }
      if row.expiresAt <= t2 { return None; }
      if row.wallet != LowerAscii(claimed.value) { return None; }

      var expected := Siwe.Build(ServerFields(cfg, row.domain, claimed.value, f.nonce, f.issuedAt, f.expirationTime));
      if expected != message { return None; }
      var recovered := x.recover(message, signature);
      if recovered.None? { return None; }
      if x.checksum(recovered.value) != claimed { return None; }

      rows := rows[f.nonce := row.(usedAt := Some(t3))];
      return claimed;
    }
  }

  // ---- requests interleaved ----

  datatype Call =
    | Parsed(ticket: Ticket)
    | Looked(ticket: Ticket, row: Option<NonceRow>)
    | Checked(ticket: Ticket, at: int)
    | Ended

  datatype Entry = Entry(ticket: Ticket, checkedAt: int, at: int)

  /** `issued` remembers every row ever inserted; `signIns` every success, oldest first. */
  datatype State = State(now: int, rows: Rows, issued: Rows, calls: map<nat, Call>, signIns: seq<Entry>)

  datatype Step =
    | Tick(later: int)
    | Issue(walletInput: Text, nonce: Text)
    | Purge
    | Start(call: nat, message: Text, signature: Text)
    | Read(call: nat)
    | Check(call: nat)
    | Use(call: nat)
    | Fail(call: nat, applied: bool)  // a database error, perhaps after the update took effect

  function Initial(now: int): State { State(now, map[], map[], map[], []) }

  predicate Waiting(s: State, call: nat) { call in s.calls && !s.calls[call].Ended? }

  function SetCall(s: State, call: nat, c: Call): State { s.(calls := s.calls[call := c]) }

  function Apply(x: Foreign, cfg: Config, s: State, step: Step): State {
    match step
    case Tick(later) => if later < s.now then s else s.(now := later)
    case Issue(walletInput, nonce) =>
      if x.checksum(walletInput).None? || nonce in s.issued then s
      else
        var row := IssuedRow(cfg, x.checksum(walletInput).value, s.now);
        s.(rows := s.rows[nonce := row], issued := s.issued[nonce := row])
    case Purge => s.(rows := map n | n in s.rows && s.rows[n].expiresAt >= s.now - PURGE_AFTER_MS :: s.rows[n])
    case Start(call, message, signature) =>
      if call in s.calls then s
      else
        var t := CheckFields(x, cfg, message, signature, s.now);
        SetCall(s, call, if t.Some? then Parsed(t.value) else Ended)
    case Read(call) =>
      if call in s.calls && s.calls[call].Parsed? then
        SetCall(s, call, Looked(s.calls[call].ticket, LookUp(s.rows, s.calls[call].ticket.fields.nonce)))
      else s
    case Check(call) =>
      if call in s.calls && s.calls[call].Looked? then
        var t, row := s.calls[call].ticket, s.calls[call].row;
        SetCall(s, call, if CheckRow(x, cfg, t, row, s.now) then Checked(t, s.now) else Ended)
      else s
    case Use(call) =>
      if call in s.calls && s.calls[call].Checked? then
        var t := s.calls[call].ticket;
        var (rows', used) := UseNonce(s.rows, t.fields.nonce, s.now);
        SetCall(s, call, Ended).(rows := rows',
          signIns := if used then s.signIns + [Entry(t, s.calls[call].at, s.now)] else s.signIns)
      else s
    case Fail(call, applied) =>
      if Waiting(s, call) then
        var c := s.calls[call];
        var rows' := if c.Checked? && applied then UseNonce(s.rows, c.ticket.fields.nonce, s.now).0 else s.rows;
        SetCall(s, call, Ended).(rows := rows')
      else s
  }

  function Run(x: Foreign, cfg: Config, start: int, steps: seq<Step>): State {
    if steps == [] then Initial(start)
    else Apply(x, cfg, Run(x, cfg, start, steps[..|steps| - 1]), steps[|steps| - 1])
  }

  // ---- the invariant ----

  /** A row of the table is the one that was inserted, but for its use. */
  ghost predicate RowsKept(s: State) {
    forall n | n in s.rows :: n in s.issued && s.rows[n].(usedAt := None) == s.issued[n]
  }

  ghost predicate IssuedRows(cfg: Config, s: State) {
    forall n | n in s.issued :: IssuedShape(cfg, s.issued[n], s.now)
  }

  predicate IssuedShape(cfg: Config, r: NonceRow, now: int) {
    r.domain == cfg.domain && r.expiresAt == r.issuedAt + 300_000 && r.usedAt.None? && r.issuedAt <= now
  }

  /** What a passed check leaves known for good: about the inserted row, at that time. */
  predicate Vetted(x: Foreign, cfg: Config, s: State, t: Ticket, at: int) {
    && at <= s.now
    && t.fields.nonce in s.issued
    && s.issued[t.fields.nonce].issuedAt <= at
    && CheckRow(x, cfg, t, Some(s.issued[t.fields.nonce]), at)
  }

  predicate CallKnown(x: Foreign, cfg: Config, s: State, c: Call) {
    match c
    case Parsed(_) => true
    case Looked(t, row) =>
      row.Some? ==> t.fields.nonce in s.issued && row.value.(usedAt := None) == s.issued[t.fields.nonce]
    case Checked(t, at) => Vetted(x, cfg, s, t, at)
    case Ended => true
  }

  ghost predicate CallsKnown(x: Foreign, cfg: Config, s: State) {
    forall c | c in s.calls :: CallKnown(x, cfg, s, s.calls[c])
  }

  predicate Spent(s: State, n: Text) { n !in s.rows || s.rows[n].usedAt.Some? }

  ghost predicate SignInsKnown(x: Foreign, cfg: Config, s: State) {
    forall i | 0 <= i < |s.signIns| :: EntryKnown(x, cfg, s, s.signIns[i])
  }

  predicate EntryKnown(x: Foreign, cfg: Config, s: State, e: Entry) {
    Vetted(x, cfg, s, e.ticket, e.checkedAt) && e.checkedAt <= e.at <= s.now && Spent(s, e.ticket.fields.nonce)
  }

  ghost predicate NoncesDistinct(s: State) {
    forall i, j | 0 <= i < j < |s.signIns| :: s.signIns[i].ticket.fields.nonce != s.signIns[j].ticket.fields.nonce
  }

  ghost predicate Inv(x: Foreign, cfg: Config, s: State) {
    RowsSound(cfg, s) && CallsKnown(x, cfg, s) && SignInsKnown(x, cfg, s) && NoncesDistinct(s)
  }

  /** The later state still has what was issued, and spent nonces stay spent. */
  ghost predicate Grows(s: State, s': State) {
    && s.now <= s'.now
    && (forall n | n in s.issued :: n in s'.issued && s'.issued[n] == s.issued[n])
    && (forall n | n in s.issued && Spent(s, n) :: Spent(s', n))
  }

  ghost predicate RowsSound(cfg: Config, s: State) { RowsKept(s) && IssuedRows(cfg, s) }

  lemma IssueGrows(cfg: Config, s: State, s': State, nonce: Text, row: NonceRow)
    requires RowsSound(cfg, s) && nonce !in s.issued && IssuedShape(cfg, row, s.now)
    requires s'.now == s.now && s'.rows == s.rows[nonce := row] && s'.issued == s.issued[nonce := row]
    ensures Grows(s, s') && RowsSound(cfg, s')
  {
  }

  lemma PurgeGrows(cfg: Config, s: State, s': State, kept: set<Text>)
    requires RowsSound(cfg, s) && s'.now == s.now && s'.issued == s.issued
    requires s'.rows == map n | n in s.rows && n in kept :: s.rows[n]
    ensures Grows(s, s') && RowsSound(cfg, s')
  {
  }

  lemma UseGrows(cfg: Config, s: State, s': State, nonce: Text)
    requires RowsSound(cfg, s) && s'.now == s.now && s'.issued == s.issued
    requires s'.rows == UseNonce(s.rows, nonce, s.now).0
    ensures Grows(s, s') && RowsSound(cfg, s')
  {
  }

  lemma TickGrows(cfg: Config, s: State, s': State)
    requires RowsSound(cfg, s) && s.now <= s'.now && s'.issued == s.issued && s'.rows == s.rows
    ensures Grows(s, s') && RowsSound(cfg, s')
  {
  }

  lemma StepGrows(x: Foreign, cfg: Config, s: State, step: Step)
    requires RowsSound(cfg, s)
    ensures Grows(s, Apply(x, cfg, s, step)) && RowsSound(cfg, Apply(x, cfg, s, step))
  {
    hide CheckFields, CheckRow, RowsSound, Grows, UseNonce, LowerAscii;
    var s' := Apply(x, cfg, s, step);
    match step
    case Issue(w, n) =>
      if x.checksum(w).Some? && n !in s.issued {
        IssueGrows(cfg, s, s', n, s'.issued[n]);
      } else {
        TickGrows(cfg, s, s');
      }
    case Purge =>
      PurgeGrows(cfg, s, s', set n | n in s.rows && s.rows[n].expiresAt >= s.now - PURGE_AFTER_MS);
    case Use(c) =>
      if c in s.calls && s.calls[c].Checked? {
        UseGrows(cfg, s, s', s.calls[c].ticket.fields.nonce);
      } else {
        TickGrows(cfg, s, s');
      }
    case Fail(c, applied) =>
      if Waiting(s, c) && s.calls[c].Checked? && applied {
        UseGrows(cfg, s, s', s.calls[c].ticket.fields.nonce);
      } else {
        TickGrows(cfg, s, s');
      }
    case _ => TickGrows(cfg, s, s');
  }

  lemma VettedGrows(x: Foreign, cfg: Config, s: State, s': State, t: Ticket, at: int)
    requires Vetted(x, cfg, s, t, at) && Grows(s, s')
    ensures Vetted(x, cfg, s', t, at)
  {
    hide CheckRow;
  }

  lemma CallsStep(x: Foreign, cfg: Config, s: State, step: Step)
    requires Inv(x, cfg, s)
    ensures CallsKnown(x, cfg, Apply(x, cfg, s, step))
  {
    hide CheckFields, Expected, SignedBy;
    StepGrows(x, cfg, s, step);
    var s' := Apply(x, cfg, s, step);
    forall c | c in s'.calls ensures CallKnown(x, cfg, s', s'.calls[c]) {
      if c in s.calls && s.calls[c].Checked? { VettedGrows(x, cfg, s, s', s.calls[c].ticket, s.calls[c].at); }
    }
  }

  lemma SignInsStep(x: Foreign, cfg: Config, s: State, step: Step)
    requires Inv(x, cfg, s)
    ensures SignInsKnown(x, cfg, Apply(x, cfg, s, step)) && NoncesDistinct(Apply(x, cfg, s, step))
  {
    hide CheckFields, CheckRow;
    StepGrows(x, cfg, s, step);
    var s' := Apply(x, cfg, s, step);
    forall i | 0 <= i < |s.signIns| ensures EntryKnown(x, cfg, s', s.signIns[i]) {
      assert EntryKnown(x, cfg, s, s.signIns[i]);
      VettedGrows(x, cfg, s, s', s.signIns[i].ticket, s.signIns[i].checkedAt);
    }
    if step.Use? && step.call in s.calls && s.calls[step.call].Checked? {
      var t, at := s.calls[step.call].ticket, s.calls[step.call].at;
      assert CallKnown(x, cfg, s, s.calls[step.call]);
      VettedGrows(x, cfg, s, s', t, at);
      forall i | 0 <= i < |s.signIns|
        ensures !Spent(s, t.fields.nonce) ==> s.signIns[i].ticket.fields.nonce != t.fields.nonce
      {
        assert EntryKnown(x, cfg, s, s.signIns[i]);
      }
    }
  }

  lemma {:induction false} Invariant(x: Foreign, cfg: Config, start: int, steps: seq<Step>)
    ensures Inv(x, cfg, Run(x, cfg, start, steps))
  {
    if steps == [] {
    } else {
      var s := Run(x, cfg, start, steps[..|steps| - 1]);
      Invariant(x, cfg, start, steps[..|steps| - 1]);
      StepGrows(x, cfg, s, steps[|steps| - 1]);
      CallsStep(x, cfg, s, steps[|steps| - 1]);
      SignInsStep(x, cfg, s, steps[|steps| - 1]);
    }
  }

  // ---- what every run keeps ----

  /** In every interleaving each nonce signs in at most once. */
  lemma {:induction false} NonceOnce(x: Foreign, cfg: Config, start: int, steps: seq<Step>, i: nat, j: nat)
    requires i < |Run(x, cfg, start, steps).signIns| && j < |Run(x, cfg, start, steps).signIns|
    requires var signIns := Run(x, cfg, start, steps).signIns;
      signIns[i].ticket.fields.nonce == signIns[j].ticket.fields.nonce
    ensures i == j
  {
    Invariant(x, cfg, start, steps);
  }

  /** Step k issued the nonce, for the wallet and at the time its row records. */
  predicate IssuedAt(x: Foreign, cfg: Config, start: int, steps: seq<Step>, k: nat, nonce: Text, row: NonceRow) {
    && k < |steps| && steps[k].Issue? && steps[k].nonce == nonce
    && x.checksum(steps[k].walletInput).Some?
    && row == IssuedRow(cfg, x.checksum(steps[k].walletInput).value, Run(x, cfg, start, steps[..k]).now)
  }

  /** Step j purges the nonce's row: more than an hour after its expiry. */
  predicate PurgedAt(x: Foreign, cfg: Config, start: int, steps: seq<Step>, j: nat, nonce: Text) {
    && j < |steps| && steps[j].Purge?
    && var s := Run(x, cfg, start, steps[..j]);
      nonce in s.issued && s.issued[nonce].expiresAt < s.now - 3_600_000
  }

  /** An issued nonce's row is gone exactly when some purge came more than an hour after its expiry. */
  lemma {:induction false} GoneExactly(x: Foreign, cfg: Config, start: int, steps: seq<Step>, nonce: Text)
    requires nonce in Run(x, cfg, start, steps).issued
    ensures nonce !in Run(x, cfg, start, steps).rows <==> exists j: nat :: PurgedAt(x, cfg, start, steps, j, nonce)
  {
    var n := |steps| - 1;
    var before := steps[..n];
    var s := Run(x, cfg, start, before);
    Invariant(x, cfg, start, before);
    RowsStep(x, cfg, s, steps[n], nonce);
    assert forall j: nat | j < n :: before[..j] == steps[..j];
    assert forall j: nat | j < n ::
      PurgedAt(x, cfg, start, before, j, nonce) <==> PurgedAt(x, cfg, start, steps, j, nonce);
    if nonce in s.issued {
      GoneExactly(x, cfg, start, before, nonce);
      if j: nat :| PurgedAt(x, cfg, start, before, j, nonce) { assert PurgedAt(x, cfg, start, steps, j, nonce); }
      hide Run, Apply;
      if j: nat :| PurgedAt(x, cfg, start, steps, j, nonce) {
        if j < n { assert PurgedAt(x, cfg, start, before, j, nonce); }
      }
      if nonce in s.rows && steps[n].Purge? && s.issued[nonce].expiresAt < s.now - 3_600_000 {
        assert PurgedAt(x, cfg, start, steps, n, nonce);
      }
    } else {
      forall j: nat ensures !PurgedAt(x, cfg, start, steps, j, nonce) {
        if PurgedAt(x, cfg, start, steps, j, nonce) && j < n {
          IssuedStays(x, cfg, start, before, j, nonce);
        }
      }
    }
  }

  lemma RowsStep(x: Foreign, cfg: Config, s: State, step: Step, nonce: Text)
    requires RowsKept(s)
    ensures var s' := Apply(x, cfg, s, step);
      && (nonce in s.issued ==>
            (nonce in s'.rows <==>
              nonce in s.rows && !(step.Purge? && s.issued[nonce].expiresAt < s.now - 3_600_000)))
      && (nonce !in s.issued && nonce in s'.issued ==> nonce in s'.rows && !step.Purge?)
  {
    hide CheckFields, CheckRow, IssuedRow, LookUp;
  }

  lemma {:induction false} IssuedStays(x: Foreign, cfg: Config, start: int, steps: seq<Step>, j: nat, nonce: Text)
    requires j <= |steps| && nonce in Run(x, cfg, start, steps[..j]).issued
    ensures nonce in Run(x, cfg, start, steps).issued
  {
    if j == |steps| {
      assert steps[..j] == steps;
    } else {
      var before := steps[..|steps| - 1];
      assert before[..j] == steps[..j];
      IssuedStays(x, cfg, start, before, j, nonce);
      hide CheckFields, CheckRow, IssuedRow, LookUp, UseNonce;
    }
  }

  lemma {:induction false} IssueOrigin(x: Foreign, cfg: Config, start: int, steps: seq<Step>,
                                       nonce: Text) returns (k: nat)
    requires nonce in Run(x, cfg, start, steps).issued
    ensures IssuedAt(x, cfg, start, steps, k, nonce, Run(x, cfg, start, steps).issued[nonce])
  {
    hide CheckFields, CheckRow, IssuedRow;
    var before := steps[..|steps| - 1];
    if nonce in Run(x, cfg, start, before).issued {
      k := IssueOrigin(x, cfg, start, before, nonce);
      assert before[..k] == steps[..k];
    } else {
      k := |steps| - 1;
    }
  }

  /**
   Every sign-in traces back to one issued challenge: for the same wallet up to case, on the
   server's domain, before that challenge expired, over the server's own message with the
   nonce and times it carried, and signed by that wallet.
   */
  lemma SignInOrigin(x: Foreign, cfg: Config, start: int, steps: seq<Step>, i: nat) returns (k: nat)
    requires i < |Run(x, cfg, start, steps).signIns|
    ensures k < |steps| && steps[k].Issue?
    ensures var e, issuedAt := Run(x, cfg, start, steps).signIns[i], Run(x, cfg, start, steps[..k]).now;
      && steps[k].nonce == e.ticket.fields.nonce
      && x.checksum(steps[k].walletInput).Some?
      && LowerAscii(x.checksum(steps[k].walletInput).value) == LowerAscii(e.ticket.address)
      && issuedAt <= e.checkedAt < issuedAt + 300_000 && e.checkedAt <= e.at
      && e.ticket.message == ServerText(cfg, cfg.domain, e.ticket.address, steps[k].nonce,
                                        e.ticket.fields.issuedAt, e.ticket.fields.expirationTime)
      && SignedBy(x, e.ticket.message, e.ticket.signature, e.ticket.address)
  {
    hide CheckFields, SignedBy, ServerFields;
    Invariant(x, cfg, start, steps);
    var s := Run(x, cfg, start, steps);
    var e := s.signIns[i];
    assert EntryKnown(x, cfg, s, e);
    k := IssueOrigin(x, cfg, start, steps, e.ticket.fields.nonce);
    ServerTextExactly(cfg, cfg.domain, e.ticket.address, steps[k].nonce,
                      e.ticket.fields.issuedAt, e.ticket.fields.expirationTime);
  }

  // ---- one request at a time, again ----

  /** The conditions under which a message is accepted, for the wallet it names. */
  predicate Acceptable(x: Foreign, cfg: Config, rows: Rows, message: Text, signature: Text, t1: int, t2: int,
                       address: Text)
  {
    Siwe.Parse(message).Some? &&
    var f := Siwe.Parse(message).value;
    && f.domain == cfg.domain && f.chainId == cfg.chainId
    && (x.time(f.expirationTime).None? || t1 < x.time(f.expirationTime).value)
    && x.checksum(f.address) == Some(address)
    && f.nonce in rows && rows[f.nonce].usedAt.None? && t2 < rows[f.nonce].expiresAt
    && rows[f.nonce].wallet == LowerAscii(address)
    && message == ServerText(cfg, rows[f.nonce].domain, address, f.nonce, f.issuedAt, f.expirationTime)
    && x.recover(message, signature).Some?
    && x.checksum(x.recover(message, signature).value) == Some(address)
  }

  /**
   A message is accepted exactly when it is on this domain and chain, in time, for the wallet
   its nonce was issued to, the server's own but for the nonce and times it carries, and
   signed by that wallet; and then its nonce is used up.
   */
  lemma AcceptedMessage(x: Foreign, cfg: Config, rows: Rows, message: Text, signature: Text, t1: int, t2: int, t3: int,
                        address: Text)
    ensures Verify(x, cfg, rows, message, signature, t1, t2, t3).1 == Some(address) <==>
      Acceptable(x, cfg, rows, message, signature, t1, t2, address)
    ensures Acceptable(x, cfg, rows, message, signature, t1, t2, address) ==>
      var nonce := Siwe.Parse(message).value.nonce;
      Verify(x, cfg, rows, message, signature, t1, t2, t3).0 == rows[nonce := rows[nonce].(usedAt := Some(t3))]
    ensures Verify(x, cfg, rows, message, signature, t1, t2, t3).1.None? ==>
      Verify(x, cfg, rows, message, signature, t1, t2, t3).0 == rows
  {
    hide Siwe.Parse, ServerText, LowerAscii;
    FieldsExactly(x, cfg, message, signature, t1, address);
    if Siwe.Parse(message).Some? {
      var f := Siwe.Parse(message).value;
      RowExactly(x, cfg, Ticket(message, signature, f, address), LookUp(rows, f.nonce), t2);
    }
    hide CheckRow;
    var t := CheckFields(x, cfg, message, signature, t1);
    assert t.Some? ==> t == Some(t.value);
  }

  lemma FieldsExactly(x: Foreign, cfg: Config, message: Text, signature: Text, t1: int, address: Text)
    ensures (CheckFields(x, cfg, message, signature, t1).Some?
             && CheckFields(x, cfg, message, signature, t1).value.address == address) <==>
      (Siwe.Parse(message).Some? &&
       var f := Siwe.Parse(message).value;
       && f.domain == cfg.domain && f.chainId == cfg.chainId
       && (x.time(f.expirationTime).None? || t1 < x.time(f.expirationTime).value)
       && x.checksum(f.address) == Some(address))
    ensures CheckFields(x, cfg, message, signature, t1).Some? ==>
      Siwe.Parse(message).Some? && var t := CheckFields(x, cfg, message, signature, t1).value;
      t == Ticket(message, signature, Siwe.Parse(message).value, t.address)
  {
    hide Siwe.Parse;
  }

  lemma RowExactly(x: Foreign, cfg: Config, t: Ticket, row: Option<NonceRow>, now: int)
    ensures CheckRow(x, cfg, t, row, now) <==>
      row.Some? && row.value.usedAt.None? && now < row.value.expiresAt
      && row.value.wallet == LowerAscii(t.address)
      && t.message == ServerText(cfg, row.value.domain, t.address, t.fields.nonce, t.fields.issuedAt,
                                 t.fields.expirationTime)
      && x.recover(t.message, t.signature).Some?
      && x.checksum(x.recover(t.message, t.signature).value) == Some(t.address)
  {
    hide ServerText, LowerAscii, Siwe.Build, ServerFields;
    if row.Some? {
      ServerTextExactly(cfg, row.value.domain, t.address, t.fields.nonce, t.fields.issuedAt, t.fields.expirationTime);
    }
  }

  /** A used nonce is refused in whatever message it comes back. */
  lemma UsedRefused(x: Foreign, cfg: Config, rows: Rows, message: Text, signature: Text, t1: int, t2: int, t3: int)
    requires Siwe.Parse(message).Some? ==> Spent(Initial(0).(rows := rows), Siwe.Parse(message).value.nonce)
    ensures Verify(x, cfg, rows, message, signature, t1, t2, t3) == (rows, None)
  {
    hide Siwe.Parse, Siwe.Build, Statement, SignedBy;
  }

  /** A configuration and foreign calls under which the server's message parses back. */
  ghost predicate Sound(x: Foreign, cfg: Config, address: Text, nonce: Text, now: int) {
    var f := ServerFields(cfg, cfg.domain, address, nonce, x.iso(now), x.iso(now + 300_000));
    && Siwe.Shape(f) && (forall k: nat | k < Siwe.LABELS :: Siwe.Unshadowed(f, k))
    && x.checksum(address) == Some(address)
    && x.time(x.iso(now + 300_000)) == Some(now + 300_000)
  }

  /** Signed by its wallet and brought back in time, an issued challenge signs in. */
  lemma IssuedAccepted(x: Foreign, cfg: Config, rows: Rows, address: Text, nonce: Text, now: int, signature: Text,
                       t1: int, t2: int, t3: int)
    requires Sound(x, cfg, address, nonce, now)
    requires nonce in rows && rows[nonce] == IssuedRow(cfg, address, now)
    requires SignedBy(x, IssuedMessage(x, cfg, address, nonce, now), signature, address)
    requires t1 < now + 300_000 && t2 < now + 300_000
    ensures Verify(x, cfg, rows, IssuedMessage(x, cfg, address, nonce, now), signature, t1, t2, t3).1 == Some(address)
  {
    hide Siwe.Parse, Siwe.Build, Siwe.Shape, Siwe.Unshadowed, Statement, SignedBy;
    Siwe.RoundTripExactly(ServerFields(cfg, cfg.domain, address, nonce, x.iso(now), x.iso(now + NONCE_TTL_MS)));
  }

  function StartAndRead(x: Foreign, cfg: Config, s: State, call: nat, message: Text, signature: Text): State {
    Apply(x, cfg, Apply(x, cfg, s, Start(call, message, signature)), Read(call))
  }

  function ThenCheck(x: Foreign, cfg: Config, s: State, call: nat, t2: int, t3: int): State {
    Apply(x, cfg, Apply(x, cfg, Apply(x, cfg, s, Tick(t2)), Check(call)), Tick(t3))
  }

  lemma Reads(x: Foreign, cfg: Config, s: State, call: nat, message: Text, signature: Text)
    requires call !in s.calls
    ensures var s' := StartAndRead(x, cfg, s, call, message, signature);
      var t := CheckFields(x, cfg, message, signature, s.now);
      s' == SetCall(s, call, if t.Some? then Looked(t.value, LookUp(s.rows, t.value.fields.nonce)) else Ended)
  {
    hide CheckFields, LookUp;
  }

  lemma Checks(x: Foreign, cfg: Config, s: State, call: nat, t2: int, t3: int)
    requires call in s.calls && (s.calls[call].Looked? || s.calls[call].Ended?) && s.now <= t2 <= t3
    ensures ThenCheck(x, cfg, s, call, t2, t3) ==
      if s.calls[call].Looked? && CheckRow(x, cfg, s.calls[call].ticket, s.calls[call].row, t2) then
        SetCall(s, call, Checked(s.calls[call].ticket, t2)).(now := t3)
      else SetCall(s, call, Ended).(now := t3)
  {
    hide CheckRow;
    assert s.calls[call].Ended? ==> s.calls[call := Ended] == s.calls;
  }

  /** One request run alone takes the steps of the interleaved model. */
  lemma SerialRequest(x: Foreign, cfg: Config, s: State, call: nat, message: Text, signature: Text, t2: int, t3: int)
    requires call !in s.calls && s.now <= t2 <= t3
    ensures var s3 := ThenCheck(x, cfg, StartAndRead(x, cfg, s, call, message, signature), call, t2, t3);
      var s' := Apply(x, cfg, s3, Use(call));
      var (rows', address) := Verify(x, cfg, s.rows, message, signature, s.now, t2, t3);
      && s'.rows == rows' && s'.issued == s.issued
      && (address.None? ==> s'.signIns == s.signIns)
      && (address.Some? ==>
        exists e: Entry :: s'.signIns == s.signIns + [e] && e.ticket.address == address.value && e.checkedAt == t2
          && e.at == t3)
  {
    hide CheckFields, CheckRow, UseNonce, LookUp, ThenCheck, StartAndRead;
    var s2 := StartAndRead(x, cfg, s, call, message, signature);
    Reads(x, cfg, s, call, message, signature);
    Checks(x, cfg, s2, call, t2, t3);
    var t := CheckFields(x, cfg, message, signature, s.now);
    if t.Some? && CheckRow(x, cfg, t.value, LookUp(s.rows, t.value.fields.nonce), t2) {
      var s' := Apply(x, cfg, ThenCheck(x, cfg, s2, call, t2, t3), Use(call));
      if UseNonce(s.rows, t.value.fields.nonce, t3).1 {
        assert s'.signIns == s.signIns + [Entry(t.value, t2, t3)];
      }
    }
  }

  // ---- a late update ----

  lemma {:induction false} RunSnoc(x: Foreign, cfg: Config, start: int, steps: seq<Step>, step: Step)
    ensures Run(x, cfg, start, steps + [step]) == Apply(x, cfg, Run(x, cfg, start, steps), step)
  {
    assert (steps + [step])[..|steps|] == steps;
  }

  /** Use is the one step that signs anybody in: a checked request whose nonce is not spent. */
  lemma SignInsGrow(x: Foreign, cfg: Config, s: State, step: Step)
    ensures var s' := Apply(x, cfg, s, step);
      s'.signIns ==
        if step.Use? && step.call in s.calls && s.calls[step.call].Checked?
           && !Spent(s, s.calls[step.call].ticket.fields.nonce)
        then s.signIns + [Entry(s.calls[step.call].ticket, s.calls[step.call].at, s.now)]
        else s.signIns
  {
    hide CheckFields, CheckRow, IssuedRow, LookUp;
  }

  /** Step j made the sign-in, of a checked request whose nonce was not spent, at the time the entry records. */
  lemma {:induction false} UseOrigin(x: Foreign, cfg: Config, start: int, steps: seq<Step>, i: nat) returns (j: nat)
    requires i < |Run(x, cfg, start, steps).signIns|
    ensures j < |steps| && steps[j].Use?
    ensures |Run(x, cfg, start, steps[..j]).signIns| == i && |Run(x, cfg, start, steps[..j + 1]).signIns| == i + 1
    ensures var s, e := Run(x, cfg, start, steps[..j]), Run(x, cfg, start, steps).signIns[i];
      && steps[j].call in s.calls && s.calls[steps[j].call] == Checked(e.ticket, e.checkedAt)
      && !Spent(s, e.ticket.fields.nonce) && s.now == e.at
  {
    hide Apply, Spent;
    var before := steps[..|steps| - 1];
    if steps != [] { SignInsGrow(x, cfg, Run(x, cfg, start, before), steps[|steps| - 1]); }
    if i < |Run(x, cfg, start, before).signIns| {
      j := UseOrigin(x, cfg, start, before, i);
      assert before[..j] == steps[..j] && before[..j + 1] == steps[..j + 1];
    } else {
      j := |steps| - 1;
      assert steps[..j + 1] == steps;
    }
  }

  /**
   In every run, a request that has passed its checks and is updated at any later time signs
   in exactly when its nonce is not spent then. So a sign-in comes at or after the expiry of
   its challenge exactly when the update does and finds the nonce neither used nor purged.
   */
  lemma {:induction false} LateUpdateExactly(x: Foreign, cfg: Config, start: int, steps: seq<Step>, call: nat,
                                             late: int)
    requires var s := Run(x, cfg, start, steps); call in s.calls && s.calls[call].Checked? && s.now <= late
    ensures var s, s' := Run(x, cfg, start, steps), Run(x, cfg, start, steps + [Tick(late)] + [Use(call)]);
      var c := s.calls[call];
      var nonce := c.ticket.fields.nonce;
      && s'.signIns == (if Spent(s, nonce) then s.signIns else s.signIns + [Entry(c.ticket, c.at, late)])
      && nonce in s.issued && c.at < s.issued[nonce].expiresAt
      && ((exists i :: |s.signIns| <= i < |s'.signIns| && s'.signIns[i].at >= s.issued[nonce].expiresAt)
          <==> late >= s.issued[nonce].expiresAt && !Spent(s, nonce))
  {
    var s := Run(x, cfg, start, steps);
    Invariant(x, cfg, start, steps);
    assert CallKnown(x, cfg, s, s.calls[call]);
    RunSnoc(x, cfg, start, steps, Tick(late));
    RunSnoc(x, cfg, start, steps + [Tick(late)], Use(call));
    var s1 := Apply(x, cfg, s, Tick(late));
    assert s1.rows == s.rows && s1.calls == s.calls && s1.signIns == s.signIns && s1.now == late;
    SignInsGrow(x, cfg, s1, Use(call));
    hide Apply, Run, Spent, SignedBy, Expected;
    var s' := Run(x, cfg, start, steps + [Tick(late)] + [Use(call)]);
    if !Spent(s, s.calls[call].ticket.fields.nonce) { assert s'.signIns[|s.signIns|].at == late; }
  }

  function LateRun(address: Text, nonce: Text, message: Text, signature: Text, now: int, late: int): seq<Step> {
    [Issue(address, nonce), Start(0, message, signature), Read(0), Tick(now), Check(0), Tick(late), Use(0)]
  }

  lemma {:induction false} LateSteps(x: Foreign, cfg: Config, address: Text, nonce: Text, message: Text,
                                     signature: Text, now: int, late: int)
    ensures var s := Apply(x, cfg, Initial(now), Issue(address, nonce));
      Run(x, cfg, now, LateRun(address, nonce, message, signature, now, late))
        == Apply(x, cfg, ThenCheck(x, cfg, StartAndRead(x, cfg, s, 0, message, signature), 0, now, late), Use(0))
  {
    hide Apply;
    var p1 := [Issue(address, nonce)];
    var p2 := p1 + [Start(0, message, signature)];
    var p3 := p2 + [Step.Read(0)];
    var p4 := p3 + [Tick(now)];
    var p5 := p4 + [Check(0)];
    var p6 := p5 + [Tick(late)];
    assert p1[..0] == [];
    RunSnoc(x, cfg, now, p1, Start(0, message, signature));
    RunSnoc(x, cfg, now, p2, Step.Read(0));
    RunSnoc(x, cfg, now, p3, Tick(now));
    RunSnoc(x, cfg, now, p4, Check(0));
    RunSnoc(x, cfg, now, p5, Tick(late));
    RunSnoc(x, cfg, now, p6, Use(0));
    assert LateRun(address, nonce, message, signature, now, late) == p6 + [Use(0)];
  }

  /** However late the update comes, a challenge that passed its checks in time signs in. */
  lemma {:induction false} LateSignIn(x: Foreign, cfg: Config, address: Text, nonce: Text, signature: Text,
                                      now: int, late: int)
    requires Sound(x, cfg, address, nonce, now) && now <= late
    requires SignedBy(x, IssuedMessage(x, cfg, address, nonce, now), signature, address)
    ensures var message := IssuedMessage(x, cfg, address, nonce, now);
      var s := Run(x, cfg, now, LateRun(address, nonce, message, signature, now, late));
      |s.signIns| == 1 && s.signIns[0].ticket.address == address && s.signIns[0].at == late
      && nonce in s.issued && s.issued[nonce].expiresAt == now + 300_000
  {
    var message := IssuedMessage(x, cfg, address, nonce, now);
    var s1 := Apply(x, cfg, Initial(now), Issue(address, nonce));
    IssueFirst(x, cfg, address, nonce, now);
    hide Apply, Run, Verify, IssuedMessage, SignedBy, ThenCheck, StartAndRead;
    IssuedAccepted(x, cfg, s1.rows, address, nonce, now, signature, now, now, late);
    SerialRequest(x, cfg, s1, 0, message, signature, now, late);
    LateSteps(x, cfg, address, nonce, message, signature, now, late);
  }

  lemma IssueFirst(x: Foreign, cfg: Config, address: Text, nonce: Text, now: int)
    requires x.checksum(address) == Some(address)
    ensures var s := Apply(x, cfg, Initial(now), Issue(address, nonce));
      && s.now == now && s.calls == map[] && s.signIns == []
      && nonce in s.rows && s.rows[nonce] == IssuedRow(cfg, address, now)
      && nonce in s.issued && s.issued[nonce].expiresAt == now + 300_000
  {
  }
}
