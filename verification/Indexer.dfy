/**
 The event indexer: a cache of the chain's audit events that is extended block range by
 block range and may be stopped after any of its database writes.
 */
module Indexer {
  import opened Texts

  datatype Contract = IdentityRegistry | OrgAccessManager | AssetNFT

  const CONTRACTS := [IdentityRegistry, OrgAccessManager, AssetNFT]

  datatype Event =
    | IdentityRegistered | IdentityHashUpdated | IdentityRevoked | IdentityReactivated | RegistrarUpdated
    | OrganizationCreated | OrganizationMetadataUpdated | OrganizationStatusChanged | OrgRootAdminTransferred
    | MemberAdded | MemberRemoved | RoleAssigned | RoleExpiryUpdated | PermissionUpdated
    | ApplicationRegistered | AppAccessChanged
    | AssetMinted | AssetAssigned | AssetRevoked | AssetRestored | AssetMetadataUpdated
    | Untracked(name: Text)

  /** `unique (tx_hash, log_index)` */
  datatype Key = Key(tx: Text, index: nat)

  /** A log of a contract; one that could not be decoded has no event. */
  datatype Log = Log(contract: Contract, event: Option<Event>, block: nat, key: Key, payload: Text)

  predicate Tracked(l: Log) { l.event.Some? && !l.event.value.Untracked? }

  datatype Chain = Chain(tip: nat, logs: seq<Log>, txs: set<Text>)

  ghost predicate ValidChain(ch: Chain) {
    && (forall l | l in ch.logs :: l.block <= ch.tip && l.key.tx in ch.txs)
    && (forall l, m | l in ch.logs && m in ch.logs && l.key == m.key :: l == m)
  }

  /** The two tables: `audit_cache`, and `indexer_state` as the last block per contract. */
  datatype Db = Db(cache: map<Key, Log>, heights: map<Contract, nat>)

  /** `pick` is the row a query with limit 1 returns among equals. */
  datatype Config = Config(lowerBound: nat, chunk: nat, pick: set<Key> -> Key)

  const SEPOLIA := 11155111
  const SEPOLIA_CHUNK := 10
  const DEFAULT_CHUNK := 2000
  const RECORDED_SEPOLIA_START_BLOCK := 11585353

  function ChunkSize(chainId: nat): nat { if chainId == SEPOLIA then SEPOLIA_CHUNK else DEFAULT_CHUNK }

  /** `configured` is the configured start block, when it is a whole number that is not negative. */
  function StartBlock(chainId: nat, configured: Option<nat>): nat {
    if configured.Some? then configured.value
    else if chainId == SEPOLIA then RECORDED_SEPOLIA_START_BLOCK
    else 0
  }

  /** The settings `syncEvents` derives from its environment. */
  function ConfigFor(chainId: nat, configured: Option<nat>, pick: set<Key> -> Key): (cfg: Config)
    ensures cfg.chunk > 0
  {
    Config(StartBlock(chainId, configured), ChunkSize(chainId), pick)
  }

  ghost predicate ValidConfig(cfg: Config) {
    cfg.chunk > 0 && forall s: set<Key> | s != {} :: cfg.pick(s) in s
  }

  // ---- what one sync writes ----

  datatype Write =
    | DeleteRows(contract: Contract)
    | DeleteHeight(contract: Contract)
    | Upsert(rows: seq<Log>)
    | SetHeight(contract: Contract, block: nat)

  /** `upsert` with `ignoreDuplicates`: a row whose key is taken is skipped. */
  function AddRows(cache: map<Key, Log>, rows: seq<Log>): map<Key, Log>
    decreases |rows|
  {
    if rows == [] then cache
    else AddRows(if rows[0].key in cache then cache else cache[rows[0].key := rows[0]], rows[1..])
  }

  lemma {:induction false} AddRowsKeeps(cache: map<Key, Log>, rows: seq<Log>)
    ensures forall k | k in cache :: k in AddRows(cache, rows) && AddRows(cache, rows)[k] == cache[k]
    ensures forall k | k in AddRows(cache, rows) && k !in cache ::
      AddRows(cache, rows)[k] in rows && AddRows(cache, rows)[k].key == k
    ensures forall l | l in rows :: l.key in AddRows(cache, rows)
    decreases |rows|
  {
    if rows == [] {
    } else {
      AddRowsKeeps(if rows[0].key in cache then cache else cache[rows[0].key := rows[0]], rows[1..]);
    }
  }

  function ApplyWrite(db: Db, w: Write): Db {
    match w
    case DeleteRows(c) => db.(cache := map k | k in db.cache && db.cache[k].contract != c :: db.cache[k])
    case DeleteHeight(c) => db.(heights := db.heights - {c})
    case Upsert(rows) => db.(cache := AddRows(db.cache, rows))
    case SetHeight(c, block) => db.(heights := db.heights[c := block])
  }

  predicate Wants(l: Log, c: Contract, from: int, to: int) {
    l.contract == c && Tracked(l) && from <= l.block <= to
  }

  /** The tracked logs of a contract in a block range, as rows. */
  function RowsIn(logs: seq<Log>, c: Contract, from: int, to: int): seq<Log> {
    if logs == [] then []
    else (if Wants(logs[0], c, from, to) then [logs[0]] else []) + RowsIn(logs[1..], c, from, to)
  }

  /** The 21 events worth showing; ERC-721 transfers and approvals are not among them. */
  predicate Audited(l: Log) {
    l.event.Some? &&
    var e := l.event.value;
    || e.IdentityRegistered? || e.IdentityHashUpdated? || e.IdentityRevoked? || e.IdentityReactivated?
    || e.RegistrarUpdated?
    || e.OrganizationCreated? || e.OrganizationMetadataUpdated? || e.OrganizationStatusChanged?
    || e.OrgRootAdminTransferred?
    || e.MemberAdded? || e.MemberRemoved? || e.RoleAssigned? || e.RoleExpiryUpdated? || e.PermissionUpdated?
    || e.ApplicationRegistered? || e.AppAccessChanged?
    || e.AssetMinted? || e.AssetAssigned? || e.AssetRevoked? || e.AssetRestored? || e.AssetMetadataUpdated?
  }

  /** A log of the contract's blocks from..to that belongs in the cache. */
  predicate Due(l: Log, c: Contract, from: int, to: int) { l.contract == c && Audited(l) && from <= l.block <= to }

  lemma WantedIsDue(l: Log, c: Contract, from: int, to: int)
    ensures Wants(l, c, from, to) <==> Due(l, c, from, to)
  {
  }

  /** The rows of a query are exactly the contract's logs of the range that carry one of the 21 events. */
  lemma {:induction false} RowsInExactly(logs: seq<Log>, c: Contract, from: int, to: int, l: Log)
    ensures l in RowsIn(logs, c, from, to) <==> l in logs && Due(l, c, from, to)
  {
    hide Wants, Due;
    if logs == [] {
    } else {
      WantedIsDue(l, c, from, to);
      RowsInExactly(logs[1..], c, from, to, l);
    }
  }

  function ChunkWrites(cfg: Config, ch: Chain, c: Contract, start: int): seq<Write>
    requires cfg.chunk > 0
    decreases ch.tip + 1 - start
  {
    if start > ch.tip then []
    else
      var rows := RowsIn(ch.logs, c, start, Min(start + cfg.chunk - 1, ch.tip));
      (if rows == [] then [] else [Upsert(rows)]) + ChunkWrites(cfg, ch, c, start + cfg.chunk)
  }

  function RowsOf(db: Db, c: Contract): set<Key> { set k | k in db.cache && db.cache[k].contract == c }

  /** The rows the query ordered by descending block may return first. */
  function NewestOf(db: Db, c: Contract): set<Key> {
    set k | k in RowsOf(db, c) && forall j | j in RowsOf(db, c) :: db.cache[j].block <= db.cache[k].block
  }

  /** The newest cached transaction is not on the chain. */
  predicate ResetSeen(cfg: Config, db: Db, ch: Chain, c: Contract) {
    RowsOf(db, c) != {} && cfg.pick(NewestOf(db, c)).tx !in ch.txs
  }

  predicate PurgesFirst(cfg: Config, db: Db, ch: Chain, c: Contract, fromBlock: Option<int>) {
    (fromBlock.Some? && fromBlock.value <= cfg.lowerBound) || ResetSeen(cfg, db, ch, c)
  }

  /** Where indexing would start, before the tip is looked at. */
  function Wanted(cfg: Config, db: Db, ch: Chain, c: Contract, fromBlock: Option<int>): int {
    var resume :=
      if c in db.heights && !PurgesFirst(cfg, db, ch, c, fromBlock) then db.heights[c] + 1 else cfg.lowerBound;
    Max(if fromBlock.Some? then fromBlock.value else resume, cfg.lowerBound)
  }

  /** A start beyond the tip is taken for a replaced chain, and indexing starts over from 0. */
  function From(cfg: Config, db: Db, ch: Chain, c: Contract, fromBlock: Option<int>): int {
    if Wanted(cfg, db, ch, c, fromBlock) > ch.tip + 1 then 0 else Wanted(cfg, db, ch, c, fromBlock)
  }

  function Purge(c: Contract): seq<Write> { [DeleteRows(c), DeleteHeight(c)] }

  function PurgeWrites(cfg: Config, db: Db, ch: Chain, c: Contract, fromBlock: Option<int>): seq<Write> {
    (if PurgesFirst(cfg, db, ch, c, fromBlock) then Purge(c) else [])
    + (if Wanted(cfg, db, ch, c, fromBlock) > ch.tip + 1 then Purge(c) else [])
  }

  function ContractWrites(cfg: Config, db: Db, ch: Chain, c: Contract, fromBlock: Option<int>): seq<Write>
    requires cfg.chunk > 0
  {
    PurgeWrites(cfg, db, ch, c, fromBlock) + ChunkWrites(cfg, ch, c, From(cfg, db, ch, c, fromBlock))
      + [SetHeight(c, ch.tip)]
  }

  /** The first n of some writes. */
  function Exec(db: Db, ws: seq<Write>, n: nat): Db
    decreases n
  {
    if n == 0 || ws == [] then db else Exec(ApplyWrite(db, ws[0]), ws[1..], n - 1)
  }

  function ExecAll(db: Db, ws: seq<Write>): Db { Exec(db, ws, |ws|) }

  /** A sync of the listed contracts that stops after n writes, if it has more than n to make. */
  function SyncContracts(cfg: Config, db: Db, ch: Chain, cs: seq<Contract>, fromBlock: Option<int>, n: nat): Db
    requires cfg.chunk > 0
    decreases |cs|
  {
    if cs == [] then db
    else
      var ws := ContractWrites(cfg, db, ch, cs[0], fromBlock);
      if n < |ws| then Exec(db, ws, n)
      else SyncContracts(cfg, ExecAll(db, ws), ch, cs[1..], fromBlock, n - |ws|)
  }

  lemma SyncNext(cfg: Config, db: Db, ch: Chain, cs: seq<Contract>, fromBlock: Option<int>, n: nat)
    requires cfg.chunk > 0 && cs != []
    ensures var ws := ContractWrites(cfg, db, ch, cs[0], fromBlock);
      SyncContracts(cfg, db, ch, cs, fromBlock, n) ==
      if n < |ws| then Exec(db, ws, n) else SyncContracts(cfg, ExecAll(db, ws), ch, cs[1..], fromBlock, n - |ws|)
  {
    hide ContractWrites, Exec;
  }

  predicate Completes(cfg: Config, db: Db, ch: Chain, cs: seq<Contract>, fromBlock: Option<int>, n: nat)
    requires cfg.chunk > 0
    decreases |cs|
  {
    cs == [] ||
    (var ws := ContractWrites(cfg, db, ch, cs[0], fromBlock);
     n >= |ws| && Completes(cfg, ExecAll(db, ws), ch, cs[1..], fromBlock, n - |ws|))
  }

  // ---- the routine itself ----

  lemma {:induction false} ExecConcat(db: Db, a: seq<Write>, b: seq<Write>, n: nat)
    ensures Exec(db, a + b, n) == if n <= |a| then Exec(db, a, n) else Exec(ExecAll(db, a), b, n - |a|)
    decreases n, |a|
  {
    if a == [] {
      assert a + b == b;
    } else if n > 0 {
      assert (a + b)[0] == a[0] && (a + b)[1..] == a[1..] + b;
      hide ApplyWrite;
      ExecConcat(ApplyWrite(db, a[0]), a[1..], b, n - 1);
    }
  }

  lemma {:induction false} ExecEnough(db: Db, ws: seq<Write>, n: nat)
    requires n >= |ws|
    ensures Exec(db, ws, n) == ExecAll(db, ws)
  {
    ExecConcat(db, ws, [], n);
    assert ws + [] == ws;
  }

  lemma {:induction false} ExecNothing(db: Db, n: nat)
    ensures Exec(db, [], n) == db
  {
  }

  /** From db with n writes left to live, ws is what remains of the job. */
  ghost predicate Remains(job: Db, db: Db, ws: seq<Write>, n: nat) { job == Exec(db, ws, n) }

  lemma RemainsStep(job: Db, db: Db, w: Write, ws: seq<Write>, n: nat)
    requires Remains(job, db, [w] + ws, n)
    ensures n > 0 ==> Remains(job, ApplyWrite(db, w), ws, n - 1)
    ensures n == 0 ==> job == db
  {
    assert ([w] + ws)[1..] == ws;
  }

  class AuditIndexer {
    var cache: map<Key, Log>
    var heights: map<Contract, nat>
    /** How many database writes are left before the process is stopped. */
    var left: nat

    constructor ()
      ensures Value() == Db(map[], map[])
    {
      cache, heights, left := map[], map[], 0;
    }

    function Value(): Db
      reads this
    {
      Db(cache, heights)
    }

    /** One database write, if the process lives to make it. */
    method WriteOnce(w: Write) returns (alive: bool)
      modifies this
      ensures alive <==> old(left) > 0
      ensures Value() == if alive then ApplyWrite(old(Value()), w) else old(Value())
      ensures left == if alive then old(left) - 1 else 0
    {
      if left == 0 { return false; }
      left := left - 1;
      match w {
        case DeleteRows(c) => cache := map k | k in cache && cache[k].contract != c :: cache[k];
        case DeleteHeight(c) => heights := heights - {c};
        case Upsert(rows) => cache := AddRows(cache, rows);
        case SetHeight(c, block) => heights := heights[c := block];
      }
      return true;
    }

    method PurgeContractCache(c: Contract, ghost job: Db, ghost ws: seq<Write>) returns (alive: bool)
      requires Remains(job, Value(), Purge(c) + ws, left)
      modifies this
      ensures alive <==> old(left) >= 2
      ensures if alive then Remains(job, Value(), ws, left) && left == old(left) - 2 else Value() == job && left == 0
      ensures alive ==> c !in heights
    {
      assert Purge(c) + ws == [DeleteRows(c)] + ([DeleteHeight(c)] + ws);
      RemainsStep(job, Value(), DeleteRows(c), [DeleteHeight(c)] + ws, left);
      alive := WriteOnce(DeleteRows(c));
      if !alive { return false; }
      RemainsStep(job, Value(), DeleteHeight(c), ws, left);
      alive := WriteOnce(DeleteHeight(c));
    }

    /** The rows of one query, in the order the logs came. */
    method CollectRows(logs: seq<Log>, c: Contract, from: int, to: int) returns (rows: seq<Log>)
      ensures rows == RowsIn(logs, c, from, to)
    {
      rows := [];
      for i := 0 to |logs|
        invariant rows + RowsIn(logs[i..], c, from, to) == RowsIn(logs, c, from, to)
      {
        hide Wants;
        if Wants(logs[i], c, from, to) { rows := rows + [logs[i]]; }
      }
    }

    method IndexChunks(cfg: Config, ch: Chain, c: Contract, from: int, ghost job: Db,
                       ghost ws: seq<Write>) returns (alive: bool)
      requires cfg.chunk > 0 && Remains(job, Value(), ChunkWrites(cfg, ch, c, from) + ws, left)
      modifies this
      ensures alive <==> old(left) >= |ChunkWrites(cfg, ch, c, from)|
      ensures if alive then Remains(job, Value(), ws, left) && left == old(left) - |ChunkWrites(cfg, ch, c, from)|
              else Value() == job && left == 0
    {
      hide RowsIn, AddRows, Exec, ApplyWrite, Remains;
      var start := from;
      while start <= ch.tip
        invariant Remains(job, Value(), ChunkWrites(cfg, ch, c, start) + ws, left)
        invariant left - |ChunkWrites(cfg, ch, c, start)| == old(left) - |ChunkWrites(cfg, ch, c, from)|
        decreases ch.tip + 1 - start
      {
        var end := Min(start + cfg.chunk - 1, ch.tip);
        var rows := CollectRows(ch.logs, c, start, end);
        ghost var later := ChunkWrites(cfg, ch, c, start + cfg.chunk);
        if rows != [] {
          assert ChunkWrites(cfg, ch, c, start) + ws == [Upsert(rows)] + (later + ws);
          RemainsStep(job, Value(), Upsert(rows), later + ws, left);
          alive := WriteOnce(Upsert(rows));
          if !alive { return false; }
        } else {
          assert ChunkWrites(cfg, ch, c, start) == later;
        }
        start := start + cfg.chunk;
      }
      assert ChunkWrites(cfg, ch, c, start) + ws == ws;
      return true;
    }

    /** One turn of the loop over contracts. */
    method SyncContract(cfg: Config, ch: Chain, c: Contract, fromBlock: Option<int>) returns (alive: bool)
      requires cfg.chunk > 0
      modifies this
      ensures alive <==> old(left) >= |ContractWrites(cfg, old(Value()), ch, c, fromBlock)|
      ensures Value() == Exec(old(Value()), ContractWrites(cfg, old(Value()), ch, c, fromBlock), old(left))
      ensures alive ==> left == old(left) - |ContractWrites(cfg, old(Value()), ch, c, fromBlock)|
    {
      hide ChunkWrites, Exec, NewestOf, RowsOf, ApplyWrite;
      ghost var db, ws := Value(), ContractWrites(cfg, Value(), ch, c, fromBlock);
      ghost var job := Exec(db, ws, left);
      ghost var indexing := ChunkWrites(cfg, ch, c, From(cfg, db, ch, c, fromBlock)) + [SetHeight(c, ch.tip)];
      ghost var beyond := if Wanted(cfg, db, ch, c, fromBlock) > ch.tip + 1 then Purge(c) else [];

      var reset := fromBlock.Some? && fromBlock.value <= cfg.lowerBound;
      if !reset && RowsOf(Value(), c) != {} { reset := cfg.pick(NewestOf(Value(), c)).tx !in ch.txs; }
      if reset {
        assert ws == Purge(c) + (beyond + indexing);
        alive := PurgeContractCache(c, job, beyond + indexing);
        if !alive { return false; }
      } else {
        assert ws == beyond + indexing;
      }

      var resume := if c in heights then heights[c] + 1 else cfg.lowerBound;
      var from := Max(if fromBlock.Some? then fromBlock.value else resume, cfg.lowerBound);
      assert reset == PurgesFirst(cfg, db, ch, c, fromBlock);
      assert from == Wanted(cfg, db, ch, c, fromBlock);
      if from > ch.tip + 1 {
        assert beyond + indexing == Purge(c) + indexing;
        alive := PurgeContractCache(c, job, indexing);
        if !alive { return false; }
        from := 0;
      } else {
        assert beyond + indexing == indexing;
      }

      alive := IndexChunks(cfg, ch, c, from, job, [SetHeight(c, ch.tip)]);
      if !alive { return false; }
      assert [SetHeight(c, ch.tip)] == [SetHeight(c, ch.tip)] + [];
      RemainsStep(job, Value(), SetHeight(c, ch.tip), [], left);
      alive := WriteOnce(SetHeight(c, ch.tip));
      ExecNothing(Value(), left);
    }

    /** syncEvents; false when the process was stopped before the end. */
    method SyncEvents(cfg: Config, ch: Chain, fromBlock: Option<int>) returns (finished: bool)
      requires cfg.chunk > 0
      modifies this
      ensures finished <==> Completes(cfg, old(Value()), ch, CONTRACTS, fromBlock, old(left))
      ensures Value() == SyncContracts(cfg, old(Value()), ch, CONTRACTS, fromBlock, old(left))
    {
      ghost var job := SyncContracts(cfg, Value(), ch, CONTRACTS, fromBlock, left);
      ghost var done := Completes(cfg, Value(), ch, CONTRACTS, fromBlock, left);
      for i := 0 to |CONTRACTS|
        invariant job == SyncContracts(cfg, Value(), ch, CONTRACTS[i..], fromBlock, left)
        invariant done == Completes(cfg, Value(), ch, CONTRACTS[i..], fromBlock, left)
      {
        assert CONTRACTS[i..][1..] == CONTRACTS[i + 1..];
        hide ContractWrites, Exec;
        ghost var db, n := Value(), left;
        var alive := SyncContract(cfg, ch, CONTRACTS[i], fromBlock);
        if alive { ExecEnough(db, ContractWrites(cfg, db, ch, CONTRACTS[i], fromBlock), n); }
        if !alive { return false; }
      }
      return true;
    }
  }
}
