/** A replaced chain: what one default sync, run to its end, makes of a dead chain's rows. */
module IndexerReset {
  import opened Texts
  import opened Indexer
  import opened IndexerFacts

  // ---- a replaced chain ----

  /** A row of a chain that shares no transaction with this one. */
  predicate Dead(ch: Chain, k: Key) { k.tx !in ch.txs }

  /** Each cached row is dead or a log of the chain. */
  ghost predicate Mixed(db: Db, ch: Chain) {
    forall k | k in db.cache :: Dead(ch, k) || OnChain(ch, k, db.cache[k])
  }

  ghost predicate AllDead(db: Db, ch: Chain, c: Contract) { forall k | k in RowsOf(db, c) :: Dead(ch, k) }

  /** The contract's rows are exactly its tracked logs from a block on. */
  ghost predicate ContractMirrors(db: Db, ch: Chain, c: Contract, from: int) {
    && (forall k | k in RowsOf(db, c) :: OnChain(ch, k, db.cache[k]) && Due(db.cache[k], c, from, ch.tip))
    && (forall l | l in ch.logs && Due(l, c, from, ch.tip) :: l.key in db.cache && db.cache[l.key] == l)
  }

  /** Everything of the other contracts is as it was. */
  ghost predicate OthersSame(db: Db, db': Db, c: Contract) {
    && OtherHeights(db, db', c)
    && (forall k | k in db.cache && db.cache[k].contract != c :: k in db'.cache && db'.cache[k] == db.cache[k])
    && (forall k | k in db'.cache && db'.cache[k].contract != c :: k in db.cache && db'.cache[k] == db.cache[k])
  }

  lemma PurgedClean(db: Db, ch: Chain, c: Contract)
    requires Mixed(db, ch)
    ensures var db' := ExecAll(db, Purge(c));
      Mixed(db', ch) && OthersSame(db, db', c) && RowsOf(db', c) == {}
  {
    ExecPurge(db, c, 2);
  }

  /** Indexing into a table without rows of the contract. */
  lemma {:induction false} IndexedMirrors(cfg: Config, db: Db, ch: Chain, c: Contract, from: int)
    requires cfg.chunk > 0 && ValidChain(ch) && Mixed(db, ch) && RowsOf(db, c) == {}
    ensures var db' := ExecAll(db, ChunkWrites(cfg, ch, c, from) + [SetHeight(c, ch.tip)]);
      Mixed(db', ch) && OthersSame(db, db', c) && ContractMirrors(db', ch, c, from)
  {
    var chunks, last := ChunkWrites(cfg, ch, c, from), [SetHeight(c, ch.tip)];
    var mid := ExecAll(db, chunks);
    ExecConcat(db, chunks, last, |chunks| + 1);
    LastWrite(mid, last[0], 1);
    ChunksAdd(cfg, db, ch, c, from, |chunks|);
    hide ChunkWrites;
    var db' := ExecAll(db, chunks + last);
    assert db' == mid.(heights := mid.heights[c := ch.tip]);
    forall k | k in db'.cache && db'.cache[k].contract == c ensures k !in db.cache {
      assert k in db.cache ==> k in RowsOf(db, c);
    }
    forall l | l in ch.logs && Due(l, c, from, ch.tip) ensures l.key in db'.cache && db'.cache[l.key] == l {
      assert l.key in db.cache ==> OnChain(ch, l.key, db.cache[l.key]);
    }
  }

  lemma SameTwice(a: Db, b: Db, d: Db, c: Contract)
    requires OthersSame(a, b, c) && OthersSame(b, d, c)
    ensures OthersSame(a, d, c)
  {
  }

  lemma PurgedTwice(db: Db, c: Contract, indexing: seq<Write>)
    ensures ExecAll(db, Purge(c) + indexing) == ExecAll(ExecAll(db, Purge(c)), indexing)
  {
    ExecConcat(db, Purge(c), indexing, |Purge(c) + indexing|);
    if indexing == [] { ExecNothing(ExecAll(db, Purge(c)), 0); }
  }

  /** Without rows of the contract, purging it again changes no row, and mirrors all the same. */
  lemma {:induction false} PurgedMirrors(cfg: Config, db: Db, ch: Chain, c: Contract, from: int)
    requires cfg.chunk > 0 && ValidChain(ch) && Mixed(db, ch)
    ensures var db' := ExecAll(db, Purge(c) + (ChunkWrites(cfg, ch, c, from) + [SetHeight(c, ch.tip)]));
      Mixed(db', ch) && OthersSame(db, db', c) && ContractMirrors(db', ch, c, from)
  {
    var indexing := ChunkWrites(cfg, ch, c, from) + [SetHeight(c, ch.tip)];
    var mid := ExecAll(db, Purge(c));
    PurgedClean(db, ch, c);
    IndexedMirrors(cfg, mid, ch, c, from);
    PurgedTwice(db, c, indexing);
    SameTwice(db, mid, ExecAll(mid, indexing), c);
  }

  /** One contract's turn on a chain that shares nothing with its rows. */
  lemma TurnMirrors(cfg: Config, db: Db, ch: Chain, c: Contract)
    requires ValidConfig(cfg) && ValidChain(ch) && Mixed(db, ch) && AllDead(db, ch, c)
    ensures var db' := ExecAll(db, ContractWrites(cfg, db, ch, c, None));
      Mixed(db', ch) && OthersSame(db, db', c) && ContractMirrors(db', ch, c, From(cfg, db, ch, c, None))
  {
    var from := From(cfg, db, ch, c, None);
    var indexing := ChunkWrites(cfg, ch, c, from) + [SetHeight(c, ch.tip)];
    var beyond := Wanted(cfg, db, ch, c, None) > ch.tip + 1;
    var db1 := ExecAll(db, Purge(c));
    if RowsOf(db, c) != {} { PickedRow(cfg, db, c); }
    assert PurgesFirst(cfg, db, ch, c, None) <==> RowsOf(db, c) != {};
    hide ChunkWrites, ValidChain, ContractMirrors, OthersSame, Mixed, AllDead, ResetSeen, RowsOf;
    if PurgesFirst(cfg, db, ch, c, None) && beyond {
      assert ContractWrites(cfg, db, ch, c, None) == Purge(c) + (Purge(c) + indexing);
      PurgedTwice(db, c, Purge(c) + indexing);
      PurgedClean(db, ch, c);
      PurgedMirrors(cfg, db1, ch, c, from);
      SameTwice(db, db1, ExecAll(db1, Purge(c) + indexing), c);
    } else if PurgesFirst(cfg, db, ch, c, None) || beyond {
      assert ContractWrites(cfg, db, ch, c, None) == Purge(c) + indexing;
      PurgedMirrors(cfg, db, ch, c, from);
    } else {
      assert ContractWrites(cfg, db, ch, c, None) == indexing;
      IndexedMirrors(cfg, db, ch, c, from);
    }
  }

  /** Another contract's turn leaves rows, start and deadness as they were. */
  lemma Untouched(cfg: Config, db: Db, db': Db, ch: Chain, c: Contract, d: Contract)
    requires OthersSame(db, db', c) && d != c
    ensures From(cfg, db', ch, d, None) == From(cfg, db, ch, d, None)
    ensures AllDead(db, ch, d) ==> AllDead(db', ch, d)
    ensures forall from: int :: ContractMirrors(db, ch, d, from) ==> ContractMirrors(db', ch, d, from)
  {
    assert RowsOf(db', d) == RowsOf(db, d);
    assert NewestOf(db', d) == NewestOf(db, d);
    assert d in db.heights - {c} <==> d in db.heights;
    assert d in db'.heights - {c} <==> d in db'.heights;
  }

  ghost predicate AllMirror(cfg: Config, db: Db, db': Db, ch: Chain, cs: seq<Contract>) {
    forall c | c in cs :: ContractMirrors(db', ch, c, From(cfg, db, ch, c, None))
  }

  lemma TurnKeepsMirrors(cfg: Config, db: Db, ch: Chain, start: Db, done: seq<Contract>, cs: seq<Contract>)
    requires ValidConfig(cfg) && ValidChain(ch) && Mixed(db, ch)
    requires cs != [] && Distinct(cs) && (forall c | c in done :: c !in cs)
    requires forall c | c in cs :: AllDead(db, ch, c) && From(cfg, db, ch, c, None) == From(cfg, start, ch, c, None)
    requires AllMirror(cfg, start, db, ch, done)
    ensures var db' := ExecAll(db, ContractWrites(cfg, db, ch, cs[0], None));
      && Mixed(db', ch)
      && AllMirror(cfg, start, db', ch, done + [cs[0]])
      && forall c | c in cs[1..] :: AllDead(db', ch, c) && From(cfg, db', ch, c, None) == From(cfg, start, ch, c, None)
  {
    hide ContractWrites, Exec, ValidChain, ContractMirrors, AllDead, OthersSame, Mixed, From;
    var c, db' := cs[0], ExecAll(db, ContractWrites(cfg, db, ch, cs[0], None));
    TurnMirrors(cfg, db, ch, c);
    forall d | d in done + cs[1..]
      ensures From(cfg, db', ch, d, None) == From(cfg, db, ch, d, None)
      ensures AllDead(db, ch, d) ==> AllDead(db', ch, d)
      ensures ContractMirrors(db, ch, d, From(cfg, start, ch, d, None)) ==>
        ContractMirrors(db', ch, d, From(cfg, start, ch, d, None))
    {
      Untouched(cfg, db, db', ch, c, d);
    }
  }

  lemma {:induction false} SyncMirrors(cfg: Config, db: Db, ch: Chain, start: Db, done: seq<Contract>,
                                       cs: seq<Contract>, n: nat)
    requires ValidConfig(cfg) && ValidChain(ch) && Mixed(db, ch)
    requires Distinct(cs) && (forall c | c in done :: c !in cs)
    requires forall c | c in cs :: AllDead(db, ch, c) && From(cfg, db, ch, c, None) == From(cfg, start, ch, c, None)
    requires AllMirror(cfg, start, db, ch, done)
    requires Completes(cfg, db, ch, cs, None, n)
    ensures AllMirror(cfg, start, SyncContracts(cfg, db, ch, cs, None, n), ch, done + cs)
    decreases |cs|
  {
    if cs == [] {
      assert done + cs == done;
    } else {
      hide ContractWrites, Exec, ValidChain, AllDead, Mixed, From, AllMirror;
      var ws := ContractWrites(cfg, db, ch, cs[0], None);
      TurnKeepsMirrors(cfg, db, ch, start, done, cs);
      SyncNext(cfg, db, ch, cs, None, n);
      hide SyncContracts;
      SyncMirrors(cfg, ExecAll(db, ws), ch, start, done + [cs[0]], cs[1..], n - |ws|);
      assert done + [cs[0]] + cs[1..] == done + cs;
    }
  }

  /**
   After the chain was replaced by one sharing no transaction, one completed sync leaves each
   contract's rows equal to the new chain's tracked logs from its start on.
   */
  lemma {:induction false} ReplacedChain(cfg: Config, db: Db, ch: Chain, c: Contract, n: nat)
    requires ValidConfig(cfg) && ValidChain(ch) && forall k | k in db.cache :: Dead(ch, k)
    requires Completes(cfg, db, ch, CONTRACTS, None, n) && c in CONTRACTS
    ensures ContractMirrors(SyncContracts(cfg, db, ch, CONTRACTS, None, n), ch, c, From(cfg, db, ch, c, None))
  {
    hide Completes, SyncContracts;
    assert Mixed(db, ch);
    SyncMirrors(cfg, db, ch, db, [], CONTRACTS, n);
    assert [] + CONTRACTS == CONTRACTS;
  }

  /** Where that start is: at the lower bound, unless the tip or a recorded height says otherwise. */
  lemma ReplacedStart(cfg: Config, db: Db, ch: Chain, c: Contract)
    requires ValidConfig(cfg) && AllDead(db, ch, c)
    ensures From(cfg, db, ch, c, None) ==
      if RowsOf(db, c) != {} || c !in db.heights then (if cfg.lowerBound > ch.tip + 1 then 0 else cfg.lowerBound)
      else if Max(db.heights[c] + 1, cfg.lowerBound) > ch.tip + 1 then 0
      else Max(db.heights[c] + 1, cfg.lowerBound)
  {
    if RowsOf(db, c) != {} { PickedRow(cfg, db, c); }
  }

  lemma MirrorsFrom(db: Db, ch: Chain, c: Contract, from: int, low: int)
    requires ValidChain(ch) && ContractMirrors(db, ch, c, from)
    ensures ContractMirrors(db, ch, c, low) <==>
      forall l | l in ch.logs && l.contract == c && Audited(l) :: (from <= l.block <==> low <= l.block)
  {
    if ContractMirrors(db, ch, c, low) {
      forall l | l in ch.logs && l.contract == c && Audited(l) ensures from <= l.block <==> low <= l.block {
        if from <= l.block { assert Due(l, c, from, ch.tip) && l.key in RowsOf(db, c); }
        if low <= l.block { assert Due(l, c, low, ch.tip) && l.key in RowsOf(db, c); }
      }
    }
    if forall l | l in ch.logs && l.contract == c && Audited(l) :: (from <= l.block <==> low <= l.block) {
      MirrorsShift(db, ch, c, from, low);
    }
  }

  lemma MirrorsShift(db: Db, ch: Chain, c: Contract, from: int, low: int)
    requires ValidChain(ch) && ContractMirrors(db, ch, c, from)
    requires forall l | l in ch.logs && l.contract == c && Audited(l) :: (from <= l.block <==> low <= l.block)
    ensures ContractMirrors(db, ch, c, low)
  {
  }

  /**
   The rebuilt cache starts at the configured start block exactly when no tracked log
   lies between that bound and the start the sync chose.
   */
  lemma {:induction false} RebuiltFromLowerBound(cfg: Config, db: Db, ch: Chain, c: Contract, n: nat)
    requires ValidConfig(cfg) && ValidChain(ch) && forall k | k in db.cache :: Dead(ch, k)
    requires Completes(cfg, db, ch, CONTRACTS, None, n) && c in CONTRACTS
    ensures ContractMirrors(SyncContracts(cfg, db, ch, CONTRACTS, None, n), ch, c, cfg.lowerBound) <==>
      forall l | l in ch.logs && l.contract == c && Audited(l) ::
        (From(cfg, db, ch, c, None) <= l.block <==> cfg.lowerBound <= l.block)
  {
    hide Completes, SyncContracts, ContractMirrors;
    ReplacedChain(cfg, db, ch, c, n);
    MirrorsFrom(SyncContracts(cfg, db, ch, CONTRACTS, None, n), ch, c, From(cfg, db, ch, c, None), cfg.lowerBound);
  }

  /** Left to run, a sync completes. */
  lemma {:induction false} EnoughWrites(cfg: Config, db: Db, ch: Chain, cs: seq<Contract>,
                                        fromBlock: Option<int>) returns (n: nat)
    requires cfg.chunk > 0
    ensures Completes(cfg, db, ch, cs, fromBlock, n)
    decreases |cs|
  {
    n := 0;
    if cs == [] {
    } else {
      hide ContractWrites, Exec;
      var ws := ContractWrites(cfg, db, ch, cs[0], fromBlock);
      var more := EnoughWrites(cfg, ExecAll(db, ws), ch, cs[1..], fromBlock);
      n := |ws| + more;
    }
  }

  /**
   A reset noticed by height alone indexes from block 0: a contract that had a height but no
   rows ends up with rows from below the configured start block.
   */
  lemma HeightResetOvershoots(cfg: Config, l: Log) returns (db: Db, ch: Chain, n: nat)
    requires ValidConfig(cfg) && Audited(l) && 0 < l.block < cfg.lowerBound
    ensures db == Db(map[], map[l.contract := l.block + 5]) && ch == Chain(l.block, [l], {l.key.tx})
    ensures Completes(cfg, db, ch, CONTRACTS, None, n)
    ensures !ContractMirrors(SyncContracts(cfg, db, ch, CONTRACTS, None, n), ch, l.contract, cfg.lowerBound)
  {
    hide Completes, SyncContracts, ContractMirrors;
    db, ch := Db(map[], map[l.contract := l.block + 5]), Chain(l.block, [l], {l.key.tx});
    n := EnoughWrites(cfg, db, ch, CONTRACTS, None);
    assert l in ch.logs;
    EveryContract(l.contract);
    RebuiltFromLowerBound(cfg, db, ch, l.contract, n);
    ReplacedStart(cfg, db, ch, l.contract);
  }
}
