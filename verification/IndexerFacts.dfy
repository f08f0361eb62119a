/**
 What one sync keeps about the audit cache: every cached row is a tracked log of the chain, and
 up to the recorded height none is missing.
 */
module IndexerFacts {
  import opened Texts
  import opened Indexer

  // ---- the invariant ----

  predicate OnChain(ch: Chain, k: Key, l: Log) { l in ch.logs && l.key == k && Audited(l) }

  /** Every cached row is a tracked log of the chain. */
  ghost predicate Sound(db: Db, ch: Chain) { forall k | k in db.cache :: OnChain(ch, k, db.cache[k]) }

  /** Every tracked log of the contract in the range is cached. */
  ghost predicate Covers(db: Db, ch: Chain, c: Contract, from: int, to: int) {
    forall l | l in ch.logs && Due(l, c, from, to) :: l.key in db.cache
  }

  /** Up to its recorded height each contract is cached without a gap. */
  ghost predicate Gapless(cfg: Config, db: Db, ch: Chain) {
    forall c | c in db.heights :: db.heights[c] <= ch.tip && Covers(db, ch, c, cfg.lowerBound, db.heights[c])
  }

  ghost predicate Good(cfg: Config, db: Db, ch: Chain) { Sound(db, ch) && Gapless(cfg, db, ch) }

  /** A sound cache holds a log it covers once: under its own key, and under no other. */
  lemma CachedOnce(db: Db, ch: Chain, l: Log)
    requires ValidChain(ch) && Sound(db, ch) && l in ch.logs && l.key in db.cache
    ensures db.cache[l.key] == l
    ensures forall k | k in db.cache && db.cache[k] == l :: k == l.key
  {
    assert OnChain(ch, l.key, db.cache[l.key]);
  }

  // ---- what indexing a range adds, exactly ----

  /** Only wanted logs are added, and nothing cached is changed. */
  ghost predicate Adds(db: Db, db': Db, ch: Chain, c: Contract, from: int) {
    && db'.heights == db.heights
    && (forall k | k in db.cache :: k in db'.cache && db'.cache[k] == db.cache[k])
    && (forall k | k in db'.cache && k !in db.cache ::
          db'.cache[k] in ch.logs && Due(db'.cache[k], c, from, ch.tip) && db'.cache[k].key == k)
  }

  lemma AddsAgain(a: Db, b: Db, d: Db, ch: Chain, c: Contract, from: int, next: int)
    requires Adds(a, b, ch, c, from) && Adds(b, d, ch, c, next) && from <= next
    ensures Adds(a, d, ch, c, from)
  {
    forall k | k in d.cache && k !in a.cache
      ensures d.cache[k] in ch.logs && Due(d.cache[k], c, from, ch.tip) && d.cache[k].key == k
    {
      if k in b.cache { assert d.cache[k] == b.cache[k]; }
    }
  }

  lemma {:induction false} RangeAdds(db: Db, ch: Chain, c: Contract, from: int, to: int)
    requires to <= ch.tip
    ensures var rows := RowsIn(ch.logs, c, from, to);
      var db' := ApplyWrite(db, Upsert(rows));
      && Adds(db, db', ch, c, from) && Covers(db', ch, c, from, to)
      && (rows == [] ==> Covers(db, ch, c, from, to))
  {
    var rows := RowsIn(ch.logs, c, from, to);
    forall l ensures l in rows <==> l in ch.logs && Due(l, c, from, to) { RowsInExactly(ch.logs, c, from, to, l); }
    hide RowsIn;
    AddRowsKeeps(db.cache, rows);
  }

  lemma CoversAdds(db: Db, db': Db, ch: Chain, c: Contract, d: Contract, start: int, from: int, to: int)
    requires Covers(db, ch, c, from, to) && Adds(db, db', ch, d, start)
    ensures Covers(db', ch, c, from, to)
  {
  }

  lemma {:induction false} ChunksAdd(cfg: Config, db: Db, ch: Chain, c: Contract, from: int, n: nat)
    requires cfg.chunk > 0
    ensures var ws := ChunkWrites(cfg, ch, c, from);
      && Adds(db, Exec(db, ws, n), ch, c, from)
      && (n >= |ws| ==> Covers(Exec(db, ws, n), ch, c, from, ch.tip))
    decreases ch.tip + 1 - from
  {
    var ws := ChunkWrites(cfg, ch, c, from);
    AddsNothing(db, ch, c, from);
    if from > ch.tip {
    } else {
      var to := Min(from + cfg.chunk - 1, ch.tip);
      var rows, next := RowsIn(ch.logs, c, from, to), from + cfg.chunk;
      var later := ChunkWrites(cfg, ch, c, next);
      var db' := if rows == [] then db else ApplyWrite(db, Upsert(rows));
      RangeAdds(db, ch, c, from, to);
      if rows == [] { assert ws == later; } else { assert ws == [Upsert(rows)] + later && ws[1..] == later; }
      hide Adds, Covers, RowsIn, ApplyWrite;
      if rows == [] || n > 0 {
        var n' := if rows == [] then n else n - 1;
        ChunksAdd(cfg, db', ch, c, next, n');
        assert Exec(db, ws, n) == Exec(db', later, n');
        AddsAgain(db, db', Exec(db, ws, n), ch, c, from, next);
        CoversAdds(db', Exec(db, ws, n), ch, c, c, next, from, to);
        if n >= |ws| { CoversTail(Exec(db, ws, n), ch, c, from, to, next); }
      }
    }
  }

  lemma AddsNothing(db: Db, ch: Chain, c: Contract, from: int)
    ensures Adds(db, db, ch, c, from)
  {
  }

  lemma CoversTail(db: Db, ch: Chain, c: Contract, from: int, to: int, next: int)
    requires Covers(db, ch, c, from, to) && Covers(db, ch, c, next, ch.tip) && (next == to + 1 || to == ch.tip)
    ensures Covers(db, ch, c, from, ch.tip)
  {
  }

  /** Adding logs of the chain keeps the invariant. */
  lemma AddsGood(cfg: Config, db: Db, db': Db, ch: Chain, c: Contract, from: int)
    requires Good(cfg, db, ch) && Adds(db, db', ch, c, from)
    ensures Good(cfg, db', ch)
  {
    forall k | k in db'.cache ensures OnChain(ch, k, db'.cache[k]) {
      if k in db.cache { assert OnChain(ch, k, db.cache[k]); }
    }
    forall d | d in db'.heights ensures Covers(db', ch, d, cfg.lowerBound, db'.heights[d]) {
      assert Covers(db, ch, d, cfg.lowerBound, db.heights[d]);
    }
  }

  // ---- one contract's turn ----

  lemma {:induction false} SomeNewest(db: Db, keys: set<Key>) returns (k: Key)
    requires keys != {} && forall j | j in keys :: j in db.cache
    ensures k in keys && forall j | j in keys :: db.cache[j].block <= db.cache[k].block
    decreases |keys|
  {
    k :| k in keys;
    var others := keys - {k};
    assert forall j | j in keys :: j == k || j in others;
    if others == {} {
    } else {
      var j := SomeNewest(db, others);
      if db.cache[j].block > db.cache[k].block { k := j; }
    }
  }

  /** The row the query answers with is a cached row of the contract. */
  lemma PickedRow(cfg: Config, db: Db, c: Contract)
    requires ValidConfig(cfg) && RowsOf(db, c) != {}
    ensures cfg.pick(NewestOf(db, c)) in RowsOf(db, c)
  {
    var k := SomeNewest(db, RowsOf(db, c));
    assert k in NewestOf(db, c);
  }

  /** A cached row of the contract that no other of its rows has a later block than. */
  predicate Newest(db: Db, c: Contract, k: Key) {
    && k in db.cache && db.cache[k].contract == c
    && forall j | j in db.cache && db.cache[j].contract == c :: db.cache[j].block <= db.cache[k].block
  }

  /**
   A reset is noticed only by a newest row whose transaction the chain does not have, and it
   is noticed whenever that holds of every newest row; older rows are never looked at.
   */
  lemma ResetSeenExactly(cfg: Config, db: Db, ch: Chain, c: Contract)
    requires ValidConfig(cfg)
    ensures ResetSeen(cfg, db, ch, c) ==> exists k :: Newest(db, c, k) && k.tx !in ch.txs
    ensures (exists k :: Newest(db, c, k)) && (forall k | Newest(db, c, k) :: k.tx !in ch.txs) ==>
      ResetSeen(cfg, db, ch, c)
  {
    forall k ensures k in NewestOf(db, c) <==> Newest(db, c, k) {
      if k in NewestOf(db, c) {
        forall j | j in db.cache && db.cache[j].contract == c ensures db.cache[j].block <= db.cache[k].block {
          assert j in RowsOf(db, c);
        }
      }
    }
    if RowsOf(db, c) != {} {
      var k := SomeNewest(db, RowsOf(db, c));
      assert k in NewestOf(db, c);
      assert cfg.pick(NewestOf(db, c)) in NewestOf(db, c);
    }
    if k :| Newest(db, c, k) { assert k in RowsOf(db, c); }
  }

  /** On the chain its rows came from, the cache is never taken for a dead one. */
  lemma NoReset(cfg: Config, db: Db, ch: Chain, c: Contract)
    requires ValidConfig(cfg) && ValidChain(ch) && Sound(db, ch)
    ensures !ResetSeen(cfg, db, ch, c)
  {
    if RowsOf(db, c) != {} {
      PickedRow(cfg, db, c);
      var k := cfg.pick(NewestOf(db, c));
      assert OnChain(ch, k, db.cache[k]);
    }
  }

  /** A default sync, or an explicit start in (lower bound, last block + 1]. */
  predicate Steady(cfg: Config, db: Db, c: Contract, fromBlock: Option<int>) {
    fromBlock.Some? ==> cfg.lowerBound < fromBlock.value && c in db.heights && fromBlock.value <= db.heights[c] + 1
  }

  /** The other contracts' heights are as they were. */
  predicate OtherHeights(db: Db, db': Db, c: Contract) {
    db'.heights - {c} == db.heights - {c}
  }

  lemma {:induction false} ExecPurge(db: Db, c: Contract, n: nat)
    ensures var db1 := ApplyWrite(db, DeleteRows(c));
      Exec(db, Purge(c), n) == if n == 0 then db else if n == 1 then db1 else ApplyWrite(db1, DeleteHeight(c))
  {
    hide ApplyWrite;
    assert Purge(c)[1..] == [DeleteHeight(c)];
    if n > 1 { LastWrite(ApplyWrite(db, DeleteRows(c)), DeleteHeight(c), n - 1); }
  }

  /** With no block of the chain at or above the lower bound, a purge loses nothing that is owed. */
  lemma {:induction false} PurgeGood(cfg: Config, db: Db, ch: Chain, c: Contract, n: nat)
    requires Good(cfg, db, ch) && cfg.lowerBound > ch.tip
    ensures Good(cfg, Exec(db, Purge(c), n), ch) && OtherHeights(db, Exec(db, Purge(c), n), c)
    ensures n >= 2 ==> c !in Exec(db, Purge(c), n).heights
  {
    var db1 := ApplyWrite(db, DeleteRows(c));
    assert Good(cfg, db1, ch) by {
      forall k | k in db1.cache ensures OnChain(ch, k, db1.cache[k]) { assert OnChain(ch, k, db.cache[k]); }
    }
    var db2 := ApplyWrite(db1, DeleteHeight(c));
    assert Good(cfg, db2, ch);
    ExecPurge(db, c, n);
  }

  lemma HeightSet(cfg: Config, db: Db, ch: Chain, c: Contract)
    requires Good(cfg, db, ch) && Covers(db, ch, c, cfg.lowerBound, ch.tip)
    ensures Good(cfg, ApplyWrite(db, SetHeight(c, ch.tip)), ch)
  {
    var db' := ApplyWrite(db, SetHeight(c, ch.tip));
    forall k | k in db'.cache ensures OnChain(ch, k, db'.cache[k]) { assert OnChain(ch, k, db.cache[k]); }
    forall d | d in db'.heights ensures db'.heights[d] <= ch.tip && Covers(db', ch, d, cfg.lowerBound, db'.heights[d]) {
      if d != c { assert Covers(db, ch, d, cfg.lowerBound, db.heights[d]); }
    }
  }

  /** The range before the start is covered already, by the recorded height. */
  lemma CoveredBefore(cfg: Config, db: Db, ch: Chain, c: Contract, from: int)
    requires Good(cfg, db, ch)
    requires from <= cfg.lowerBound || (c in db.heights && from <= db.heights[c] + 1)
    ensures Covers(db, ch, c, cfg.lowerBound, from - 1)
  {
    if c in db.heights { assert Covers(db, ch, c, cfg.lowerBound, db.heights[c]); }
  }

  lemma CoversWhole(db: Db, ch: Chain, c: Contract, low: int, from: int)
    requires Covers(db, ch, c, low, from - 1) && Covers(db, ch, c, from, ch.tip)
    ensures Covers(db, ch, c, low, ch.tip)
  {
  }

  lemma AddsHeights(db: Db, db': Db, ch: Chain, c: Contract, from: int)
    requires Adds(db, db', ch, c, from)
    ensures db'.heights == db.heights
  {
  }

  /** Indexing a range and recording the tip, at every stop. */
  lemma {:induction false} IndexGood(cfg: Config, db: Db, ch: Chain, c: Contract, from: int, n: nat)
    requires cfg.chunk > 0 && Good(cfg, db, ch) && Covers(db, ch, c, cfg.lowerBound, from - 1)
    ensures var ws := ChunkWrites(cfg, ch, c, from) + [SetHeight(c, ch.tip)];
      && Good(cfg, Exec(db, ws, n), ch) && OtherHeights(db, Exec(db, ws, n), c)
      && (n >= |ws| ==> c in Exec(db, ws, n).heights && Exec(db, ws, n).heights[c] == ch.tip)
  {
    var chunks, last := ChunkWrites(cfg, ch, c, from), [SetHeight(c, ch.tip)];
    hide Good, Covers, Adds, ChunkWrites;
    ChunksAdd(cfg, db, ch, c, from, n);
    AddsGood(cfg, db, Exec(db, chunks, n), ch, c, from);
    AddsHeights(db, Exec(db, chunks, n), ch, c, from);
    ExecConcat(db, chunks, last, n);
    if n > |chunks| {
      var db' := ExecAll(db, chunks);
      ChunksAdd(cfg, db, ch, c, from, |chunks|);
      AddsGood(cfg, db, db', ch, c, from);
      AddsHeights(db, db', ch, c, from);
      CoversAdds(db, db', ch, c, c, from, cfg.lowerBound, from - 1);
      CoversWhole(db', ch, c, cfg.lowerBound, from);
      HeightSet(cfg, db', ch, c);
      LastWrite(db', last[0], n - |chunks|);
    }
  }

  lemma {:induction false} LastWrite(db: Db, w: Write, n: nat)
    requires n > 0
    ensures Exec(db, [w], n) == ApplyWrite(db, w)
  {
    assert [w][1..] == [];
  }

  lemma {:induction false} ContractGood(cfg: Config, db: Db, ch: Chain, c: Contract, fromBlock: Option<int>, n: nat)
    requires ValidConfig(cfg) && ValidChain(ch) && Good(cfg, db, ch) && Steady(cfg, db, c, fromBlock)
    ensures var ws := ContractWrites(cfg, db, ch, c, fromBlock);
      && Good(cfg, Exec(db, ws, n), ch) && OtherHeights(db, Exec(db, ws, n), c)
      && (n >= |ws| ==> c in Exec(db, ws, n).heights && Exec(db, ws, n).heights[c] == ch.tip)
  {
    NoReset(cfg, db, ch, c);
    var from, ws := From(cfg, db, ch, c, fromBlock), ContractWrites(cfg, db, ch, c, fromBlock);
    var indexing := ChunkWrites(cfg, ch, c, from) + [SetHeight(c, ch.tip)];
    hide ChunkWrites, ResetSeen, Covers, ValidChain, Sound;
    if Wanted(cfg, db, ch, c, fromBlock) > ch.tip + 1 {
      assert ws == Purge(c) + indexing;
      ExecConcat(db, Purge(c), indexing, n);
      PurgeGood(cfg, db, ch, c, n);
      PurgeGood(cfg, db, ch, c, 2);
      hide Good;
      if n > 2 {
        var db' := ExecAll(db, Purge(c));
        CoveredBefore(cfg, db', ch, c, 0);
        IndexGood(cfg, db', ch, c, 0, n - 2);
      }
    } else {
      assert ws == indexing;
      CoveredBefore(cfg, db, ch, c, from);
      IndexGood(cfg, db, ch, c, from, n);
    }
  }

  // ---- one sync ----

  ghost predicate AllSteady(cfg: Config, db: Db, cs: seq<Contract>, fromBlock: Option<int>) {
    forall c | c in cs :: Steady(cfg, db, c, fromBlock)
  }

  lemma SteadyStays(cfg: Config, db: Db, db': Db, c: Contract, cs: seq<Contract>, fromBlock: Option<int>)
    requires OtherHeights(db, db', c) && c !in cs && AllSteady(cfg, db, cs, fromBlock)
    ensures AllSteady(cfg, db', cs, fromBlock)
  {
    forall d | d in cs ensures Steady(cfg, db', d, fromBlock) {
      assert Steady(cfg, db, d, fromBlock);
      assert d in db.heights ==> d in db.heights - {c};
    }
  }

  /** At whatever write a sync is stopped, the invariant holds. */
  lemma {:induction false} SyncGood(cfg: Config, db: Db, ch: Chain, cs: seq<Contract>, fromBlock: Option<int>, n: nat)
    requires ValidConfig(cfg) && ValidChain(ch) && Good(cfg, db, ch)
    requires Distinct(cs) && AllSteady(cfg, db, cs, fromBlock)
    ensures Good(cfg, SyncContracts(cfg, db, ch, cs, fromBlock, n), ch)
    decreases |cs|
  {
    if cs == [] {
    } else {
      hide Good, ContractWrites, Exec, ValidChain, ValidConfig, OtherHeights, Steady;
      var ws := ContractWrites(cfg, db, ch, cs[0], fromBlock);
      assert Steady(cfg, db, cs[0], fromBlock);
      SyncNext(cfg, db, ch, cs, fromBlock, n);
      hide SyncContracts;
      ContractGood(cfg, db, ch, cs[0], fromBlock, n);
      if n >= |ws| {
        ContractGood(cfg, db, ch, cs[0], fromBlock, |ws|);
        assert AllSteady(cfg, db, cs[1..], fromBlock);
        SteadyStays(cfg, db, ExecAll(db, ws), cs[0], cs[1..], fromBlock);
        SyncGood(cfg, ExecAll(db, ws), ch, cs[1..], fromBlock, n - |ws|);
      }
    }
  }

  // ---- an explicit start beyond the recorded height ----

  /**
   A completed sync from an explicit block leaves no gap exactly when everything below that
   block was cached before.
   */
  lemma ExplicitStartExactly(cfg: Config, db: Db, ch: Chain, c: Contract, start: int)
    requires ValidConfig(cfg) && ValidChain(ch) && Sound(db, ch)
    requires cfg.lowerBound < start <= ch.tip + 1
    ensures Covers(ExecAll(db, ContractWrites(cfg, db, ch, c, Some(start))), ch, c, cfg.lowerBound, ch.tip)
      <==> Covers(db, ch, c, cfg.lowerBound, start - 1)
  {
    NoReset(cfg, db, ch, c);
    var chunks, last := ChunkWrites(cfg, ch, c, start), [SetHeight(c, ch.tip)];
    assert ContractWrites(cfg, db, ch, c, Some(start)) == chunks + last;
    var db' := ExecAll(db, chunks);
    ExecConcat(db, chunks, last, |chunks| + 1);
    LastWrite(db', last[0], 1);
    ChunksAdd(cfg, db, ch, c, start, |chunks|);
    var db2 := ExecAll(db, chunks + last);
    assert db2.cache == db'.cache;
    hide ChunkWrites;
    if Covers(db2, ch, c, cfg.lowerBound, ch.tip) {
      forall l | l in ch.logs && Due(l, c, cfg.lowerBound, start - 1) ensures l.key in db.cache {
        assert Due(l, c, cfg.lowerBound, ch.tip);
      }
    }
    if Covers(db, ch, c, cfg.lowerBound, start - 1) { CoversWhole(db2, ch, c, cfg.lowerBound, start); }
  }

  lemma EveryContract(c: Contract)
    ensures c in CONTRACTS
  {
    assert CONTRACTS[0] == IdentityRegistry && CONTRACTS[1] == OrgAccessManager && CONTRACTS[2] == AssetNFT;
  }
}
