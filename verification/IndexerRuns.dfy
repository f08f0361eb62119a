/**
 Runs of syncs over a growing chain, each stopped after any write: the cache never has a gap
 below the recorded height, and once it has one it keeps it.
 */
module IndexerRuns {
  import opened Texts
  import opened Indexer
  import opened IndexerFacts
  import opened IndexerRebuild

  // ---- every run of syncs ----

  /** The later chain is the earlier one, grown. */
  ghost predicate Grows(ch: Chain, ch': Chain) {
    && ch.tip <= ch'.tip
    && (forall l | l in ch.logs :: l in ch'.logs)
    && (forall l | l in ch'.logs && l.block <= ch.tip :: l in ch.logs)
  }

  lemma GoodGrows(cfg: Config, db: Db, ch: Chain, ch': Chain)
    requires Good(cfg, db, ch) && Grows(ch, ch')
    ensures Good(cfg, db, ch')
  {
    forall k | k in db.cache ensures OnChain(ch', k, db.cache[k]) { assert OnChain(ch, k, db.cache[k]); }
    forall c | c in db.heights ensures Covers(db, ch', c, cfg.lowerBound, db.heights[c]) {
      assert Covers(db, ch, c, cfg.lowerBound, db.heights[c]);
    }
  }

  /** A sync over the chain as it then is, stopped when `left` writes have been made. */
  datatype Sync = Sync(chain: Chain, fromBlock: Option<int>, left: nat)

  function After(cfg: Config, start: Db, syncs: seq<Sync>): Db
    requires cfg.chunk > 0
  {
    if syncs == [] then start
    else
      var last := syncs[|syncs| - 1];
      SyncContracts(cfg, After(cfg, start, syncs[..|syncs| - 1]), last.chain, CONTRACTS, last.fromBlock, last.left)
  }

  const NOTHING := Db(map[], map[])

  ghost predicate GrowingRun(syncs: seq<Sync>) {
    && (forall i | 0 <= i < |syncs| :: ValidChain(syncs[i].chain))
    && (forall i | 0 < i < |syncs| :: Grows(syncs[i - 1].chain, syncs[i].chain))
  }

  /** An explicit start at or below the lower bound purges every contract first. */
  predicate Rebuilds(cfg: Config, fromBlock: Option<int>) {
    fromBlock.Some? && fromBlock.value <= cfg.lowerBound
  }

  ghost predicate SteadyAt(cfg: Config, syncs: seq<Sync>, i: int)
    requires cfg.chunk > 0 && 0 <= i < |syncs|
  {
    var s, db := syncs[i], After(cfg, NOTHING, syncs[..i]);
    if Rebuilds(cfg, s.fromBlock) then !StopsBetweenDeletes(cfg, db, s.chain, CONTRACTS, s.left)
    else AllSteady(cfg, db, CONTRACTS, s.fromBlock)
  }

  /**
   Every sync is a default one, starts in (lower bound, last block + 1] of each contract, or is
   a rebuild that is not stopped between the two deletes of a contract that has something to lose.
   */
  ghost predicate SteadyRun(cfg: Config, syncs: seq<Sync>)
    requires cfg.chunk > 0
  {
    forall i | 0 <= i < |syncs| :: SteadyAt(cfg, syncs, i)
  }

  lemma ShorterRun(cfg: Config, syncs: seq<Sync>)
    requires cfg.chunk > 0 && syncs != [] && GrowingRun(syncs) && SteadyRun(cfg, syncs)
    ensures GrowingRun(syncs[..|syncs| - 1]) && SteadyRun(cfg, syncs[..|syncs| - 1])
  {
    var before := syncs[..|syncs| - 1];
    forall i | 0 <= i < |before| ensures SteadyAt(cfg, before, i) {
      assert SteadyAt(cfg, syncs, i);
      assert before[..i] == syncs[..i];
    }
  }

  /** Before the last sync of a run the tables are good for the chain it sees. */
  lemma {:induction false} GoodBefore(cfg: Config, syncs: seq<Sync>)
    requires ValidConfig(cfg) && syncs != [] && GrowingRun(syncs) && SteadyRun(cfg, syncs)
    ensures Good(cfg, After(cfg, NOTHING, syncs[..|syncs| - 1]), syncs[|syncs| - 1].chain)
    decreases |syncs|, 0
  {
    var n := |syncs| - 1;
    hide SyncContracts;
    if n == 0 {
      assert Good(cfg, NOTHING, syncs[0].chain);
    } else {
      ShorterRun(cfg, syncs);
      NeverAGap(cfg, syncs[..n]);
      GoodGrows(cfg, After(cfg, NOTHING, syncs[..n]), syncs[n - 1].chain, syncs[n].chain);
    }
  }

  /**
   Over every run of syncs on a growing chain, each stopped after any write: every cached row
   is a tracked log of the chain, and up to the recorded height none is missing.
   */
  lemma {:induction false} NeverAGap(cfg: Config, syncs: seq<Sync>)
    requires ValidConfig(cfg) && syncs != [] && GrowingRun(syncs) && SteadyRun(cfg, syncs)
    ensures Good(cfg, After(cfg, NOTHING, syncs), syncs[|syncs| - 1].chain)
    decreases |syncs|, 1
  {
    var n := |syncs| - 1;
    var last := syncs[n];
    hide SyncContracts;
    GoodBefore(cfg, syncs);
    assert SteadyAt(cfg, syncs, n);
    var db := After(cfg, NOTHING, syncs[..n]);
    if Rebuilds(cfg, last.fromBlock) {
      StoppedRebuildExactly(cfg, db, last.chain, CONTRACTS, last.fromBlock.value, last.left);
    } else {
      SyncGood(cfg, db, last.chain, CONTRACTS, last.fromBlock, last.left);
    }
  }

  // ---- completed syncs ----

  ghost predicate AtTip(db: Db, ch: Chain, cs: seq<Contract>) {
    forall c | c in cs :: c in db.heights && db.heights[c] == ch.tip
  }

  lemma AtTipStays(db: Db, db': Db, ch: Chain, c: Contract, cs: seq<Contract>)
    requires OtherHeights(db, db', c) && c !in cs && AtTip(db, ch, cs)
    ensures AtTip(db', ch, cs)
  {
    forall d | d in cs ensures d in db'.heights && db'.heights[d] == ch.tip {
      assert d in db.heights - {c};
    }
  }

  lemma AtTipMore(db: Db, ch: Chain, done: seq<Contract>, c: Contract)
    requires AtTip(db, ch, done) && c in db.heights && db.heights[c] == ch.tip
    ensures AtTip(db, ch, done + [c])
  {
  }

  /** Every contract's turn is a rebuild, or steady. */
  ghost predicate AllKept(cfg: Config, db: Db, cs: seq<Contract>, fromBlock: Option<int>) {
    Rebuilds(cfg, fromBlock) || AllSteady(cfg, db, cs, fromBlock)
  }

  /** One contract's whole turn. */
  lemma TurnReaches(cfg: Config, db: Db, ch: Chain, cs: seq<Contract>, fromBlock: Option<int>)
    requires ValidConfig(cfg) && ValidChain(ch) && Good(cfg, db, ch)
    requires cs != [] && Distinct(cs) && AllKept(cfg, db, cs, fromBlock)
    ensures var db' := ExecAll(db, ContractWrites(cfg, db, ch, cs[0], fromBlock));
      && Good(cfg, db', ch) && OtherHeights(db, db', cs[0]) && AllKept(cfg, db', cs[1..], fromBlock)
      && cs[0] in db'.heights && db'.heights[cs[0]] == ch.tip
  {
    hide ContractWrites, Exec, ValidChain, OtherHeights, Steady, RebuildOf;
    var c, ws := cs[0], ContractWrites(cfg, db, ch, cs[0], fromBlock);
    if Rebuilds(cfg, fromBlock) {
      RebuildWrites(cfg, db, ch, c, fromBlock.value);
      RebuildPurges(cfg, ch, c);
      RebuildTurn(cfg, db, ch, c, |ws|);
    } else {
      assert Steady(cfg, db, c, fromBlock);
      ContractGood(cfg, db, ch, c, fromBlock, |ws|);
      assert AllSteady(cfg, db, cs[1..], fromBlock);
      SteadyStays(cfg, db, ExecAll(db, ws), c, cs[1..], fromBlock);
    }
  }

  lemma {:induction false} SyncReaches(cfg: Config, db: Db, ch: Chain, done: seq<Contract>, cs: seq<Contract>,
                                       fromBlock: Option<int>, n: nat)
    requires ValidConfig(cfg) && ValidChain(ch) && Good(cfg, db, ch)
    requires Distinct(cs) && (forall c | c in done :: c !in cs) && AllKept(cfg, db, cs, fromBlock)
    requires Completes(cfg, db, ch, cs, fromBlock, n) && AtTip(db, ch, done)
    ensures AtTip(SyncContracts(cfg, db, ch, cs, fromBlock, n), ch, done + cs)
    decreases |cs|
  {
    if cs == [] {
      assert done + cs == done;
    } else {
      hide Good, ContractWrites, Exec, ValidChain, ValidConfig, OtherHeights, AllKept, AtTip;
      var ws := ContractWrites(cfg, db, ch, cs[0], fromBlock);
      var db' := ExecAll(db, ws);
      TurnReaches(cfg, db, ch, cs, fromBlock);
      AtTipStays(db, db', ch, cs[0], done);
      AtTipMore(db', ch, done, cs[0]);
      SyncReaches(cfg, db', ch, done + [cs[0]], cs[1..], fromBlock, n - |ws|);
      assert done + [cs[0]] + cs[1..] == done + cs;
    }
  }

  /** A completed sync leaves every tracked log from the lower bound on in the cache. */
  lemma {:induction false} CompletedSync(cfg: Config, syncs: seq<Sync>)
    requires ValidConfig(cfg) && syncs != [] && GrowingRun(syncs) && SteadyRun(cfg, syncs)
    requires var last := syncs[|syncs| - 1];
      Completes(cfg, After(cfg, NOTHING, syncs[..|syncs| - 1]), last.chain, CONTRACTS, last.fromBlock, last.left)
    ensures var db, ch := After(cfg, NOTHING, syncs), syncs[|syncs| - 1].chain;
      && AtTip(db, ch, CONTRACTS)
      && forall c | c in CONTRACTS :: Covers(db, ch, c, cfg.lowerBound, ch.tip)
  {
    var n := |syncs| - 1;
    var last, db := syncs[n], After(cfg, NOTHING, syncs[..n]);
    hide SyncContracts, Completes, ValidConfig;
    GoodBefore(cfg, syncs);
    NeverAGap(cfg, syncs);
    assert SteadyAt(cfg, syncs, n);
    SyncReaches(cfg, db, last.chain, [], CONTRACTS, last.fromBlock, last.left);
    assert [] + CONTRACTS == CONTRACTS;
  }

  /** Every cached row is a tracked log of the chain, and every tracked log from block `from` on is cached. */
  ghost predicate CacheMirrors(db: Db, ch: Chain, from: nat) {
    && Sound(db, ch)
    && (forall l | l in ch.logs && Audited(l) && l.block >= from :: l.key in db.cache && db.cache[l.key] == l)
  }

  lemma {:induction false} CompletedMirrors(cfg: Config, syncs: seq<Sync>, db: Db)
    requires ValidConfig(cfg) && syncs != [] && GrowingRun(syncs) && SteadyRun(cfg, syncs)
    requires var last := syncs[|syncs| - 1];
      Completes(cfg, After(cfg, NOTHING, syncs[..|syncs| - 1]), last.chain, CONTRACTS, last.fromBlock, last.left)
    requires db == After(cfg, NOTHING, syncs)
    ensures CacheMirrors(db, syncs[|syncs| - 1].chain, cfg.lowerBound)
  {
    var ch := syncs[|syncs| - 1].chain;
    assert ValidChain(ch);
    hide Completes, SteadyRun, After, GrowingRun;
    NeverAGap(cfg, syncs);
    CompletedSync(cfg, syncs);
    forall l | l in ch.logs && Audited(l) && l.block >= cfg.lowerBound
      ensures l.key in db.cache && db.cache[l.key] == l
    {
      EveryContract(l.contract);
      assert Due(l, l.contract, cfg.lowerBound, ch.tip);
      CachedOnce(db, ch, l);
    }
  }

  /**
   As configured: after a completed sync the cache mirrors the chain from a configured start
   block on, else on Sepolia from the recorded one, else from block 0.
   */
  lemma {:induction false} ConfiguredCache(chainId: nat, configured: Option<nat>, pick: set<Key> -> Key,
                                           syncs: seq<Sync>, cfg: Config)
    requires forall s: set<Key> | s != {} :: pick(s) in s
    requires cfg == ConfigFor(chainId, configured, pick)
    requires syncs != [] && GrowingRun(syncs) && SteadyRun(cfg, syncs)
    requires var last := syncs[|syncs| - 1];
      Completes(cfg, After(cfg, NOTHING, syncs[..|syncs| - 1]), last.chain, CONTRACTS, last.fromBlock, last.left)
    ensures CacheMirrors(After(cfg, NOTHING, syncs), syncs[|syncs| - 1].chain,
                    if configured.Some? then configured.value else if chainId == 11155111 then 11585353 else 0)
    ensures cfg.chunk == if chainId == 11155111 then 10 else 2000
  {
    CompletedMirrors(cfg, syncs, After(cfg, NOTHING, syncs));
  }

  // ---- a lost log ----

  /** A log that is not cached although its contract's height has passed it. */
  predicate Lost(db: Db, l: Log) {
    l.contract in db.heights && l.block <= db.heights[l.contract] && l.key !in db.cache
  }

  ghost predicate HeightsBelow(db: Db, ch: Chain) { forall c | c in db.heights :: db.heights[c] <= ch.tip }

  /** The cache is sound, no height is beyond the tip, and the lower bound is on the chain. */
  ghost predicate Settled(cfg: Config, db: Db, ch: Chain) {
    ValidChain(ch) && Sound(db, ch) && HeightsBelow(db, ch) && cfg.lowerBound <= ch.tip + 1
  }

  lemma AddsSettled(cfg: Config, db: Db, db': Db, ch: Chain, c: Contract, from: int, l: Log)
    requires Settled(cfg, db, ch) && Lost(db, l) && l in ch.logs && Adds(db, db', ch, c, from)
    requires l.contract == c ==> from > l.block
    ensures Settled(cfg, db', ch) && Lost(db', l)
  {
    forall k | k in db'.cache ensures OnChain(ch, k, db'.cache[k]) {
      if k in db.cache { assert OnChain(ch, k, db.cache[k]); }
    }
  }

  lemma {:induction false} TurnStillLost(cfg: Config, db: Db, ch: Chain, c: Contract, n: nat, l: Log)
    requires ValidConfig(cfg) && Settled(cfg, db, ch) && Lost(db, l) && l in ch.logs
    ensures var db' := Exec(db, ContractWrites(cfg, db, ch, c, None), n);
      Settled(cfg, db', ch) && Lost(db', l)
  {
    NoReset(cfg, db, ch, c);
    var from := From(cfg, db, ch, c, None);
    var chunks, last := ChunkWrites(cfg, ch, c, from), [SetHeight(c, ch.tip)];
    assert ContractWrites(cfg, db, ch, c, None) == chunks + last;
    ExecConcat(db, chunks, last, n);
    ChunksAdd(cfg, db, ch, c, from, n);
    ChunksAdd(cfg, db, ch, c, from, |chunks|);
    hide ChunkWrites, Adds;
    AddsSettled(cfg, db, Exec(db, chunks, n), ch, c, from, l);
    if n > |chunks| {
      var db' := ExecAll(db, chunks);
      AddsSettled(cfg, db, db', ch, c, from, l);
      AddsHeights(db, db', ch, c, from);
      LastWrite(db', last[0], n - |chunks|);
      HeightSettled(cfg, db', ch, c, l);
    }
  }

  lemma HeightSettled(cfg: Config, db: Db, ch: Chain, c: Contract, l: Log)
    requires Settled(cfg, db, ch) && Lost(db, l) && l in ch.logs
    ensures Settled(cfg, ApplyWrite(db, SetHeight(c, ch.tip)), ch) && Lost(ApplyWrite(db, SetHeight(c, ch.tip)), l)
  {
    var db' := ApplyWrite(db, SetHeight(c, ch.tip));
    forall k | k in db'.cache ensures OnChain(ch, k, db'.cache[k]) { assert OnChain(ch, k, db.cache[k]); }
  }

  lemma {:induction false} SyncStillLost(cfg: Config, db: Db, ch: Chain, cs: seq<Contract>, n: nat, l: Log)
    requires ValidConfig(cfg) && Settled(cfg, db, ch) && Lost(db, l) && l in ch.logs
    ensures var db' := SyncContracts(cfg, db, ch, cs, None, n);
      Settled(cfg, db', ch) && Lost(db', l)
    decreases |cs|
  {
    if cs == [] {
    } else {
      hide ContractWrites, Exec, Settled, Lost;
      var ws := ContractWrites(cfg, db, ch, cs[0], None);
      SyncNext(cfg, db, ch, cs, None, n);
      hide SyncContracts, ValidConfig;
      TurnStillLost(cfg, db, ch, cs[0], n, l);
      TurnStillLost(cfg, db, ch, cs[0], |ws|, l);
      if n >= |ws| { SyncStillLost(cfg, ExecAll(db, ws), ch, cs[1..], n - |ws|, l); }
    }
  }

  /** Once lost, a log stays lost: no run of default syncs on the growing chain brings it back. */
  lemma {:induction false} LostForever(cfg: Config, db: Db, syncs: seq<Sync>, l: Log)
    requires ValidConfig(cfg) && syncs != [] && GrowingRun(syncs)
      && forall i | 0 <= i < |syncs| :: syncs[i].fromBlock.None?
    requires Settled(cfg, db, syncs[0].chain) && Lost(db, l) && l in syncs[0].chain.logs
    ensures l in syncs[|syncs| - 1].chain.logs
    ensures Settled(cfg, After(cfg, db, syncs), syncs[|syncs| - 1].chain) && Lost(After(cfg, db, syncs), l)
  {
    var n := |syncs| - 1;
    var last := syncs[n];
    hide SyncContracts, Lost;
    if n == 0 {
      assert After(cfg, db, syncs[..0]) == db;
    } else {
      var mid := After(cfg, db, syncs[..n]);
      LostForever(cfg, db, syncs[..n], l);
      forall k | k in mid.cache ensures OnChain(last.chain, k, mid.cache[k]) {
        assert OnChain(syncs[n - 1].chain, k, mid.cache[k]);
      }
    }
    SyncStillLost(cfg, After(cfg, db, syncs[..n]), last.chain, CONTRACTS, last.left, l);
  }
}
