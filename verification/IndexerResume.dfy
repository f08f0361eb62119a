/**
 A reset that is stopped and resumed: what a default sync makes of whatever an earlier one,
 stopped at any write, has left of a replaced chain's cache.
 */
module IndexerResume {
  import opened Texts
  import opened Indexer
  import opened IndexerFacts
  import opened IndexerRebuild
  import opened IndexerRuns
  import opened IndexerReset

  // ---- dead and live contracts ----

  /** No row of the contract is of another chain. */
  ghost predicate AllLive(db: Db, ch: Chain, c: Contract) { forall k | k in RowsOf(db, c) :: !Dead(ch, k) }

  /** Another contract's turn leaves this one's rows and height as they were. */
  ghost predicate SameFor(db: Db, db': Db, c: Contract) {
    && (c in db.heights <==> c in db'.heights) && (c in db.heights ==> db'.heights[c] == db.heights[c])
    && RowsOf(db', c) == RowsOf(db, c) && forall k | k in RowsOf(db, c) :: db'.cache[k] == db.cache[k]
  }

  lemma OthersSameFor(db: Db, db': Db, ch: Chain, c: Contract, d: Contract)
    requires OthersSame(db, db', c) && d != c
    ensures SameFor(db, db', d)
    ensures AllDead(db, ch, d) ==> AllDead(db', ch, d)
    ensures AllLive(db, ch, d) ==> AllLive(db', ch, d)
  {
    assert d in db.heights - {c} <==> d in db.heights;
    assert d in db'.heights - {c} <==> d in db'.heights;
  }

  lemma SameForTwice(a: Db, b: Db, d: Db, c: Contract)
    requires SameFor(a, b, c) && SameFor(b, d, c)
    ensures SameFor(a, d, c)
  {
  }

  /** On the chain, a log of the contract is cached exactly when it is among the contract's rows. */
  lemma CachedRow(db: Db, ch: Chain, l: Log)
    requires ValidChain(ch) && Mixed(db, ch) && l in ch.logs
    ensures l.key in db.cache <==> l.key in RowsOf(db, l.contract)
    ensures l.key in db.cache ==> db.cache[l.key] == l
  {
    if l.key in db.cache { assert OnChain(ch, l.key, db.cache[l.key]); }
  }

  lemma CoversSame(db: Db, db': Db, ch: Chain, c: Contract, from: int, to: int)
    requires ValidChain(ch) && Mixed(db, ch) && Mixed(db', ch) && SameFor(db, db', c)
    ensures Covers(db, ch, c, from, to) <==> Covers(db', ch, c, from, to)
  {
    forall l | l in ch.logs && Due(l, c, from, to) ensures l.key in db.cache <==> l.key in db'.cache {
      CachedRow(db, ch, l);
      CachedRow(db', ch, l);
    }
  }

  /**
   Nothing between the lower bound and the recorded height is missing, or the next sync starts
   over: the rows are dead, no height is recorded, or the height is beyond the tip.
   */
  ghost predicate Recovers(cfg: Config, db: Db, ch: Chain, c: Contract) {
    || (RowsOf(db, c) != {} && AllDead(db, ch, c))
    || c !in db.heights || db.heights[c] > ch.tip
    || Covers(db, ch, c, cfg.lowerBound, db.heights[c])
  }

  lemma RecoversSame(cfg: Config, db: Db, db': Db, ch: Chain, c: Contract)
    requires ValidChain(ch) && Mixed(db, ch) && Mixed(db', ch) && SameFor(db, db', c)
    ensures Recovers(cfg, db, ch, c) <==> Recovers(cfg, db', ch, c)
  {
    if c in db.heights { CoversSame(db, db', ch, c, cfg.lowerBound, db.heights[c]); }
  }

  // ---- one turn from whatever is left ----

  lemma AddsKeeps(db: Db, mid: Db, db': Db, ch: Chain, c: Contract, from: int)
    requires ValidChain(ch) && Mixed(db, ch) && Adds(db, mid, ch, c, from)
    requires db'.cache == mid.cache && OtherHeights(db, db', c)
    ensures Mixed(db', ch) && OthersSame(db, db', c)
    ensures AllLive(db, ch, c) ==> AllLive(db', ch, c)
    ensures forall low: int, to: int | to < from :: Covers(db', ch, c, low, to) <==> Covers(db, ch, c, low, to)
  {
    forall k | k in db'.cache ensures Dead(ch, k) || OnChain(ch, k, db'.cache[k]) {
      if k in db.cache { assert Dead(ch, k) || OnChain(ch, k, db.cache[k]); }
    }
    if AllLive(db, ch, c) {
      forall k | k in RowsOf(db', c) ensures !Dead(ch, k) {
        if k in db.cache { assert k in RowsOf(db, c); }
      }
    }
    forall low: int, to: int | to < from ensures Covers(db', ch, c, low, to) <==> Covers(db, ch, c, low, to) {
      forall l | l in ch.logs && Due(l, c, low, to) ensures l.key in db'.cache <==> l.key in db.cache { }
    }
  }

  function Indexing(cfg: Config, ch: Chain, c: Contract, from: int): seq<Write>
    requires cfg.chunk > 0
  {
    ChunkWrites(cfg, ch, c, from) + [SetHeight(c, ch.tip)]
  }

  /** Indexing from a block, stopped after n writes. */
  lemma {:induction false} IndexStops(cfg: Config, db: Db, ch: Chain, c: Contract, from: int, n: nat)
    requires cfg.chunk > 0 && ValidChain(ch) && Mixed(db, ch)
    ensures var ws := Indexing(cfg, ch, c, from);
      var db' := Exec(db, ws, n);
      && Mixed(db', ch) && OthersSame(db, db', c)
      && (AllLive(db, ch, c) ==> AllLive(db', ch, c))
      && db'.heights == (if n < |ws| then db.heights else db.heights[c := ch.tip])
      && (n >= |ws| ==> Covers(db', ch, c, from, ch.tip))
      && forall low: int, to: int | to < from :: Covers(db', ch, c, low, to) <==> Covers(db, ch, c, low, to)
  {
    var chunks, last := ChunkWrites(cfg, ch, c, from), [SetHeight(c, ch.tip)];
    ExecConcat(db, chunks, last, n);
    ChunksAdd(cfg, db, ch, c, from, n);
    ChunksAdd(cfg, db, ch, c, from, |chunks|);
    hide ChunkWrites, Mixed, OthersSame, AllLive, ValidChain;
    if n > |chunks| {
      LastWrite(ExecAll(db, chunks), last[0], n - |chunks|);
      AddsKeeps(db, ExecAll(db, chunks), Exec(db, chunks + last, n), ch, c, from);
    } else {
      AddsKeeps(db, Exec(db, chunks, n), Exec(db, chunks + last, n), ch, c, from);
    }
  }

  /** Two deletes, stopped after n of them. */
  lemma {:induction false} PurgeStops(db: Db, ch: Chain, c: Contract, n: nat)
    requires Mixed(db, ch)
    ensures var db' := Exec(db, Purge(c), n);
      && Mixed(db', ch) && OthersSame(db, db', c)
      && (n > 0 ==> RowsOf(db', c) == {})
      && db'.heights == (if n < 2 then db.heights else db.heights - {c})
  {
    ExecPurge(db, c, n);
  }

  lemma NoRows(cfg: Config, db: Db, ch: Chain, c: Contract)
    requires ValidChain(ch) && Mixed(db, ch) && RowsOf(db, c) == {}
    ensures Recovers(cfg, db, ch, c) <==> !Overtaken(cfg, db, ch, c)
  {
    forall l | l in ch.logs && l.contract == c ensures l.key !in db.cache { CachedRow(db, ch, l); }
  }

  /** The contract's recorded height, of the replaced chain, has a tracked log of the new one below it. */
  ghost predicate Overtaken(cfg: Config, db: Db, ch: Chain, c: Contract) {
    c in db.heights && db.heights[c] <= ch.tip && Owes(cfg, db, ch, c)
  }

  /** What a turn writes once the contract has neither rows nor a height. */
  function FreshWrites(cfg: Config, ch: Chain, c: Contract): seq<Write>
    requires cfg.chunk > 0
  {
    if cfg.lowerBound > ch.tip + 1 then Purge(c) + Indexing(cfg, ch, c, 0) else Indexing(cfg, ch, c, cfg.lowerBound)
  }

  /** A purge and an indexing from block 0, stopped after n writes. */
  lemma {:induction false} RestartStops(cfg: Config, db: Db, ch: Chain, c: Contract, n: nat)
    requires cfg.chunk > 0 && ValidChain(ch) && Mixed(db, ch)
    ensures var ws := Purge(c) + Indexing(cfg, ch, c, 0);
      var db' := Exec(db, ws, n);
      && Mixed(db', ch) && OthersSame(db, db', c)
      && (n > 0 ==> AllLive(db', ch, c))
      && (n < 2 ==> db'.heights == db.heights && (n > 0 ==> RowsOf(db', c) == {}))
      && (n >= 2 ==> Recovers(cfg, db', ch, c))
      && (n >= |ws| ==> c in db'.heights && db'.heights[c] == ch.tip && Covers(db', ch, c, cfg.lowerBound, ch.tip))
  {
    var ws := Indexing(cfg, ch, c, 0);
    ExecConcat(db, Purge(c), ws, n);
    PurgeStops(db, ch, c, n);
    PurgeStops(db, ch, c, 2);
    hide Indexing, ValidChain, Mixed, OthersSame;
    if n > 2 {
      var db1 := ExecAll(db, Purge(c));
      IndexStops(cfg, db1, ch, c, 0, n - 2);
      SameTwice(db, db1, Exec(db1, ws, n - 2), c);
    }
  }

  lemma {:induction false} FreshStops(cfg: Config, db: Db, ch: Chain, c: Contract, n: nat)
    requires cfg.chunk > 0 && ValidChain(ch) && Mixed(db, ch) && RowsOf(db, c) == {} && c !in db.heights
    ensures var ws := FreshWrites(cfg, ch, c);
      var db' := Exec(db, ws, n);
      && Mixed(db', ch) && OthersSame(db, db', c) && AllLive(db', ch, c) && Recovers(cfg, db', ch, c)
      && (n >= |ws| ==> c in db'.heights && db'.heights[c] == ch.tip)
  {
    RestartStops(cfg, db, ch, c, n);
    IndexStops(cfg, db, ch, c, cfg.lowerBound, n);
    hide Indexing, ValidChain, Mixed, OthersSame;
  }

  lemma DeadReset(cfg: Config, db: Db, ch: Chain, c: Contract)
    requires ValidConfig(cfg) && AllDead(db, ch, c)
    ensures RowsOf(db, c) != {} ==> ContractWrites(cfg, db, ch, c, None) == Purge(c) + FreshWrites(cfg, ch, c)
    ensures RowsOf(db, c) == {} ==> ContractWrites(cfg, db, ch, c, None) == LiveWrites(cfg, db, ch, c)
  {
    if RowsOf(db, c) != {} { PickedRow(cfg, db, c); }
    hide ChunkWrites;
    if RowsOf(db, c) != {} { assert Purge(c) + [] == Purge(c); } else { LiveReset(cfg, db, ch, c); }
  }

  /** What a turn writes when no reset is seen. */
  function LiveWrites(cfg: Config, db: Db, ch: Chain, c: Contract): seq<Write>
    requires cfg.chunk > 0
  {
    var from := if c in db.heights then Max(db.heights[c] + 1, cfg.lowerBound) else cfg.lowerBound;
    if from > ch.tip + 1 then Purge(c) + Indexing(cfg, ch, c, 0) else Indexing(cfg, ch, c, from)
  }

  lemma LiveReset(cfg: Config, db: Db, ch: Chain, c: Contract)
    requires ValidConfig(cfg) && AllLive(db, ch, c)
    ensures ContractWrites(cfg, db, ch, c, None) == LiveWrites(cfg, db, ch, c)
  {
    if RowsOf(db, c) != {} { PickedRow(cfg, db, c); }
    hide ChunkWrites;
    assert [] + Purge(c) == Purge(c);
  }

  /** One turn over a replaced chain's rows, stopped after n writes. */
  lemma {:induction false} TurnStops(cfg: Config, db: Db, ch: Chain, c: Contract, n: nat)
    requires ValidConfig(cfg) && ValidChain(ch) && Mixed(db, ch) && AllDead(db, ch, c)
    ensures var ws := ContractWrites(cfg, db, ch, c, None);
      var db' := Exec(db, ws, n);
      && Mixed(db', ch) && OthersSame(db, db', c) && (AllDead(db', ch, c) || AllLive(db', ch, c))
      && (n >= |ws| ==> AllLive(db', ch, c) && c in db'.heights && db'.heights[c] == ch.tip)
      && (Recovers(cfg, db', ch, c) <==> !(Overtaken(cfg, db, ch, c) && (RowsOf(db, c) == {} || n == 1)))
  {
    DeadReset(cfg, db, ch, c);
    if RowsOf(db, c) != {} {
      DirtyTurnStops(cfg, db, ch, c, n);
    } else {
      CleanTurnStops(cfg, db, ch, c, n);
    }
  }

  lemma {:induction false} DirtyTurnStops(cfg: Config, db: Db, ch: Chain, c: Contract, n: nat)
    requires ValidConfig(cfg) && ValidChain(ch) && Mixed(db, ch) && AllDead(db, ch, c) && RowsOf(db, c) != {}
    ensures var ws := Purge(c) + FreshWrites(cfg, ch, c);
      var db' := Exec(db, ws, n);
      && Mixed(db', ch) && OthersSame(db, db', c) && (AllDead(db', ch, c) || AllLive(db', ch, c))
      && (n >= |ws| ==> AllLive(db', ch, c) && c in db'.heights && db'.heights[c] == ch.tip)
      && (Recovers(cfg, db', ch, c) <==> !(Overtaken(cfg, db, ch, c) && n == 1))
  {
    var ws, db1 := FreshWrites(cfg, ch, c), ExecAll(db, Purge(c));
    ExecConcat(db, Purge(c), ws, n);
    PurgeStops(db, ch, c, n);
    PurgeStops(db, ch, c, 2);
    if n == 1 { NoRows(cfg, Exec(db, Purge(c), 1), ch, c); }
    hide FreshWrites, ValidChain, Mixed, OthersSame;
    if n >= 2 {
      FreshStops(cfg, db1, ch, c, n - 2);
      SameTwice(db, db1, Exec(db1, ws, n - 2), c);
    }
  }

  lemma {:induction false} CleanTurnStops(cfg: Config, db: Db, ch: Chain, c: Contract, n: nat)
    requires ValidConfig(cfg) && ValidChain(ch) && Mixed(db, ch) && RowsOf(db, c) == {}
    ensures var ws := LiveWrites(cfg, db, ch, c);
      var db' := Exec(db, ws, n);
      && Mixed(db', ch) && OthersSame(db, db', c) && AllLive(db', ch, c)
      && (n >= |ws| ==> c in db'.heights && db'.heights[c] == ch.tip)
      && (Recovers(cfg, db', ch, c) <==> !Overtaken(cfg, db, ch, c))
  {
    var from := if c in db.heights then Max(db.heights[c] + 1, cfg.lowerBound) else cfg.lowerBound;
    var ws := LiveWrites(cfg, db, ch, c);
    NoRows(cfg, db, ch, c);
    RestartStops(cfg, db, ch, c, n);
    IndexStops(cfg, db, ch, c, from, n);
    var db' := Exec(db, ws, n);
    if from > ch.tip + 1 {
      if n < 2 { NoRows(cfg, db', ch, c); }
    } else {
      IndexRecovers(cfg, db, db', ch, c, from, n >= |ws|);
    }
  }

  lemma IndexRecovers(cfg: Config, db: Db, db': Db, ch: Chain, c: Contract, from: int, whole: bool)
    requires from == if c in db.heights then Max(db.heights[c] + 1, cfg.lowerBound) else cfg.lowerBound
    requires from <= ch.tip + 1 && AllLive(db, ch, c) && AllLive(db', ch, c)
    requires db'.heights == if whole then db.heights[c := ch.tip] else db.heights
    requires whole ==> Covers(db', ch, c, from, ch.tip)
    requires forall low: int, to: int | to < from :: Covers(db', ch, c, low, to) <==> Covers(db, ch, c, low, to)
    ensures Recovers(cfg, db', ch, c) <==> Recovers(cfg, db, ch, c)
    ensures whole ==> (Covers(db', ch, c, cfg.lowerBound, ch.tip) <==> Recovers(cfg, db, ch, c))
  {
    if c in db.heights {
      var low, to := cfg.lowerBound, db.heights[c];
      assert Covers(db', ch, c, low, to) <==> Covers(db, ch, c, low, to);
    }
    if whole && Covers(db', ch, c, cfg.lowerBound, from - 1) { CoversWhole(db', ch, c, cfg.lowerBound, from); }
  }

  /** A whole turn covers the contract from the lower bound exactly when what was left recovers. */
  lemma TurnCompletes(cfg: Config, db: Db, ch: Chain, c: Contract)
    requires ValidConfig(cfg) && ValidChain(ch) && Mixed(db, ch) && (AllDead(db, ch, c) || AllLive(db, ch, c))
    ensures var db' := ExecAll(db, ContractWrites(cfg, db, ch, c, None));
      && Mixed(db', ch) && OthersSame(db, db', c) && AllLive(db', ch, c)
      && c in db'.heights && db'.heights[c] == ch.tip
      && (Covers(db', ch, c, cfg.lowerBound, ch.tip) <==> Recovers(cfg, db, ch, c))
  {
    if RowsOf(db, c) != {} && AllDead(db, ch, c) {
      DeadReset(cfg, db, ch, c);
      var ws := Purge(c) + FreshWrites(cfg, ch, c);
      hide ContractWrites, FreshWrites, Mixed, OthersSame, ValidChain, Covers, AllLive, AllDead;
      DirtyTurnStops(cfg, db, ch, c, |ws|);
      LiveRows(ExecAll(db, ws), ch, c);
    } else {
      LiveReset(cfg, db, ch, c);
      hide ContractWrites;
      LiveTurn(cfg, db, ch, c);
    }
  }

  lemma LiveRows(db: Db, ch: Chain, c: Contract)
    requires AllLive(db, ch, c)
    ensures !(RowsOf(db, c) != {} && AllDead(db, ch, c))
  {
    if k :| k in RowsOf(db, c) { assert !Dead(ch, k); }
  }

  lemma LiveTurn(cfg: Config, db: Db, ch: Chain, c: Contract)
    requires ValidConfig(cfg) && ValidChain(ch) && Mixed(db, ch) && AllLive(db, ch, c)
    ensures var db' := ExecAll(db, LiveWrites(cfg, db, ch, c));
      && Mixed(db', ch) && OthersSame(db, db', c) && AllLive(db', ch, c)
      && c in db'.heights && db'.heights[c] == ch.tip
      && (Covers(db', ch, c, cfg.lowerBound, ch.tip) <==> Recovers(cfg, db, ch, c))
  {
    var ws := LiveWrites(cfg, db, ch, c);
    var from := if c in db.heights then Max(db.heights[c] + 1, cfg.lowerBound) else cfg.lowerBound;
    RestartStops(cfg, db, ch, c, |ws|);
    IndexStops(cfg, db, ch, c, from, |ws|);
    hide Indexing, Mixed, OthersSame, AllLive, AllDead, Recovers, Covers, Audited, RowsOf;
    if from <= ch.tip + 1 {
      IndexRecovers(cfg, db, ExecAll(db, ws), ch, c, from, true);
    } else {
      BeyondRecovers(cfg, db, ch, c);
    }
  }

  lemma BeyondRecovers(cfg: Config, db: Db, ch: Chain, c: Contract)
    requires ValidChain(ch)
    requires (if c in db.heights then Max(db.heights[c] + 1, cfg.lowerBound) else cfg.lowerBound) > ch.tip + 1
    ensures Recovers(cfg, db, ch, c)
  {
    hide Audited;
  }

  // ---- whole syncs ----

  /** Every listed contract's rows are all of the chain or all of another. */
  ghost predicate Unmixed(db: Db, ch: Chain, cs: seq<Contract>) {
    forall c | c in cs :: AllDead(db, ch, c) || AllLive(db, ch, c)
  }

  lemma UnmixedStays(db: Db, db': Db, ch: Chain, c: Contract, cs: seq<Contract>)
    requires OthersSame(db, db', c) && c !in cs && Unmixed(db, ch, cs)
    ensures Unmixed(db', ch, cs)
  {
    forall d | d in cs ensures AllDead(db', ch, d) || AllLive(db', ch, d) { OthersSameFor(db, db', ch, c, d); }
  }

  /** What a whole sync makes of one contract. */
  ghost predicate Completed(cfg: Config, db: Db, db': Db, ch: Chain, cs: seq<Contract>, c: Contract) {
    && Mixed(db', ch)
    && (c !in cs ==> SameFor(db, db', c))
    && (c in cs ==>
          (AllLive(db', ch, c) && c in db'.heights && db'.heights[c] == ch.tip
           && (Covers(db', ch, c, cfg.lowerBound, ch.tip) <==> Recovers(cfg, db, ch, c))))
  }

  lemma CompletedFirst(cfg: Config, db: Db, mid: Db, db': Db, ch: Chain, cs: seq<Contract>, c: Contract)
    requires ValidChain(ch) && Mixed(db, ch) && Mixed(mid, ch) && cs != [] && Distinct(cs)
    requires OthersSame(db, mid, cs[0]) && AllLive(mid, ch, cs[0])
    requires cs[0] in mid.heights && mid.heights[cs[0]] == ch.tip
    requires Covers(mid, ch, cs[0], cfg.lowerBound, ch.tip) <==> Recovers(cfg, db, ch, cs[0])
    requires Completed(cfg, mid, db', ch, cs[1..], c)
    ensures Completed(cfg, db, db', ch, cs, c)
  {
    hide Recovers, Covers, OthersSame, Mixed, ValidChain;
    if c == cs[0] {
      CoversSame(mid, db', ch, c, cfg.lowerBound, ch.tip);
    } else {
      OthersSameFor(db, mid, ch, cs[0], c);
      RecoversSame(cfg, db, mid, ch, c);
    }
  }

  lemma {:induction false} SyncCompletes(cfg: Config, db: Db, ch: Chain, cs: seq<Contract>, c: Contract, n: nat)
    requires ValidConfig(cfg) && ValidChain(ch) && Mixed(db, ch) && Distinct(cs) && Unmixed(db, ch, cs)
    requires Completes(cfg, db, ch, cs, None, n)
    ensures Completed(cfg, db, SyncContracts(cfg, db, ch, cs, None, n), ch, cs, c)
    decreases |cs|
  {
    if cs == [] {
    } else {
      hide ContractWrites, Exec, ValidChain, Mixed, OthersSame, Completed, Covers, Recovers;
      var ws := ContractWrites(cfg, db, ch, cs[0], None);
      var mid := ExecAll(db, ws);
      TurnCompletes(cfg, db, ch, cs[0]);
      UnmixedStays(db, mid, ch, cs[0], cs[1..]);
      SyncNext(cfg, db, ch, cs, None, n);
      hide SyncContracts, Unmixed;
      SyncCompletes(cfg, mid, ch, cs[1..], c, n - |ws|);
      CompletedFirst(cfg, db, mid, SyncContracts(cfg, db, ch, cs, None, n), ch, cs, c);
    }
  }

  /** Exactly one write of the contract's own turn is made. */
  predicate StopsAfterRows(cfg: Config, db: Db, ch: Chain, cs: seq<Contract>, c: Contract, n: nat)
    requires cfg.chunk > 0
    decreases |cs|
  {
    cs != [] &&
    var ws := ContractWrites(cfg, db, ch, cs[0], None);
    if cs[0] == c then n == 1 else n >= |ws| && StopsAfterRows(cfg, ExecAll(db, ws), ch, cs[1..], c, n - |ws|)
  }

  /** What a stopped sync over a replaced chain makes of one contract. */
  ghost predicate Stopped(cfg: Config, db: Db, db': Db, ch: Chain, cs: seq<Contract>, c: Contract, n: nat)
    requires cfg.chunk > 0
  {
    && Mixed(db', ch)
    && (c !in cs ==> SameFor(db, db', c))
    && (c in cs ==>
          ((AllDead(db', ch, c) || AllLive(db', ch, c))
           && (Recovers(cfg, db', ch, c) <==>
               !(Overtaken(cfg, db, ch, c) && (RowsOf(db, c) == {} || StopsAfterRows(cfg, db, ch, cs, c, n))))))
  }

  /** Another contract's turn leaves this one's rows dead, and as recoverable as they were. */
  lemma DeadElsewhere(cfg: Config, db: Db, db': Db, ch: Chain, c: Contract, d: Contract)
    requires ValidChain(ch) && Mixed(db, ch) && Mixed(db', ch) && OthersSame(db, db', d) && c != d
    requires AllDead(db, ch, c)
    ensures SameFor(db, db', c) && AllDead(db', ch, c) && RowsOf(db', c) == RowsOf(db, c)
    ensures Overtaken(cfg, db', ch, c) <==> Overtaken(cfg, db, ch, c)
    ensures Recovers(cfg, db', ch, c) <==> !(Overtaken(cfg, db, ch, c) && RowsOf(db, c) == {})
  {
    OthersSameFor(db, db', ch, d, c);
    RecoversSame(cfg, db, db', ch, c);
    if RowsOf(db, c) == {} { NoRows(cfg, db, ch, c); }
  }

  /** The turns of other contracts, stopped after n writes, leave what a contract has. */
  lemma {:induction false} RestStops(cfg: Config, db: Db, ch: Chain, cs: seq<Contract>, c: Contract, n: nat)
    requires ValidConfig(cfg) && ValidChain(ch) && Mixed(db, ch) && Distinct(cs) && c !in cs
    requires (AllDead(db, ch, c) || AllLive(db, ch, c)) && forall d | d in cs :: AllDead(db, ch, d)
    ensures var db' := SyncContracts(cfg, db, ch, cs, None, n);
      && Mixed(db', ch) && SameFor(db, db', c) && (AllDead(db', ch, c) || AllLive(db', ch, c))
      && (Recovers(cfg, db', ch, c) <==> Recovers(cfg, db, ch, c))
    decreases |cs|
  {
    if cs == [] {
    } else {
      hide ContractWrites, Exec, ValidChain, Mixed, OthersSame, AllDead, AllLive, Recovers, Overtaken, SameFor, RowsOf;
      var d, ws := cs[0], ContractWrites(cfg, db, ch, cs[0], None);
      var k := if n < |ws| then n else |ws|;
      var mid := Exec(db, ws, k);
      SyncNext(cfg, db, ch, cs, None, n);
      hide SyncContracts;
      TurnStops(cfg, db, ch, d, k);
      OthersSameFor(db, mid, ch, d, c);
      RecoversSame(cfg, db, mid, ch, c);
      if n >= |ws| {
        forall e | e in cs[1..] ensures AllDead(mid, ch, e) { OthersSameFor(db, mid, ch, d, e); }
        RestStops(cfg, mid, ch, cs[1..], c, n - |ws|);
        SameForTwice(db, mid, SyncContracts(cfg, db, ch, cs, None, n), c);
      }
    }
  }

  /** Stopped within the first contract's turn. */
  lemma {:induction false} FirstTurnStops(cfg: Config, db: Db, ch: Chain, cs: seq<Contract>, c: Contract, n: nat)
    requires ValidConfig(cfg) && ValidChain(ch) && Mixed(db, ch) && cs != [] && Distinct(cs)
    requires AllDead(db, ch, c) && AllDead(db, ch, cs[0]) && n < |ContractWrites(cfg, db, ch, cs[0], None)|
    ensures Stopped(cfg, db, SyncContracts(cfg, db, ch, cs, None, n), ch, cs, c, n)
  {
    hide ContractWrites, Exec, ValidChain, Mixed, OthersSame, AllDead, AllLive, Recovers, Overtaken, SameFor, RowsOf;
    SyncNext(cfg, db, ch, cs, None, n);
    TurnStops(cfg, db, ch, cs[0], n);
    if c != cs[0] { DeadElsewhere(cfg, db, SyncContracts(cfg, db, ch, cs, None, n), ch, c, cs[0]); }
  }

  /** Stopped after the contract's own turn, which was the first. */
  lemma {:induction false} OwnTurnStops(cfg: Config, db: Db, ch: Chain, cs: seq<Contract>, n: nat)
    requires ValidConfig(cfg) && ValidChain(ch) && Mixed(db, ch) && cs != [] && Distinct(cs)
    requires (forall d | d in cs :: AllDead(db, ch, d)) && n >= |ContractWrites(cfg, db, ch, cs[0], None)|
    ensures Stopped(cfg, db, SyncContracts(cfg, db, ch, cs, None, n), ch, cs, cs[0], n)
  {
    hide ContractWrites, Exec, ValidChain, Mixed, OthersSame, AllDead, AllLive, Recovers, Overtaken, SameFor, RowsOf;
    var c, ws := cs[0], ContractWrites(cfg, db, ch, cs[0], None);
    var mid := ExecAll(db, ws);
    SyncNext(cfg, db, ch, cs, None, n);
    hide SyncContracts;
    ExecEnough(db, ws, n);
    TurnStops(cfg, db, ch, c, n);
    forall e | e in cs[1..] ensures AllDead(mid, ch, e) { DeadElsewhere(cfg, db, mid, ch, e, c); }
    RestStops(cfg, mid, ch, cs[1..], c, n - |ws|);
  }

  /** Another contract's whole turn, before a stop in the rest. */
  lemma OtherTurn(cfg: Config, db: Db, db': Db, ch: Chain, cs: seq<Contract>, c: Contract, n: nat)
    requires ValidConfig(cfg) && ValidChain(ch) && Mixed(db, ch) && cs != [] && Distinct(cs) && c != cs[0]
    requires AllDead(db, ch, c) && forall d | d in cs :: AllDead(db, ch, d)
    ensures var ws := ContractWrites(cfg, db, ch, cs[0], None);
      var mid := ExecAll(db, ws);
      && Mixed(mid, ch) && AllDead(mid, ch, c) && (forall d | d in cs[1..] :: AllDead(mid, ch, d))
      && (n >= |ws| && Stopped(cfg, mid, db', ch, cs[1..], c, n - |ws|) ==> Stopped(cfg, db, db', ch, cs, c, n))
  {
    hide ContractWrites, Exec, ValidChain, Mixed, OthersSame, AllDead, AllLive, Recovers, Overtaken, SameFor, RowsOf;
    var d, ws := cs[0], ContractWrites(cfg, db, ch, cs[0], None);
    var mid := ExecAll(db, ws);
    TurnStops(cfg, db, ch, d, |ws|);
    forall e | e in cs[1..] ensures AllDead(mid, ch, e) { DeadElsewhere(cfg, db, mid, ch, e, d); }
    DeadElsewhere(cfg, db, mid, ch, c, d);
    if SameFor(mid, db', c) { SameForTwice(db, mid, db', c); }
  }

  lemma {:induction false} SyncStops(cfg: Config, db: Db, ch: Chain, cs: seq<Contract>, c: Contract, n: nat)
    requires ValidConfig(cfg) && ValidChain(ch) && Mixed(db, ch) && Distinct(cs)
    requires AllDead(db, ch, c) && forall d | d in cs :: AllDead(db, ch, d)
    ensures Stopped(cfg, db, SyncContracts(cfg, db, ch, cs, None, n), ch, cs, c, n)
    decreases |cs|
  {
    if cs == [] {
    } else {
      hide ContractWrites, Exec, ValidChain, Mixed, OthersSame, AllDead, AllLive, Recovers, Overtaken, SameFor, RowsOf;
      hide Stopped, StopsAfterRows;
      var ws := ContractWrites(cfg, db, ch, cs[0], None);
      if n < |ws| {
        FirstTurnStops(cfg, db, ch, cs, c, n);
      } else if c == cs[0] {
        OwnTurnStops(cfg, db, ch, cs, n);
      } else {
        SyncNext(cfg, db, ch, cs, None, n);
        hide SyncContracts;
        OtherTurn(cfg, db, SyncContracts(cfg, db, ch, cs, None, n), ch, cs, c, n);
        SyncStops(cfg, ExecAll(db, ws), ch, cs[1..], c, n - |ws|);
      }
    }
  }

  // ---- a stopped reset ----

  /**
   The chain was replaced, and a default sync over the new one was stopped after n writes.
   The next one, run to its end, misses a log of the contract from the lower bound on exactly
   when the contract's recorded height has one below it and either the contract had no rows,
   or the sync was stopped between the two deletes of that contract.
   */
  lemma {:induction false} StoppedResetExactly(cfg: Config, db: Db, ch: Chain, c: Contract, n: nat, m: nat)
    requires ValidConfig(cfg) && ValidChain(ch) && forall k | k in db.cache :: Dead(ch, k)
    requires Completes(cfg, SyncContracts(cfg, db, ch, CONTRACTS, None, n), ch, CONTRACTS, None, m)
    ensures var db1 := SyncContracts(cfg, db, ch, CONTRACTS, None, n);
      Covers(SyncContracts(cfg, db1, ch, CONTRACTS, None, m), ch, c, cfg.lowerBound, ch.tip) <==>
      !(Overtaken(cfg, db, ch, c) && (RowsOf(db, c) == {} || StopsAfterRows(cfg, db, ch, CONTRACTS, c, n)))
  {
    var db1 := SyncContracts(cfg, db, ch, CONTRACTS, None, n);
    hide SyncContracts, Completes, Covers, Recovers, Overtaken, StopsAfterRows;
    StoppedUnmixed(cfg, db, ch, c, n);
    EveryContract(c);
    SyncCompletes(cfg, db1, ch, CONTRACTS, c, m);
  }

  lemma {:induction false} StoppedUnmixed(cfg: Config, db: Db, ch: Chain, c: Contract, n: nat)
    requires ValidConfig(cfg) && ValidChain(ch) && forall k | k in db.cache :: Dead(ch, k)
    ensures var db1 := SyncContracts(cfg, db, ch, CONTRACTS, None, n);
      && Mixed(db1, ch) && Unmixed(db1, ch, CONTRACTS) && Stopped(cfg, db, db1, ch, CONTRACTS, c, n)
  {
    hide SyncContracts, Recovers, Overtaken, StopsAfterRows;
    var db1 := SyncContracts(cfg, db, ch, CONTRACTS, None, n);
    forall d | d in CONTRACTS ensures AllDead(db1, ch, d) || AllLive(db1, ch, d) {
      SyncStops(cfg, db, ch, CONTRACTS, d, n);
    }
    SyncStops(cfg, db, ch, CONTRACTS, c, n);
  }

  lemma {:induction false} FirstStops(cfg: Config, db: Db, ch: Chain)
    requires cfg.chunk > 0
    ensures StopsAfterRows(cfg, db, ch, CONTRACTS, IdentityRegistry, 1)
  {
    hide ContractWrites;
    assert CONTRACTS[0] == IdentityRegistry;
  }

  /** One dead row and a recorded height: stopped after one delete, the reset hides a log of the new chain. */
  lemma StoppedResetHidesALog(cfg: Config, before: Log, l: Log) returns (db: Db, ch: Chain, m: nat)
    requires ValidConfig(cfg) && Audited(l) && cfg.lowerBound <= l.block && before.key.tx != l.key.tx
    requires l.contract == IdentityRegistry && before.contract == IdentityRegistry
    ensures db == Db(map[before.key := before], map[IdentityRegistry := l.block])
    ensures ch == Chain(l.block, [l], {l.key.tx})
    ensures var db1 := SyncContracts(cfg, db, ch, CONTRACTS, None, 1);
      && Completes(cfg, db1, ch, CONTRACTS, None, m)
      && !Covers(SyncContracts(cfg, db1, ch, CONTRACTS, None, m), ch, IdentityRegistry, cfg.lowerBound, ch.tip)
  {
    db := Db(map[before.key := before], map[IdentityRegistry := l.block]);
    ch := Chain(l.block, [l], {l.key.tx});
    hide SyncContracts, Completes, Covers, StopsAfterRows, ContractWrites;
    FirstStops(cfg, db, ch);
    assert l in ch.logs && Due(l, IdentityRegistry, cfg.lowerBound, l.block);
    m := EnoughWrites(cfg, SyncContracts(cfg, db, ch, CONTRACTS, None, 1), ch, CONTRACTS, None);
    StoppedResetExactly(cfg, db, ch, IdentityRegistry, 1, m);
  }

  /** And then such a log is missing for good: no run of default syncs on the growing chain brings it back. */
  lemma LostInReset(cfg: Config, db: Db, ch: Chain, c: Contract, n: nat, m: nat, syncs: seq<Sync>) returns (l: Log)
    requires ValidConfig(cfg) && ValidChain(ch) && forall k | k in db.cache :: Dead(ch, k)
    requires Completes(cfg, SyncContracts(cfg, db, ch, CONTRACTS, None, n), ch, CONTRACTS, None, m)
    requires Overtaken(cfg, db, ch, c) && (RowsOf(db, c) == {} || StopsAfterRows(cfg, db, ch, CONTRACTS, c, n))
    requires syncs != [] && GrowingRun(syncs) && Grows(ch, syncs[0].chain)
      && forall i | 0 <= i < |syncs| :: syncs[i].fromBlock.None?
    ensures l in ch.logs && Due(l, c, cfg.lowerBound, ch.tip)
    ensures var db2 := SyncContracts(cfg, SyncContracts(cfg, db, ch, CONTRACTS, None, n), ch, CONTRACTS, None, m);
      Lost(After(cfg, db2, syncs), l)
  {
    var db1 := SyncContracts(cfg, db, ch, CONTRACTS, None, n);
    var db2 := SyncContracts(cfg, db1, ch, CONTRACTS, None, m);
    hide SyncContracts, Completes, Recovers, Overtaken, StopsAfterRows, After;
    StoppedResetExactly(cfg, db, ch, c, n, m);
    l :| l in ch.logs && Due(l, c, cfg.lowerBound, ch.tip) && l.key !in db2.cache;
    CompletedSettled(cfg, db, ch, c, n, m);
    SettledGrows(cfg, db2, ch, syncs[0].chain);
    LostForever(cfg, db2, syncs, l);
  }

  lemma {:induction false} CompletedSettled(cfg: Config, db: Db, ch: Chain, c: Contract, n: nat, m: nat)
    requires ValidConfig(cfg) && ValidChain(ch) && forall k | k in db.cache :: Dead(ch, k)
    requires Completes(cfg, SyncContracts(cfg, db, ch, CONTRACTS, None, n), ch, CONTRACTS, None, m)
    ensures var db2 := SyncContracts(cfg, SyncContracts(cfg, db, ch, CONTRACTS, None, n), ch, CONTRACTS, None, m);
      && Sound(db2, ch) && HeightsBelow(db2, ch) && c in db2.heights && db2.heights[c] == ch.tip
  {
    var db1 := SyncContracts(cfg, db, ch, CONTRACTS, None, n);
    var db2 := SyncContracts(cfg, db1, ch, CONTRACTS, None, m);
    hide SyncContracts, Completes, Covers, Recovers, Overtaken, StopsAfterRows;
    StoppedUnmixed(cfg, db, ch, c, n);
    forall d: Contract ensures AllLive(db2, ch, d) && Mixed(db2, ch) && d in db2.heights && db2.heights[d] == ch.tip {
      EveryContract(d);
      SyncCompletes(cfg, db1, ch, CONTRACTS, d, m);
    }
    forall k | k in db2.cache ensures OnChain(ch, k, db2.cache[k]) {
      assert AllLive(db2, ch, db2.cache[k].contract) && k in RowsOf(db2, db2.cache[k].contract);
    }
  }

  lemma SettledGrows(cfg: Config, db: Db, ch: Chain, ch': Chain)
    requires ValidChain(ch') && Sound(db, ch) && HeightsBelow(db, ch) && Grows(ch, ch')
    requires cfg.lowerBound <= ch.tip + 1
    ensures Settled(cfg, db, ch')
  {
    forall k | k in db.cache ensures OnChain(ch', k, db.cache[k]) { assert OnChain(ch, k, db.cache[k]); }
  }
}
