/** An explicit rebuild that may be stopped at any write, and the gap it can leave behind. */
module IndexerRebuild {
  import opened Texts
  import opened Indexer
  import opened IndexerFacts

  lemma PurgedGood(cfg: Config, db: Db, ch: Chain, c: Contract)
    requires ValidChain(ch) && Good(cfg, db, ch)
    ensures Good(cfg, ExecAll(db, Purge(c)), ch) && c !in ExecAll(db, Purge(c)).heights
  {
    ExecPurge(db, c, 2);
    var db' := ExecAll(db, Purge(c));
    forall k | k in db'.cache ensures OnChain(ch, k, db'.cache[k]) { assert OnChain(ch, k, db.cache[k]); }
    forall d | d in db'.heights ensures Covers(db', ch, d, cfg.lowerBound, db'.heights[d]) {
      assert Covers(db, ch, d, cfg.lowerBound, db.heights[d]);
      CoversOther(db, db', ch, c, d, cfg.lowerBound, db.heights[d]);
    }
  }

  lemma CoversOther(db: Db, db': Db, ch: Chain, c: Contract, d: Contract, from: int, to: int)
    requires Sound(db, ch) && Covers(db, ch, d, from, to) && d != c
    requires db'.cache == ApplyWrite(db, DeleteRows(c)).cache
    requires ValidChain(ch)
    ensures Covers(db', ch, d, from, to)
  {
    forall l | l in ch.logs && Due(l, d, from, to) ensures l.key in db'.cache {
      assert OnChain(ch, l.key, db.cache[l.key]);
    }
  }

  lemma RowsDeleted(cfg: Config, db: Db, ch: Chain, c: Contract, l: Log)
    requires ValidChain(ch) && Good(cfg, db, ch) && c in db.heights
    requires l in ch.logs && Due(l, c, cfg.lowerBound, db.heights[c])
    ensures l.key !in ApplyWrite(db, DeleteRows(c)).cache
  {
    assert Covers(db, ch, c, cfg.lowerBound, db.heights[c]);
    assert OnChain(ch, l.key, db.cache[l.key]);
  }

  lemma NotCovered(db: Db, ch: Chain, c: Contract, from: int, to: int, l: Log)
    requires l in ch.logs && Due(l, c, from, to) && l.key !in db.cache
    ensures !Covers(db, ch, c, from, to)
  {
  }

  /** The recorded height of the contract promises some tracked log. */
  ghost predicate Owes(cfg: Config, db: Db, ch: Chain, c: Contract) {
    c in db.heights && exists l :: l in ch.logs && Due(l, c, cfg.lowerBound, db.heights[c])
  }

  /** What a rebuild writes for a contract does not depend on the tables. */
  lemma RebuildWrites(cfg: Config, db: Db, ch: Chain, c: Contract, start: int)
    requires cfg.chunk > 0 && start <= cfg.lowerBound
    ensures ContractWrites(cfg, db, ch, c, Some(start)) == RebuildOf(cfg, ch, c)
  {
    hide ChunkWrites;
    assert [] + Purge(c) == Purge(c);
  }

  function RebuildOf(cfg: Config, ch: Chain, c: Contract): seq<Write>
    requires cfg.chunk > 0
  {
    if cfg.lowerBound > ch.tip + 1 then Purge(c) + Purge(c) + ChunkWrites(cfg, ch, c, 0) + [SetHeight(c, ch.tip)]
    else Purge(c) + ChunkWrites(cfg, ch, c, cfg.lowerBound) + [SetHeight(c, ch.tip)]
  }

  /** The rest of a contract's rebuild, after its first two deletes. */
  lemma {:induction false} AfterPurge(cfg: Config, db: Db, ch: Chain, c: Contract, n: nat)
    requires ValidConfig(cfg) && ValidChain(ch) && Good(cfg, db, ch) && c !in db.heights
    ensures var ws := RebuildOf(cfg, ch, c);
      var db' := Exec(db, ws[2..], n);
      && Good(cfg, db', ch) && OtherHeights(db, db', c)
      && (n >= |ws| - 2 ==> c in db'.heights && db'.heights[c] == ch.tip)
  {
    var ws := RebuildOf(cfg, ch, c);
    var from := if cfg.lowerBound > ch.tip + 1 then 0 else cfg.lowerBound;
    var indexing := ChunkWrites(cfg, ch, c, from) + [SetHeight(c, ch.tip)];
    hide ChunkWrites, Covers, Sound, ValidChain;
    if cfg.lowerBound > ch.tip + 1 {
      assert ws[2..] == Purge(c) + indexing;
      ExecConcat(db, Purge(c), indexing, n);
      PurgeGood(cfg, db, ch, c, n);
      PurgeGood(cfg, db, ch, c, 2);
      hide Good;
      if n > 2 {
        var db1 := ExecAll(db, Purge(c));
        CoveredBefore(cfg, db1, ch, c, 0);
        IndexGood(cfg, db1, ch, c, 0, n - 2);
      }
    } else {
      assert ws[2..] == indexing;
      CoveredBefore(cfg, db, ch, c, from);
      IndexGood(cfg, db, ch, c, from, n);
    }
  }

  lemma DeletedRows(cfg: Config, db: Db, ch: Chain, c: Contract)
    requires ValidChain(ch) && Good(cfg, db, ch)
    ensures var db' := ApplyWrite(db, DeleteRows(c));
      Sound(db', ch) && (Gapless(cfg, db', ch) <==> !Owes(cfg, db, ch, c))
  {
    var db' := ApplyWrite(db, DeleteRows(c));
    forall k | k in db'.cache ensures OnChain(ch, k, db'.cache[k]) { assert OnChain(ch, k, db.cache[k]); }
    if Owes(cfg, db, ch, c) {
      var l :| l in ch.logs && Due(l, c, cfg.lowerBound, db.heights[c]);
      RowsDeleted(cfg, db, ch, c, l);
      NotCovered(db', ch, c, cfg.lowerBound, db.heights[c], l);
    } else {
      forall d | d in db'.heights ensures Covers(db', ch, d, cfg.lowerBound, db'.heights[d]) {
        assert Covers(db, ch, d, cfg.lowerBound, db.heights[d]);
        if d != c { CoversOther(db, db', ch, c, d, cfg.lowerBound, db.heights[d]); }
      }
    }
  }

  /** One contract's turn of a rebuild: a gap exactly when stopped between the first two deletes. */
  lemma {:induction false} RebuildTurn(cfg: Config, db: Db, ch: Chain, c: Contract, n: nat)
    requires ValidConfig(cfg) && ValidChain(ch) && Good(cfg, db, ch)
    ensures var db' := Exec(db, RebuildOf(cfg, ch, c), n);
      && Sound(db', ch) && OtherHeights(db, db', c)
      && (Gapless(cfg, db', ch) <==> !(n == 1 && Owes(cfg, db, ch, c)))
      && (n >= |RebuildOf(cfg, ch, c)| ==> c in db'.heights && db'.heights[c] == ch.tip)
  {
    var ws := RebuildOf(cfg, ch, c);
    RebuildPurges(cfg, ch, c);
    ExecConcat(db, Purge(c), ws[2..], n);
    ExecPurge(db, c, n);
    DeletedRows(cfg, db, ch, c);
    PurgedGood(cfg, db, ch, c);
    ExecPurge(db, c, 2);
    hide RebuildOf, Covers, ValidChain;
    if n > 2 { AfterPurge(cfg, ExecAll(db, Purge(c)), ch, c, n - 2); }
  }

  lemma RebuildPurges(cfg: Config, ch: Chain, c: Contract)
    requires cfg.chunk > 0
    ensures |RebuildOf(cfg, ch, c)| > 2 && RebuildOf(cfg, ch, c) == Purge(c) + RebuildOf(cfg, ch, c)[2..]
  {
    hide ChunkWrites;
  }

  /** Write n is the second delete of a contract whose recorded height promises some log. */
  ghost predicate StopsBetweenDeletes(cfg: Config, db: Db, ch: Chain, cs: seq<Contract>, n: nat)
    requires cfg.chunk > 0
    decreases |cs|
  {
    cs != [] &&
    if n < |RebuildOf(cfg, ch, cs[0])| then n == 1 && Owes(cfg, db, ch, cs[0])
    else StopsBetweenDeletes(cfg, db, ch, cs[1..], n - |RebuildOf(cfg, ch, cs[0])|)
  }

  lemma {:induction false} StopsSame(cfg: Config, db: Db, db': Db, ch: Chain, c: Contract, cs: seq<Contract>, n: nat)
    requires cfg.chunk > 0 && OtherHeights(db, db', c) && c !in cs
    ensures StopsBetweenDeletes(cfg, db, ch, cs, n) <==> StopsBetweenDeletes(cfg, db', ch, cs, n)
    decreases |cs|
  {
    if cs == [] {
    } else {
      hide RebuildOf;
      assert cs[0] in db.heights - {c} <==> cs[0] in db.heights;
      assert cs[0] in db'.heights - {c} <==> cs[0] in db'.heights;
      if n >= |RebuildOf(cfg, ch, cs[0])| {
        StopsSame(cfg, db, db', ch, c, cs[1..], n - |RebuildOf(cfg, ch, cs[0])|);
      }
    }
  }

  /**
   A whole explicit rebuild, stopped after n writes, leaves a gap exactly when it is stopped
   between the two deletes of a contract that has something to lose.
   */
  lemma {:induction false} StoppedRebuildExactly(cfg: Config, db: Db, ch: Chain, cs: seq<Contract>, start: int, n: nat)
    requires ValidConfig(cfg) && ValidChain(ch) && Good(cfg, db, ch) && start <= cfg.lowerBound && Distinct(cs)
    ensures Sound(SyncContracts(cfg, db, ch, cs, Some(start), n), ch)
    ensures Gapless(cfg, SyncContracts(cfg, db, ch, cs, Some(start), n), ch) <==>
      !StopsBetweenDeletes(cfg, db, ch, cs, n)
    decreases |cs|
  {
    if cs == [] {
    } else {
      var ws := RebuildOf(cfg, ch, cs[0]);
      RebuildWrites(cfg, db, ch, cs[0], start);
      RebuildPurges(cfg, ch, cs[0]);
      hide ContractWrites, Exec, RebuildOf, ValidChain, ValidConfig, Gapless, Sound, OtherHeights, Owes;
      RebuildTurn(cfg, db, ch, cs[0], n);
      if n >= |ws| {
        RebuildTurn(cfg, db, ch, cs[0], |ws|);
        StopsSame(cfg, db, ExecAll(db, ws), ch, cs[0], cs[1..], n - |ws|);
        StoppedRebuildExactly(cfg, ExecAll(db, ws), ch, cs[1..], start, n - |ws|);
      }
    }
  }
}
