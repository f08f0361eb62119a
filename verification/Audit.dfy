/**
 Paging through the audit cache. A page is cut by row, but its cursor is only a block
 number; these are the rows a client following the cursor sees and misses.
 */
module Audit {
  import opened Texts

  /** A cached row that matches the request's filters. */
  datatype Row = Row(block: nat, logIndex: nat, payload: Text)

  /** Newest first: descending block, then descending log index. */
  predicate Before(a: Row, b: Row) {
    a.block > b.block || (a.block == b.block && a.logIndex > b.logIndex)
  }

  /** The order of the query; (block, log index) identifies a log of one chain. */
  ghost predicate Descending(rows: seq<Row>) {
    forall i, j | 0 <= i < j < |rows| :: Before(rows[i], rows[j])
  }

  /** `lt("block_number", cursor)` */
  function Below(rows: seq<Row>, cursor: nat): (r: seq<Row>)
    ensures forall x :: x in r <==> x in rows && x.block < cursor
    ensures |r| <= |rows|
  {
    if rows == [] then []
    else (if rows[0].block < cursor then [rows[0]] else []) + Below(rows[1..], cursor)
  }

  function Matching(rows: seq<Row>, cursor: Option<nat>): seq<Row> {
    if cursor.Some? then Below(rows, cursor.value) else rows
  }

  datatype Page = Page(events: seq<Row>, hasMore: bool, nextCursor: Option<nat>)

  type Limit = n: int | 1 <= n <= 200 witness 50

  /** One request: a row more than the limit is fetched to learn whether there are more. */
  function GetPage(rows: seq<Row>, limit: Limit, cursor: Option<nat>): (p: Page)
    ensures |p.events| <= limit && (p.hasMore ==> |p.events| == limit)
    ensures p.nextCursor == if p.hasMore then Some(p.events[limit - 1].block) else None
  {
    var matching := Matching(rows, cursor);
    var fetched := if |matching| > limit + 1 then matching[..limit + 1] else matching;
    var hasMore := |fetched| > limit;
    var page := if hasMore then fetched[..limit] else fetched;
    Page(page, hasMore, if hasMore then Some(page[|page| - 1].block) else None)
  }

  /** A list from which some row of a block is missing is shorter. */
  lemma {:induction false} BelowShorter(rows: seq<Row>, cursor: nat, i: nat)
    requires i < |rows| && rows[i].block >= cursor
    ensures |Below(rows, cursor)| < |rows|
  {
    if i == 0 {
    } else {
      BelowShorter(rows[1..], cursor, i - 1);
    }
  }

  lemma {:induction false} BelowCons(x: Row, rest: seq<Row>, cursor: nat)
    ensures Below([x] + rest, cursor) == if x.block < cursor then [x] + Below(rest, cursor) else Below(rest, cursor)
  {
    DropPrefix([x], rest);
    assert [] + Below(rest, cursor) == Below(rest, cursor);
  }

  lemma {:induction false} BelowBelow(rows: seq<Row>, low: nat, high: nat)
    requires low <= high
    ensures Below(Below(rows, high), low) == Below(rows, low)
  {
    if rows == [] {
    } else {
      var x, rest := rows[0], rows[1..];
      BelowBelow(rest, low, high);
      assert rows == [x] + rest;
      hide Below;
      BelowCons(x, rest, high);
      BelowCons(x, rest, low);
      BelowCons(x, Below(rest, high), low);
    }
  }

  /** The next cursor asks for a strictly smaller remainder. */
  lemma NextRemainder(rows: seq<Row>, limit: Limit, cursor: Option<nat>)
    requires GetPage(rows, limit, cursor).hasMore
    ensures var c := GetPage(rows, limit, cursor).nextCursor.value;
      && (cursor.Some? ==> c < cursor.value)
      && Matching(rows, Some(c)) == Below(Matching(rows, cursor), c)
      && |Matching(rows, Some(c))| < |Matching(rows, cursor)|
  {
    var m := Matching(rows, cursor);
    var c := GetPage(rows, limit, cursor).nextCursor.value;
    assert m[limit - 1].block == c && m[limit - 1] in m;
    BelowShorter(m, c, limit - 1);
    if cursor.Some? { BelowBelow(rows, c, cursor.value); }
  }

  /** Following `nextCursor` to the end, which the shrinking remainder guarantees exists. */
  function Pages(rows: seq<Row>, limit: Limit, cursor: Option<nat>): (ps: seq<Page>)
    ensures |ps| > 0
    decreases |Matching(rows, cursor)|
  {
    var p := GetPage(rows, limit, cursor);
    if p.hasMore then
      NextRemainder(rows, limit, cursor);
      [p] + Pages(rows, limit, p.nextCursor)
    else [p]
  }

  function Yielded(ps: seq<Page>): seq<Row> {
    if ps == [] then [] else ps[0].events + Yielded(ps[1..])
  }

  /** r is cut off by a page that ends inside its block. */
  ghost predicate CutOff(ps: seq<Page>, r: Row) {
    exists i :: 0 <= i < |ps| && CutOffBy(ps[i], r)
  }

  ghost predicate CutOffBy(p: Page, r: Row) {
    p.hasMore && p.events != [] && r.block == p.events[|p.events| - 1].block && Before(p.events[|p.events| - 1], r)
  }

  lemma {:induction false} BelowDescending(rows: seq<Row>, cursor: nat)
    requires Descending(rows)
    ensures Descending(Below(rows, cursor))
  {
    if rows == [] {
    } else {
      BelowDescending(rows[1..], cursor);
      var rest := Below(rows[1..], cursor);
      forall j | 0 <= j < |rest| ensures Before(rows[0], rest[j]) {
        assert rest[j] in rows[1..];
      }
    }
  }

  /** What one page takes from its remainder m, and what the next remainder keeps. */
  lemma PageSplit(m: seq<Row>, n: nat, r: Row)
    requires Descending(m) && 0 < n <= |m|
    ensures r in m <==> r in m[..n] || r in Below(m, m[n - 1].block)
                        || (r in m && r.block == m[n - 1].block && Before(m[n - 1], r))
    ensures r in m[..n] ==> !Before(m[n - 1], r) && r.block >= m[n - 1].block
  {
    if r in m {
      var i :| 0 <= i < |m| && m[i] == r;
      if i < n { assert m[..n][i] == r; }
    }
  }

  /** A yielded row is a row of the cache in range. */
  lemma {:induction false} YieldedInRange(rows: seq<Row>, limit: Limit, cursor: Option<nat>, r: Row)
    requires r in Yielded(Pages(rows, limit, cursor))
    ensures r in Matching(rows, cursor)
    decreases |Matching(rows, cursor)|
  {
    var p, ps := GetPage(rows, limit, cursor), Pages(rows, limit, cursor);
    if p.hasMore {
      NextRemainder(rows, limit, cursor);
      assert ps[1..] == Pages(rows, limit, p.nextCursor);
      if r !in p.events { YieldedInRange(rows, limit, p.nextCursor, r); }
    } else {
      assert ps[1..] == [];
    }
  }

  lemma MatchingDescending(rows: seq<Row>, cursor: Option<nat>)
    requires Descending(rows)
    ensures Descending(Matching(rows, cursor))
  {
    if cursor.Some? { BelowDescending(rows, cursor.value); }
  }

  lemma DescendingConcat(a: seq<Row>, b: seq<Row>)
    requires Descending(a) && Descending(b)
    requires forall i, j | 0 <= i < |a| && 0 <= j < |b| :: Before(a[i], b[j])
    ensures Descending(a + b)
  {
  }

  lemma PrefixDescending(m: seq<Row>, n: nat)
    requires Descending(m) && 0 < n <= |m|
    ensures Descending(m[..n]) && forall i | 0 <= i < n :: m[..n][i].block >= m[n - 1].block
  {
  }

  /** A page is in order, and ends no earlier than the block its cursor names. */
  lemma PageInOrder(rows: seq<Row>, limit: Limit, cursor: Option<nat>)
    requires Descending(rows)
    ensures var p := GetPage(rows, limit, cursor);
      && Descending(p.events)
      && (p.hasMore ==> forall i | 0 <= i < |p.events| :: p.events[i].block >= p.nextCursor.value)
  {
    MatchingDescending(rows, cursor);
    var p, m := GetPage(rows, limit, cursor), Matching(rows, cursor);
    hide Descending, Matching;
    if p.hasMore {
      assert m[..limit + 1][..limit] == m[..limit];
      PrefixDescending(m, limit);
    }
  }

  /** No row comes twice: the rows yielded are in strictly descending order. */
  lemma {:induction false} YieldedDescending(rows: seq<Row>, limit: Limit, cursor: Option<nat>)
    requires Descending(rows)
    ensures Descending(Yielded(Pages(rows, limit, cursor)))
    decreases |Matching(rows, cursor)|
  {
    hide GetPage, Descending, Matching;
    var p := GetPage(rows, limit, cursor);
    PageInOrder(rows, limit, cursor);
    if p.hasMore {
      NextRemainder(rows, limit, cursor);
      YieldedDescending(rows, limit, p.nextCursor);
      var rest := Yielded(Pages(rows, limit, p.nextCursor));
      forall j | 0 <= j < |rest| ensures rest[j].block < p.nextCursor.value {
        YieldedInRange(rows, limit, p.nextCursor, rest[j]);
        InRange(rows, p.nextCursor.value, rest[j]);
      }
      DescendingConcat(p.events, rest);
      DropPrefix([p], Pages(rows, limit, p.nextCursor));
    } else {
      assert Yielded([p]) == p.events + Yielded([]);
      assert p.events + [] == p.events;
    }
  }

  lemma InRange(rows: seq<Row>, cursor: nat, r: Row)
    requires r in Matching(rows, Some(cursor))
    ensures r.block < cursor
  {
  }

  lemma CutOffCons(p: Page, ps: seq<Page>, r: Row)
    ensures CutOff([p] + ps, r) <==> CutOffBy(p, r) || CutOff(ps, r)
  {
    var all := [p] + ps;
    if CutOff(ps, r) {
      var i :| 0 <= i < |ps| && CutOffBy(ps[i], r);
      assert all[i + 1] == ps[i];
    }
    if CutOffBy(p, r) { assert all[0] == p; }
  }

  /** The cut-offs of later pages lie in older blocks. */
  lemma {:induction false} CutOffInRange(rows: seq<Row>, limit: Limit, cursor: nat, r: Row)
    requires CutOff(Pages(rows, limit, Some(cursor)), r)
    ensures r.block < cursor
    decreases |Matching(rows, Some(cursor))|
  {
    var p, ps := GetPage(rows, limit, Some(cursor)), Pages(rows, limit, Some(cursor));
    if !p.hasMore {
    } else {
      NextRemainder(rows, limit, Some(cursor));
      CutOffCons(p, Pages(rows, limit, p.nextCursor), r);
      if !CutOffBy(p, r) { CutOffInRange(rows, limit, p.nextCursor.value, r); }
    }
  }

  lemma {:induction false} YieldedCons(p: Page, rest: seq<Page>, r: Row)
    ensures r in Yielded([p] + rest) <==> r in p.events || r in Yielded(rest)
  {
    DropPrefix([p], rest);
  }

  /** Where the first n rows end: everything older is left, and part of one block may be. */
  lemma PageCut(m: seq<Row>, n: nat, r: Row)
    requires Descending(m) && 0 < n <= |m| && r in m
    ensures r.block < m[n - 1].block ==> r !in m[..n]
    ensures r.block >= m[n - 1].block ==> (r !in m[..n] <==> r.block == m[n - 1].block && Before(m[n - 1], r))
  {
    PageSplit(m, n, r);
  }

  /** What the first page shows or cuts off of the remaining rows. */
  lemma FirstPage(rows: seq<Row>, limit: Limit, cursor: Option<nat>, r: Row)
    requires Descending(rows) && r in Matching(rows, cursor)
    ensures var p := GetPage(rows, limit, cursor);
      if p.hasMore then
        && (r in Matching(rows, p.nextCursor) <==> r.block < p.nextCursor.value)
        && (r.block < p.nextCursor.value ==> r !in p.events && !CutOffBy(p, r))
        && (r.block >= p.nextCursor.value ==> (r !in p.events <==> CutOffBy(p, r)))
      else r in p.events && !CutOffBy(p, r)
  {
    var p, m := GetPage(rows, limit, cursor), Matching(rows, cursor);
    MatchingDescending(rows, cursor);
    if p.hasMore {
      NextRemainder(rows, limit, cursor);
      assert m[..limit + 1][..limit] == m[..limit];
      assert p.events == m[..limit] && p.events[limit - 1] == m[limit - 1];
      hide *;
      PageCut(m, limit, r);
      CutOffByMore(p, limit, r);
    }
  }

  lemma CutOffByMore(p: Page, limit: Limit, r: Row)
    requires p.hasMore && |p.events| == limit
    ensures CutOffBy(p, r) <==> r.block == p.events[limit - 1].block && Before(p.events[limit - 1], r)
  {
  }

  /**
   The rows missed are exactly those in the block of some page's last row that sort after
   that row.
   */
  lemma {:induction false} MissedExactly(rows: seq<Row>, limit: Limit, cursor: Option<nat>, r: Row)
    requires Descending(rows) && r in Matching(rows, cursor)
    ensures r !in Yielded(Pages(rows, limit, cursor)) <==> CutOff(Pages(rows, limit, cursor), r)
    decreases |Matching(rows, cursor)|
  {
    hide GetPage, CutOffBy, CutOff, Yielded, Matching, Descending;
    var p := GetPage(rows, limit, cursor);
    FirstPage(rows, limit, cursor, r);
    if p.hasMore {
      var c := p.nextCursor.value;
      var rest := Pages(rows, limit, p.nextCursor);
      NextRemainder(rows, limit, cursor);
      CutOffCons(p, rest, r);
      YieldedCons(p, rest, r);
      if r.block < c {
        MissedExactly(rows, limit, p.nextCursor, r);
      } else {
        if r in Yielded(rest) { YieldedInRange(rows, limit, p.nextCursor, r); }
        if CutOff(rest, r) { CutOffInRange(rows, limit, c, r); }
      }
    } else {
      CutOffCons(p, [], r);
      YieldedCons(p, [], r);
      NoPages(r);
      assert Pages(rows, limit, cursor) == [p] + [];
    }
  }

  lemma NoPages(r: Row)
    ensures !CutOff([], r) && Yielded([]) == []
  {
  }

  // ---- when nothing is missed ----

  /** No block of the rows lies across a multiple of the limit, counted from the first row. */
  predicate Aligned(rows: seq<Row>, limit: Limit) {
    |rows| <= limit || (rows[limit - 1].block != rows[limit].block && Aligned(rows[limit..], limit))
  }

  lemma {:induction false} BelowAll(rows: seq<Row>, cursor: nat)
    requires forall i | 0 <= i < |rows| :: rows[i].block < cursor
    ensures Below(rows, cursor) == rows
  {
    if rows == [] {
    } else {
      BelowAll(rows[1..], cursor);
      assert rows == [rows[0]] + rows[1..];
    }
  }

  lemma {:induction false} BelowNone(rows: seq<Row>, rest: seq<Row>, cursor: nat)
    requires forall i | 0 <= i < |rows| :: rows[i].block >= cursor
    ensures Below(rows + rest, cursor) == Below(rest, cursor)
  {
    if rows == [] {
      assert rows + rest == rest;
    } else {
      assert rows + rest == [rows[0]] + (rows[1..] + rest);
      BelowCons(rows[0], rows[1..] + rest, cursor);
      BelowNone(rows[1..], rest, cursor);
    }
  }

  /** If a page ends where a block ends, the next remainder is the rest of the rows. */
  lemma {:induction false} AlignedRemainder(m: seq<Row>, n: nat)
    requires Descending(m) && 0 < n < |m| && m[n - 1].block != m[n].block
    ensures Below(m, m[n - 1].block) == m[n..]
  {
    assert Before(m[n - 1], m[n]);
    assert m == m[..n] + m[n..];
    forall i | 0 <= i < n ensures m[..n][i].block >= m[n - 1].block { if i < n - 1 { assert Before(m[i], m[n - 1]); } }
    forall i | 0 <= i < |m| - n ensures m[n..][i].block < m[n - 1].block { if i > 0 { assert Before(m[n], m[n + i]); } }
    hide Below, Descending;
    BelowNone(m[..n], m[n..], m[n - 1].block);
    BelowAll(m[n..], m[n - 1].block);
  }

  ghost predicate SomeCutBy(m: seq<Row>, p: Page) { exists r :: r in m && CutOffBy(p, r) }

  ghost predicate SomeCut(m: seq<Row>, ps: seq<Page>) { exists r :: r in m && CutOff(ps, r) }

  /** Rows that sort after the last of the first n and share its block exist exactly if the next one does. */
  lemma StraddleExactly(m: seq<Row>, n: nat)
    requires Descending(m) && 0 < n < |m|
    ensures (exists r :: r in m && r.block == m[n - 1].block && Before(m[n - 1], r)) <==> m[n - 1].block == m[n].block
  {
    assert Before(m[n - 1], m[n]) && m[n] in m;
    if r :| r in m && r.block == m[n - 1].block && Before(m[n - 1], r) {
      var i :| 0 <= i < |m| && m[i] == r;
      if i < n - 1 { assert Before(m[i], m[n - 1]); }
      if i > n { assert Before(m[n], m[i]); }
    }
  }

  /** A page cuts rows off exactly when it ends inside a block. */
  lemma PageCuts(rows: seq<Row>, limit: Limit, cursor: Option<nat>)
    requires Descending(Matching(rows, cursor)) && GetPage(rows, limit, cursor).hasMore
    ensures var m, p := Matching(rows, cursor), GetPage(rows, limit, cursor);
      && |m| > limit && p.nextCursor == Some(m[limit - 1].block)
      && (SomeCutBy(m, p) <==> m[limit - 1].block == m[limit].block)
  {
    var m, p := Matching(rows, cursor), GetPage(rows, limit, cursor);
    assert m[..limit + 1][..limit] == m[..limit] && p.events[limit - 1] == m[limit - 1];
    hide Matching, GetPage, Descending;
    StraddleExactly(m, limit);
    forall r ensures CutOffBy(p, r) <==> r.block == m[limit - 1].block && Before(m[limit - 1], r) {
      CutOffByMore(p, limit, r);
    }
    hide CutOffBy, Before;
    if r :| r in m && CutOffBy(p, r) { assert r.block == m[limit - 1].block && Before(m[limit - 1], r); }
    if r :| r in m && r.block == m[limit - 1].block && Before(m[limit - 1], r) { assert CutOffBy(p, r); }
  }

  lemma SomeCutCons(m: seq<Row>, p: Page, rest: seq<Page>)
    ensures SomeCut(m, [p] + rest) <==> SomeCutBy(m, p) || SomeCut(m, rest)
  {
    hide CutOff, CutOffBy;
    forall r ensures CutOff([p] + rest, r) <==> CutOffBy(p, r) || CutOff(rest, r) { CutOffCons(p, rest, r); }
  }

  /** What later pages cut off lies in the remainder. */
  lemma {:induction false} SomeCutLater(rows: seq<Row>, limit: Limit, cursor: nat, m: seq<Row>)
    ensures SomeCut(m, Pages(rows, limit, Some(cursor))) <==>
      SomeCut(Below(m, cursor), Pages(rows, limit, Some(cursor)))
  {
    var ps := Pages(rows, limit, Some(cursor));
    forall r | CutOff(ps, r) ensures r.block < cursor { CutOffInRange(rows, limit, cursor, r); }
    hide Pages, CutOff;
    if r :| r in m && CutOff(ps, r) { assert r in Below(m, cursor); }
  }

  lemma NoneCut(m: seq<Row>, p: Page)
    requires !p.hasMore
    ensures !SomeCut(m, [p])
  {
  }

  /** Following the cursor cuts some row off exactly when the remaining rows are not aligned. */
  lemma {:induction false} CutOffExactly(rows: seq<Row>, limit: Limit, cursor: Option<nat>)
    requires Descending(rows)
    ensures SomeCut(Matching(rows, cursor), Pages(rows, limit, cursor)) <==> !Aligned(Matching(rows, cursor), limit)
    decreases |Matching(rows, cursor)|
  {
    var m, p := Matching(rows, cursor), GetPage(rows, limit, cursor);
    MatchingDescending(rows, cursor);
    if !p.hasMore {
      NoneCut(m, p);
    } else {
      PageCuts(rows, limit, cursor);
      NextRemainder(rows, limit, cursor);
      if m[limit - 1].block != m[limit].block {
        AlignedRemainder(m, limit);
        CutOffExactly(rows, limit, p.nextCursor);
      }
      hide GetPage, Matching, Descending, SomeCut, SomeCutBy;
      SomeCutCons(m, p, Pages(rows, limit, p.nextCursor));
      SomeCutLater(rows, limit, p.nextCursor.value, m);
    }
  }

  /** Paging from the start shows the whole cache exactly when no block lies across a page end. */
  lemma {:induction false} CompleteExactly(rows: seq<Row>, limit: Limit)
    requires Descending(rows)
    ensures (forall r :: r in Yielded(Pages(rows, limit, None)) <==> r in rows) <==> Aligned(rows, limit)
  {
    var ps := Pages(rows, limit, None);
    hide Pages, Yielded, CutOff, Descending, Aligned;
    CutOffExactly(rows, limit, None);
    assert Aligned(rows, limit) <==> !exists r :: r in rows && CutOff(ps, r);
    forall r | r in rows ensures r !in Yielded(ps) <==> CutOff(ps, r) {
      MissedExactly(rows, limit, None, r);
    }
    forall r | r in Yielded(ps) ensures r in rows {
      YieldedInRange(rows, limit, None, r);
    }
  }

  /** Two logs of one block and a page of one: the second is never shown. */
  lemma StraddlingBlockLosesARow(a: Text, b: Text)
    ensures var rows := [Row(7, 1, a), Row(7, 0, b)];
      Descending(rows) && rows[1] !in Yielded(Pages(rows, 1, None))
  {
    var rows := [Row(7, 1, a), Row(7, 0, b)];
    var p := GetPage(rows, 1, None);
    assert p.hasMore && p.nextCursor == Some(7) && p.events == [rows[0]];
    var rest := Pages(rows, 1, Some(7));
    CutOffCons(p, rest, rows[1]);
    NextRemainder(rows, 1, None);
    assert Pages(rows, 1, None) == [p] + rest;
    MissedExactly(rows, 1, None, rows[1]);
  }
}
