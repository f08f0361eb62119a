/** However often the seeding is interrupted, it ends where an uninterrupted run ends. */
module SeedFacts {
  import opened Texts
  import opened Seed

  // ---- what later transactions leave alone ----

  lemma {:induction false} FindOrgAppend(p: Plan, orgs: seq<Org>, o: Org, i: nat)
    requires i <= |orgs|
    ensures FindOrgFrom(p, orgs + [o], i) ==
      if FindOrgFrom(p, orgs, i).Some? then FindOrgFrom(p, orgs, i)
      else if IsOurs(p, o) then Some(|orgs| + 1) else None
    decreases |orgs| - i
  {
    hide IsOurs;
    if i < |orgs| && !IsOurs(p, orgs[i]) { FindOrgAppend(p, orgs, o, i + 1); }
  }

  /** The organization, once there, keeps its number. */
  lemma PerformOrg(p: Plan, ch: Chain, now: int, item: Item)
    ensures FindOrg(p, ch).Some? ==> FindOrg(p, Perform(p, ch, now, item)) == FindOrg(p, ch)
    ensures item.CreateOrg? ==> FindOrg(p, Perform(p, ch, now, item)).Some?
  {
    FindOrgAppend(p, ch.orgs, Org(p.creator, p.orgHash), 0);
    hide FindOrgFrom;
  }

  /** What is done stays done. */
  lemma DoneStays(p: Plan, ch: Chain, now: int, item: Item, other: Item)
    requires Done(p, ch, other)
    ensures Done(p, Perform(p, ch, now, item), other)
  {
    PerformOrg(p, ch, now, item);
    hide FindOrg, Address;
    if other.Mint? {
      var orgId, ch' := FindOrg(p, ch).value, Perform(p, ch, now, item);
      var i :| 0 <= i < |ch.tokens| && TokenFor(ch.tokens[i], orgId, other.asset.hash(orgId));
      assert ch'.tokens[i] == ch.tokens[i];
    }
  }

  predicate NeedsOrg(item: Item) { !item.Register? && !item.CreateOrg? }

  /** Each transaction does what its check looks for. */
  lemma PerformDoes(p: Plan, ch: Chain, now: int, item: Item)
    requires NeedsOrg(item) ==> FindOrg(p, ch).Some?
    ensures Done(p, Perform(p, ch, now, item), item)
  {
    PerformOrg(p, ch, now, item);
    hide FindOrg, Address, MetadataUri;
    if item.Mint? {
      var ch' := Perform(p, ch, now, item);
      assert TokenFor(ch'.tokens[|ch.tokens|], FindOrg(p, ch).value, item.asset.hash(FindOrg(p, ch).value));
    }
  }

  // ---- equality but for the expiry times ----

  /** The same roles with the same holders; only when temporary roles end may differ. */
  ghost predicate Same(a: Chain, b: Chain) {
    && a.identities == b.identities && a.orgs == b.orgs && a.apps == b.apps && a.access == b.access
      && a.tokens == b.tokens
    && a.members.Keys == b.members.Keys
    && forall k | k in a.members :: a.members[k].role == b.members[k].role
  }

  lemma SameStep(p: Plan, a: Chain, b: Chain, now1: int, now2: int, item: Item)
    requires Same(a, b)
    ensures Done(p, a, item) == Done(p, b, item)
    ensures Same(Perform(p, a, now1, item), Perform(p, b, now2, item))
  {
    hide FindOrgFrom, Address, MetadataUri;
    var m := a.members;
    assert forall k :: k in a.members.Keys <==> k in b.members.Keys;
    var a', b' := Perform(p, a, now1, item), Perform(p, b, now2, item);
    assert forall k :: k in a'.members <==> k in b'.members;
  }

  lemma {:induction false} SameRuns(p: Plan, items: seq<Item>, a: Chain, b: Chain, now1: int, now2: int, n: nat)
    requires Same(a, b)
    ensures Same(Exec(p, items, a, now1, n), Exec(p, items, b, now2, n))
    decreases |items|
  {
    if items == [] {
    } else {
      hide Same, Done, Perform;
      SameStep(p, a, b, now1, now2, items[0]);
      if Done(p, a, items[0]) {
        SameRuns(p, items[1..], a, b, now1, now2, n);
      } else if n > 0 {
        SameRuns(p, items[1..], Perform(p, a, now1, items[0]), Perform(p, b, now2, items[0]), now1, now2, n - 1);
      }
    }
  }

  // ---- running again ----

  ghost predicate AllDone(p: Plan, ch: Chain, items: seq<Item>) { forall i | 0 <= i < |items| :: Done(p, ch, items[i]) }

  /** What needs the organization comes after creating it. */
  ghost predicate Ordered(done: seq<Item>, rest: seq<Item>) {
    forall i | 0 <= i < |rest| && NeedsOrg(rest[i]) :: CreateOrg in done + rest[..i]
  }

  /** A script all of whose items are done sends nothing. */
  lemma {:induction false} NothingToDo(p: Plan, done: seq<Item>, rest: seq<Item>, ch: Chain, now: int, n: nat)
    requires AllDone(p, ch, done)
    ensures Exec(p, done + rest, ch, now, n) == Exec(p, rest, ch, now, n)
    ensures Left(p, done + rest, ch, now, n) == Left(p, rest, ch, now, n)
    decreases |done|
  {
    if done == [] {
      assert done + rest == rest;
    } else {
      assert (done + rest)[0] == done[0] && (done + rest)[1..] == done[1..] + rest;
      hide Done;
      NothingToDo(p, done[1..], rest, ch, now, n);
    }
  }

  /** A longer budget than there are items changes nothing. */
  lemma {:induction false} EnoughIsEnough(p: Plan, items: seq<Item>, ch: Chain, now: int, n: nat)
    requires n >= |items|
    ensures Exec(p, items, ch, now, n) == Full(p, items, ch, now)
    decreases |items|
  {
    if items == [] {
    } else {
      hide Done, Perform;
      var rest := items[1..];
      if Done(p, ch, items[0]) {
        EnoughIsEnough(p, rest, ch, now, n);
        EnoughIsEnough(p, rest, ch, now, |items|);
      } else {
        EnoughIsEnough(p, rest, Perform(p, ch, now, items[0]), now, n - 1);
        EnoughIsEnough(p, rest, Perform(p, ch, now, items[0]), now, |items| - 1);
      }
    }
  }

  lemma OrderedNext(done: seq<Item>, rest: seq<Item>)
    requires rest != [] && Ordered(done, rest)
    ensures Ordered(done + [rest[0]], rest[1..])
  {
    forall i | 0 <= i < |rest| - 1 && NeedsOrg(rest[1..][i]) ensures CreateOrg in done + [rest[0]] + rest[1..][..i] {
      assert rest[..i + 1] == [rest[0]] + rest[1..][..i];
      assert done + rest[..i + 1] == done + [rest[0]] + rest[1..][..i];
    }
  }

  lemma DoneNext(p: Plan, done: seq<Item>, item: Item, ch: Chain, now: int)
    requires AllDone(p, ch, done) && (NeedsOrg(item) ==> CreateOrg in done)
    ensures Done(p, ch, item) ==> AllDone(p, ch, done + [item])
    ensures AllDone(p, Perform(p, ch, now, item), done + [item])
  {
    hide Done, Perform;
    var ch' := Perform(p, ch, now, item);
    forall i | 0 <= i < |done| ensures Done(p, ch', done[i]) { DoneStays(p, ch, now, item, done[i]); }
    if NeedsOrg(item) { CreatedOrg(p, ch, done); }
    PerformDoes(p, ch, now, item);
  }

  lemma CreatedOrg(p: Plan, ch: Chain, done: seq<Item>)
    requires AllDone(p, ch, done) && CreateOrg in done
    ensures FindOrg(p, ch).Some?
  {
    var i :| 0 <= i < |done| && done[i] == CreateOrg;
    assert Done(p, ch, done[i]);
  }

  /**
   Stopped after n transactions and run again later, the script makes the same of the chain as
   one uninterrupted run would have.
   */
  lemma {:induction false} Resumes(p: Plan, done: seq<Item>, rest: seq<Item>, ch: Chain, now: int, later: int, n: nat)
    requires AllDone(p, ch, done) && Ordered(done, rest)
    ensures Same(Full(p, done + rest, Exec(p, rest, ch, now, n), later), Full(p, rest, ch, now))
    decreases |rest|
  {
    if rest == [] {
      NothingToDo(p, done, rest, ch, later, |done + rest|);
    } else {
      var item, tail := rest[0], rest[1..];
      OrderedNext(done, rest);
      assert rest[..0] == [] && done + rest[..0] == done;
      assert NeedsOrg(item) ==> CreateOrg in done;
      DoneNext(p, done, item, ch, now);
      assert done + [item] + tail == done + rest;
      hide Done, Perform, Same, AllDone, Ordered;
      if Done(p, ch, item) {
        Resumes(p, done + [item], tail, ch, now, later, n);
        EnoughIsEnough(p, tail, ch, now, |rest|);
      } else if n == 0 {
        NothingToDo(p, done, rest, ch, later, |done + rest|);
        EnoughIsEnough(p, rest, ch, later, |done + rest|);
        SameSelf(ch);
        SameRuns(p, rest, ch, ch, later, now, |rest|);
      } else {
        var ch' := Perform(p, ch, now, item);
        Resumes(p, done + [item], tail, ch', now, later, n - 1);
        EnoughIsEnough(p, tail, ch', now, |rest| - 1);
      }
    }
  }

  lemma SameSelf(ch: Chain)
    ensures Same(ch, ch)
  {
  }

  lemma SameAgain(a: Chain, b: Chain, c: Chain)
    requires Same(a, b) && Same(b, c)
    ensures Same(a, c)
  {
    assert forall k :: k in a.members.Keys <==> k in c.members.Keys;
  }

  lemma ItemsOrdered(p: Plan)
    ensures Ordered([], Items(p))
  {
    var n := |p.people|;
    forall i | 0 <= i < |Items(p)| && NeedsOrg(Items(p)[i]) ensures CreateOrg in [] + Items(p)[..i] {
      assert Items(p)[n] == CreateOrg;
      assert i > n;
      assert Items(p)[..i][n] == CreateOrg;
    }
  }

  /** Runs of the script, each at its own time and stopped after some transactions. */
  datatype Attempt = Attempt(now: int, transactions: nat)

  function Attempts(p: Plan, ch: Chain, attempts: seq<Attempt>): Chain
    decreases |attempts|
  {
    if attempts == [] then ch
    else Attempts(p, Exec(p, Items(p), ch, attempts[0].now, attempts[0].transactions), attempts[1..])
  }

  /**
   After any number of interrupted runs, a run to the end reaches the identities, roles, grants
   and tokens of one uninterrupted run.
   */
  lemma {:induction false} Converges(p: Plan, ch: Chain, attempts: seq<Attempt>, now: int, later: int)
    ensures Same(Full(p, Items(p), Attempts(p, ch, attempts), later), Full(p, Items(p), ch, now))
    decreases |attempts|
  {
    hide Same, Items;
    if attempts == [] {
      SameSelf(ch);
      SameRuns(p, Items(p), ch, ch, later, now, |Items(p)|);
    } else {
      var a := attempts[0];
      var ch' := Exec(p, Items(p), ch, a.now, a.transactions);
      Converges(p, ch', attempts[1..], a.now, later);
      ItemsOrdered(p);
      assert [] + Items(p) == Items(p);
      Resumes(p, [], Items(p), ch, a.now, a.now, a.transactions);
      SameSelf(ch);
      SameRuns(p, Items(p), ch, ch, a.now, now, |Items(p)|);
      var end, again := Full(p, Items(p), Attempts(p, ch, attempts), later), Full(p, Items(p), ch, a.now);
      SameAgain(end, Full(p, Items(p), ch', a.now), again);
      SameAgain(end, again, Full(p, Items(p), ch, now));
    }
  }

  /** A run to the end leaves every item done. */
  lemma {:induction false} FullDoesAll(p: Plan, done: seq<Item>, rest: seq<Item>, ch: Chain, now: int)
    requires AllDone(p, ch, done) && Ordered(done, rest)
    ensures AllDone(p, Full(p, rest, ch, now), done + rest)
    decreases |rest|
  {
    if rest == [] {
      assert done + rest == done;
    } else {
      var item, tail := rest[0], rest[1..];
      OrderedNext(done, rest);
      assert rest[..0] == [] && done + rest[..0] == done;
      assert NeedsOrg(item) ==> CreateOrg in done;
      DoneNext(p, done, item, ch, now);
      assert done + [item] + tail == done + rest;
      hide Done, Perform, AllDone, Ordered;
      var ch' := if Done(p, ch, item) then ch else Perform(p, ch, now, item);
      FullDoesAll(p, done + [item], tail, ch', now);
      EnoughIsEnough(p, tail, ch, now, |rest|);
      EnoughIsEnough(p, tail, ch', now, |rest| - 1);
    }
  }

  /** A run to the end leaves every check satisfied, so a further run sends no transaction, whatever it may. */
  lemma {:induction false} FurtherRunIdle(p: Plan, ch: Chain, now: int, later: int, n: nat)
    ensures AllDone(p, Full(p, Items(p), ch, now), Items(p))
    ensures Left(p, Items(p), Full(p, Items(p), ch, now), later, n) == n
    ensures Exec(p, Items(p), Full(p, Items(p), ch, now), later, n) == Full(p, Items(p), ch, now)
  {
    hide Items;
    ItemsOrdered(p);
    FullDoesAll(p, [], Items(p), ch, now);
    assert [] + Items(p) == Items(p);
    assert Items(p) + [] == Items(p);
    NothingToDo(p, Items(p), [], Full(p, Items(p), ch, now), later, n);
  }

  // ---- what the runs leave on the chain ----

  /** Tokens of an organization with a hash. */
  function Count(tokens: seq<Token>, orgId: nat, hash: Text): nat {
    if tokens == [] then 0
    else
      var last := |tokens| - 1;
      Count(tokens[..last], orgId, hash) + (if tokens[last].orgId == orgId && tokens[last].hash == hash then 1 else 0)
  }

  lemma {:induction false} CountMinted(tokens: seq<Token>, orgId: nat, hash: Text)
    ensures Count(tokens, orgId, hash) > 0 <==> exists i :: 0 <= i < |tokens| && TokenFor(tokens[i], orgId, hash)
  {
    if tokens == [] {
    } else {
      var last := |tokens| - 1;
      CountMinted(tokens[..last], orgId, hash);
      if i :| 0 <= i < last && TokenFor(tokens[..last][i], orgId, hash) { assert TokenFor(tokens[i], orgId, hash); }
    }
  }

  /** However the runs are interrupted, no hash is minted again. */
  lemma {:induction false} NeverMintedTwice(p: Plan, items: seq<Item>, ch: Chain, now: int, n: nat, orgId: nat,
                                            hash: Text)
    ensures var before, after := Count(ch.tokens, orgId, hash), Count(Exec(p, items, ch, now, n).tokens, orgId, hash);
      after == before || (before == 0 && after == 1)
    decreases |items|
  {
    if items == [] {
    } else {
      var item := items[0];
      hide Done, Perform, TokenFor;
      if Done(p, ch, item) {
        NeverMintedTwice(p, items[1..], ch, now, n, orgId, hash);
      } else if n > 0 {
        MintOnce(p, ch, now, item, orgId, hash);
        NeverMintedTwice(p, items[1..], Perform(p, ch, now, item), now, n - 1, orgId, hash);
      }
    }
  }

  lemma {:induction false} MintOnce(p: Plan, ch: Chain, now: int, item: Item, orgId: nat, hash: Text)
    requires !Done(p, ch, item)
    ensures var before, after := Count(ch.tokens, orgId, hash), Count(Perform(p, ch, now, item).tokens, orgId, hash);
      after == before || (before == 0 && after == 1)
  {
    hide FindOrg, Address, MetadataUri;
    CountMinted(ch.tokens, orgId, hash);
    var ch' := Perform(p, ch, now, item);
    if ch'.tokens != ch.tokens {
      assert ch'.tokens[..|ch.tokens|] == ch.tokens;
    }
  }

  /** No identity or role that was there is changed. */
  ghost predicate Extends(a: Chain, b: Chain) {
    && (forall w | w in a.identities :: w in b.identities && b.identities[w] == a.identities[w])
    && (forall k | k in a.members :: k in b.members && b.members[k] == a.members[k])
    && a.orgs <= b.orgs && a.access <= b.access && a.tokens <= b.tokens
    && (forall k | k in a.apps :: k in b.apps && b.apps[k] == a.apps[k])
  }

  lemma PerformExtends(p: Plan, ch: Chain, now: int, item: Item)
    requires !Done(p, ch, item)
    ensures Extends(ch, Perform(p, ch, now, item))
  {
    hide FindOrgFrom, Address, MetadataUri, Minted;
  }

  lemma {:induction false} OnlyAdds(p: Plan, items: seq<Item>, ch: Chain, now: int, n: nat)
    ensures Extends(ch, Exec(p, items, ch, now, n))
    decreases |items|
  {
    if items == [] {
    } else {
      hide Done, Perform;
      if Done(p, ch, items[0]) {
        OnlyAdds(p, items[1..], ch, now, n);
      } else if n > 0 {
        PerformExtends(p, ch, now, items[0]);
        OnlyAdds(p, items[1..], Perform(p, ch, now, items[0]), now, n - 1);
      }
    }
  }

  /** Every part of the plan is an item of the script. */
  lemma PlanItems(p: Plan)
    ensures CreateOrg in Items(p) && RegisterApp in Items(p)
    ensures forall q | q in p.people :: Register(q) in Items(p)
    ensures forall m | m in p.memberships :: AddMember(m) in Items(p)
    ensures forall r | r in ROLES :: Grant(r) in Items(p)
    ensures forall a | a in p.assets :: Mint(a) in Items(p)
  {
    forall q | q in p.people ensures Register(q) in Items(p) {
      var i :| 0 <= i < |p.people| && p.people[i] == q;
      assert RegisterItems(p.people)[i] == Register(q);
    }
    forall m | m in p.memberships ensures AddMember(m) in Items(p) {
      var i :| 0 <= i < |p.memberships| && p.memberships[i] == m;
      assert AddItems(p.memberships)[i] == AddMember(m);
      assert AddMember(m) in AfterOrg(p);
    }
    assert RegisterApp in AfterMembers(p) && RegisterApp in AfterOrg(p);
    forall r | r in ROLES ensures Grant(r) in Items(p) {
      var i :| 0 <= i < |ROLES| && ROLES[i] == r;
      assert GrantItems(ROLES)[i] == Grant(r);
      assert Grant(r) in AfterApp(p) && Grant(r) in AfterMembers(p) && Grant(r) in AfterOrg(p);
    }
    forall a | a in p.assets ensures Mint(a) in Items(p) {
      var i :| 0 <= i < |p.assets| && p.assets[i] == a;
      assert MintItems(p.assets)[i] == Mint(a);
      assert Mint(a) in AfterApp(p) && Mint(a) in AfterMembers(p) && Mint(a) in AfterOrg(p);
    }
  }

  lemma ItemDone(p: Plan, ch: Chain, now: int, item: Item)
    requires item in Items(p)
    ensures Done(p, Full(p, Items(p), ch, now), item)
  {
    hide Items, Done, Full;
    ItemsOrdered(p);
    FullDoesAll(p, [], Items(p), ch, now);
    assert [] + Items(p) == Items(p);
    var i :| 0 <= i < |Items(p)| && Items(p)[i] == item;
  }

  // ---- which role a new member gets ----

  lemma {:induction false} OrgStays(p: Plan, items: seq<Item>, ch: Chain, now: int, n: nat)
    requires FindOrg(p, ch).Some?
    ensures FindOrg(p, Exec(p, items, ch, now, n)) == FindOrg(p, ch)
    decreases |items|
  {
    if items == [] {
    } else {
      hide Done, Perform, FindOrg;
      PerformOrg(p, ch, now, items[0]);
      if Done(p, ch, items[0]) {
        OrgStays(p, items[1..], ch, now, n);
      } else if n > 0 {
        OrgStays(p, items[1..], Perform(p, ch, now, items[0]), now, n - 1);
      }
    }
  }

  /** The first of the memberships that names the address. */
  function FirstNamed(memberships: seq<Membership>, address: Text): Option<Membership> {
    if memberships == [] then None
    else if Address(memberships[0].wallet) == address then Some(memberships[0])
    else FirstNamed(memberships[1..], address)
  }

  /** The memberships some items add. */
  function Added(items: seq<Item>): seq<Membership> {
    if items == [] then []
    else (if items[0].AddMember? then [items[0].membership] else []) + Added(items[1..])
  }

  lemma {:induction false} AddedConcat(a: seq<Item>, b: seq<Item>)
    ensures Added(a + b) == Added(a) + Added(b)
  {
    hide Added;
    if a == [] {
      assert a + b == b;
      AddedNone(a);
    } else {
      AddedConcat(a[1..], b);
      AddedCons(a[0], a[1..]);
      AddedCons(a[0], a[1..] + b);
      assert [a[0]] + a[1..] == a && [a[0]] + (a[1..] + b) == a + b;
    }
  }

  lemma {:induction false} AddedCons(item: Item, items: seq<Item>)
    ensures Added([item] + items) == (if item.AddMember? then [item.membership] else []) + Added(items)
  {
    assert ([item] + items)[1..] == items;
  }

  lemma {:induction false} FirstAdded(items: seq<Item>, address: Text)
    requires items != []
    ensures FirstNamed(Added(items), address) ==
      if items[0].AddMember? && Address(items[0].membership.wallet) == address then Some(items[0].membership)
      else FirstNamed(Added(items[1..]), address)
  {
    hide Address;
    if items[0].AddMember? {
      assert Added(items)[1..] == Added(items[1..]);
    } else {
      assert Added(items) == Added(items[1..]);
    }
  }

  lemma {:induction false} AddedNone(items: seq<Item>)
    requires forall i | 0 <= i < |items| :: !items[i].AddMember?
    ensures Added(items) == []
  {
    if items == [] {
    } else {
      AddedNone(items[1..]);
    }
  }

  lemma {:induction false} AddedAll(memberships: seq<Membership>)
    ensures Added(AddItems(memberships)) == memberships
  {
    if memberships == [] {
    } else {
      assert AddItems(memberships)[1..] == AddItems(memberships[1..]);
      AddedAll(memberships[1..]);
    }
  }

  lemma AddedItems(p: Plan)
    ensures Added(Items(p)) == p.memberships
  {
    hide Added;
    AddedConcat(RegisterItems(p.people), AfterPeople(p));
    AddedNone(RegisterItems(p.people));
    AddedConcat([CreateOrg], AfterOrg(p));
    AddedNone([CreateOrg]);
    AddedConcat(AddItems(p.memberships), AfterMembers(p));
    AddedAll(p.memberships);
    AddedNone(AfterMembers(p));
  }

  /** An addition gives the address its role in our organization, and nobody else one. */
  lemma PerformAdds(p: Plan, ch: Chain, now: int, item: Item, key: (nat, Text))
    requires !Done(p, ch, item) && key !in ch.members
    ensures key in Perform(p, ch, now, item).members <==>
      item.AddMember? && FindOrg(p, ch) == Some(key.0) && Address(item.membership.wallet) == key.1
    ensures key in Perform(p, ch, now, item).members ==>
      (key.1 != Address(p.creator)
       && Perform(p, ch, now, item).members[key] == Member(item.membership.role, Expiry(item.membership.term, now)))
  {
    hide FindOrg, Address, MetadataUri, Minted;
  }

  /** A member of our organization as the first membership planned for the address wants it. */
  ghost predicate AsPlanned(p: Plan, memberships: seq<Membership>, ch: Chain, now: int, key: (nat, Text)) {
    && FindOrg(p, ch) == Some(key.0) && key.1 != Address(p.creator)
    && var first := FirstNamed(memberships, key.1);
      first.Some? && key in ch.members
      && ch.members[key] == Member(first.value.role, if first.value.term == ThirtyDays then now + 2_592_000 else 0)
  }

  lemma {:induction false} NewMember(p: Plan, done: seq<Item>, rest: seq<Item>, ch: Chain, now: int, n: nat,
                                     key: (nat, Text))
    requires AllDone(p, ch, done) && Ordered(done, rest)
    requires key !in ch.members && key in Exec(p, rest, ch, now, n).members
    ensures AsPlanned(p, Added(rest), Exec(p, rest, ch, now, n), now, key)
    decreases |rest|
  {
    if rest == [] {
    } else {
      var item, tail := rest[0], rest[1..];
      OrderedNext(done, rest);
      assert rest[..0] == [] && done + rest[..0] == done;
      assert NeedsOrg(item) ==> CreateOrg in done;
      DoneNext(p, done, item, ch, now);
      assert item.AddMember? ==> FindOrg(p, ch).Some? by { if item.AddMember? { CreatedOrg(p, ch, done); } }
      FirstAdded(rest, key.1);
      hide Perform, AllDone, Ordered, FindOrg, Address, Added;
      if FindOrg(p, ch).Some? { OrgStays(p, rest, ch, now, n); }
      if Done(p, ch, item) {
        NewMember(p, done + [item], tail, ch, now, n, key);
      } else {
        PerformAdds(p, ch, now, item, key);
        var ch' := Perform(p, ch, now, item);
        if key in ch'.members {
          OnlyAdds(p, tail, ch', now, n - 1);
        } else {
          NewMember(p, done + [item], tail, ch', now, n - 1, key);
        }
      }
    }
  }

  /**
   At whatever transaction the script is stopped, a new member is one of our organization, is
   not its creator, and has the role and term of the first membership planned for the address.
   */
  lemma {:induction false} NewMembersAsPlanned(p: Plan, ch: Chain, now: int, n: nat, key: (nat, Text))
    requires key !in ch.members && key in Exec(p, Items(p), ch, now, n).members
    ensures AsPlanned(p, p.memberships, Exec(p, Items(p), ch, now, n), now, key)
  {
    hide Items, Exec, AsPlanned;
    ItemsOrdered(p);
    NewMember(p, [], Items(p), ch, now, n, key);
    AddedItems(p);
  }

  // ---- what a run to the end reaches ----

  /** The member entry was there before, or is the planned one. */
  ghost predicate Kept(p: Plan, before: Chain, after: Chain, now: int, key: (nat, Text)) {
    key in after.members &&
    if key in before.members then after.members[key] == before.members[key]
    else AsPlanned(p, p.memberships, after, now, key)
  }

  /** Everybody is registered and a member of our organization, in the role that was theirs or else the planned one. */
  lemma PeopleReached(p: Plan, ch: Chain, now: int)
    ensures var ch' := Full(p, Items(p), ch, now);
      && FindOrg(p, ch').Some?
      && (forall q | q in p.people :: Address(q.wallet) in ch'.identities)
      && (forall m | m in p.memberships ::
            Address(m.wallet) == Address(p.creator)
            || Kept(p, ch, ch', now, (FindOrg(p, ch').value, Address(m.wallet))))
  {
    hide Items, Address, FindOrg, Exec, AsPlanned;
    PlanItems(p);
    ItemDone(p, ch, now, CreateOrg);
    forall q | q in p.people ensures Address(q.wallet) in Full(p, Items(p), ch, now).identities {
      ItemDone(p, ch, now, Register(q));
    }
    var ch' := Full(p, Items(p), ch, now);
    OnlyAdds(p, Items(p), ch, now, |Items(p)|);
    forall m | m in p.memberships && Address(m.wallet) != Address(p.creator)
      ensures Kept(p, ch, ch', now, (FindOrg(p, ch').value, Address(m.wallet)))
    {
      ItemDone(p, ch, now, AddMember(m));
      var key := (FindOrg(p, ch').value, Address(m.wallet));
      if key !in ch.members { NewMembersAsPlanned(p, ch, now, |Items(p)|, key); }
    }
  }

  lemma EveryRole(r: Role)
    ensures r in ROLES
  {
    match r
    case Admin => assert ROLES[0] == r;
    case Manager => assert ROLES[1] == r;
    case Auditor => assert ROLES[2] == r;
    case User => assert ROLES[3] == r;
  }

  /** The application is registered and granted to all four roles. */
  lemma GrantsReached(p: Plan, ch: Chain, now: int)
    ensures var ch' := Full(p, Items(p), ch, now);
      && FindOrg(p, ch').Some? && (FindOrg(p, ch').value, p.appId) in ch'.apps
      && forall r: Role :: (FindOrg(p, ch').value, p.appId, r) in ch'.access
  {
    hide Items, Full, FindOrg;
    PlanItems(p);
    ItemDone(p, ch, now, RegisterApp);
    var ch' := Full(p, Items(p), ch, now);
    forall r: Role ensures (FindOrg(p, ch').value, p.appId, r) in ch'.access {
      EveryRole(r);
      ItemDone(p, ch, now, Grant(r));
    }
  }

  /** For each distinct asset hash there is one token, unless there were more to begin with. */
  lemma TokensReached(p: Plan, ch: Chain, now: int, a: AssetSeed)
    requires a in p.assets
    ensures var ch' := Full(p, Items(p), ch, now);
      && FindOrg(p, ch').Some?
      && var orgId := FindOrg(p, ch').value;
      && Count(ch'.tokens, orgId, a.hash(orgId)) == Max(1, Count(ch.tokens, orgId, a.hash(orgId)))
  {
    hide Items, FindOrg, Count;
    PlanItems(p);
    ItemDone(p, ch, now, Mint(a));
    var ch' := Full(p, Items(p), ch, now);
    var orgId := FindOrg(p, ch').value;
    CountMinted(ch'.tokens, orgId, a.hash(orgId));
    NeverMintedTwice(p, Items(p), ch, now, |Items(p)|, orgId, a.hash(orgId));
  }
}
