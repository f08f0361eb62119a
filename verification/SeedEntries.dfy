/** What each new entry on the chain says, at whatever transaction the seeding is stopped. */
module SeedEntries {
  import opened Texts
  import opened Seed
  import opened SeedFacts

  // ---- the organization ----

  predicate Ours(p: Plan, o: Org) { LowerAscii(o.rootAdmin) == LowerAscii(p.creator) && o.hash == p.orgHash }

  /** Our organization is the first with our root admin, in any letter case, and our metadata; numbers start at 1. */
  lemma OrgFound(p: Plan, ch: Chain, k: nat)
    ensures FindOrg(p, ch) == Some(k) <==>
      1 <= k <= |ch.orgs| && Ours(p, ch.orgs[k - 1]) && forall j | 0 <= j < k - 1 :: !Ours(p, ch.orgs[j])
  {
    OrgFoundFrom(p, ch.orgs, 0, k);
  }

  lemma {:induction false} OrgFoundFrom(p: Plan, orgs: seq<Org>, i: nat, k: nat)
    requires i <= |orgs|
    ensures FindOrgFrom(p, orgs, i) == Some(k) <==>
      i + 1 <= k <= |orgs| && Ours(p, orgs[k - 1]) && forall j | i <= j < k - 1 :: !Ours(p, orgs[j])
    decreases |orgs| - i
  {
    if i == |orgs| {
    } else {
      OursExactly(p, orgs[i]);
      hide Ours, IsOurs;
      OrgFoundFrom(p, orgs, i + 1, k);
    }
  }

  lemma OursExactly(p: Plan, o: Org)
    ensures IsOurs(p, o) <==> Ours(p, o)
  {
  }

  // ---- identities ----

  /** The people some items register. */
  function Registered(items: seq<Item>): seq<Person> {
    if items == [] then []
    else (if items[0].Register? then [items[0].person] else []) + Registered(items[1..])
  }

  /** The first of the people with the address. */
  function FirstPerson(people: seq<Person>, address: Text): Option<Person> {
    if people == [] then None
    else if LowerAscii(people[0].wallet) == address then Some(people[0])
    else FirstPerson(people[1..], address)
  }

  lemma {:induction false} FirstRegistered(items: seq<Item>, address: Text)
    requires items != []
    ensures FirstPerson(Registered(items), address) ==
      if items[0].Register? && LowerAscii(items[0].person.wallet) == address then Some(items[0].person)
      else FirstPerson(Registered(items[1..]), address)
  {
    hide LowerAscii;
    if items[0].Register? {
      assert Registered(items)[1..] == Registered(items[1..]);
    } else {
      assert Registered(items) == Registered(items[1..]);
    }
  }

  lemma {:induction false} RegisteredNone(items: seq<Item>)
    requires forall i | 0 <= i < |items| :: !items[i].Register?
    ensures Registered(items) == []
  {
    if items == [] {
    } else {
      RegisteredNone(items[1..]);
    }
  }

  lemma {:induction false} RegisteredAll(people: seq<Person>, rest: seq<Item>)
    requires forall i | 0 <= i < |rest| :: !rest[i].Register?
    ensures Registered(RegisterItems(people) + rest) == people
  {
    var items := RegisterItems(people) + rest;
    if people == [] {
      assert items == rest;
      RegisteredNone(rest);
    } else {
      assert items[1..] == RegisterItems(people[1..]) + rest;
      RegisteredAll(people[1..], rest);
    }
  }

  /** A registration stores the person's hash under the wallet in lower case, and nothing else does. */
  lemma PerformRegisters(p: Plan, ch: Chain, now: int, item: Item, w: Text)
    requires !Done(p, ch, item) && w !in ch.identities
    ensures w in Perform(p, ch, now, item).identities <==> item.Register? && LowerAscii(item.person.wallet) == w
    ensures w in Perform(p, ch, now, item).identities ==> Perform(p, ch, now, item).identities[w] == item.person.hash
  {
    hide FindOrg, LowerAscii, MetadataUri, Minted;
  }

  lemma {:induction false} NewIdentity(p: Plan, items: seq<Item>, ch: Chain, now: int, n: nat, w: Text)
    requires w !in ch.identities && w in Exec(p, items, ch, now, n).identities
    ensures FirstPerson(Registered(items), w).Some?
    ensures Exec(p, items, ch, now, n).identities[w] == FirstPerson(Registered(items), w).value.hash
    decreases |items|
  {
    if items == [] {
    } else {
      var item, tail := items[0], items[1..];
      FirstRegistered(items, w);
      assert item.Register? && Done(p, ch, item) ==> LowerAscii(item.person.wallet) in ch.identities;
      hide Perform, Done, LowerAscii, Registered;
      if Done(p, ch, item) {
        NewIdentity(p, tail, ch, now, n, w);
      } else if n > 0 {
        PerformRegisters(p, ch, now, item, w);
        var ch' := Perform(p, ch, now, item);
        if w in ch'.identities {
          OnlyAdds(p, tail, ch', now, n - 1);
        } else {
          NewIdentity(p, tail, ch', now, n - 1, w);
        }
      }
    }
  }

  /** A newly registered wallet has the hash of the first person of the plan with that wallet. */
  lemma {:induction false} NewIdentitiesAsPlanned(p: Plan, ch: Chain, now: int, n: nat, w: Text)
    requires w !in ch.identities && w in Exec(p, Items(p), ch, now, n).identities
    ensures FirstPerson(p.people, w).Some?
    ensures Exec(p, Items(p), ch, now, n).identities[w] == FirstPerson(p.people, w).value.hash
  {
    NewIdentity(p, Items(p), ch, now, n, w);
    RegisteredAll(p.people, AfterPeople(p));
  }

  // ---- organization, application and grants ----

  /** What a run may add beside identities, members and tokens. */
  ghost predicate SetUpFrom(p: Plan, a: Chain, b: Chain) {
    && (b.orgs == a.orgs || (FindOrg(p, a).None? && b.orgs == a.orgs + [Org(p.creator, p.orgHash)]))
    && (forall key | key in b.apps && key !in a.apps ::
          FindOrg(p, b) == Some(key.0) && key.1 == p.appId && b.apps[key] == p.appHash)
    && (forall key | key in b.access && key !in a.access :: FindOrg(p, b) == Some(key.0) && key.1 == p.appId)
  }

  lemma PerformSetsUp(p: Plan, ch: Chain, now: int, item: Item)
    requires !Done(p, ch, item)
    ensures SetUpFrom(p, ch, Perform(p, ch, now, item))
    ensures Perform(p, ch, now, item).orgs != ch.orgs ==> FindOrg(p, Perform(p, ch, now, item)).Some?
  {
    PerformOrg(p, ch, now, item);
    hide FindOrg, Address, MetadataUri, Minted;
  }

  lemma SetUpTwice(p: Plan, a: Chain, b: Chain, c: Chain)
    requires SetUpFrom(p, a, b) && SetUpFrom(p, b, c)
    requires FindOrg(p, b).Some? ==> FindOrg(p, c) == FindOrg(p, b)
    requires b.orgs != a.orgs ==> FindOrg(p, b).Some?
    requires forall key | key in b.apps :: key in c.apps && c.apps[key] == b.apps[key]
    ensures SetUpFrom(p, a, c)
  {
    hide FindOrg;
    if b.orgs == a.orgs { SameOrgs(p, a, b); }
  }

  lemma SameOrgs(p: Plan, a: Chain, b: Chain)
    requires a.orgs == b.orgs
    ensures FindOrg(p, a) == FindOrg(p, b)
  {
  }

  /**
   However the script is stopped, it creates at most our own organization, with the planned
   root admin and metadata and only if there was none; registers only the planned application
   for it, under the planned hash; and grants only that application.
   */
  lemma {:induction false} SetsUpAsPlanned(p: Plan, items: seq<Item>, ch: Chain, now: int, n: nat)
    ensures SetUpFrom(p, ch, Exec(p, items, ch, now, n))
    decreases |items|
  {
    if items == [] {
    } else {
      hide Perform, Done, SetUpFrom, FindOrg;
      if Done(p, ch, items[0]) {
        SetsUpAsPlanned(p, items[1..], ch, now, n);
      } else if n == 0 {
        NothingSetUp(p, ch);
      } else {
        var ch' := Perform(p, ch, now, items[0]);
        var end := Exec(p, items[1..], ch', now, n - 1);
        PerformSetsUp(p, ch, now, items[0]);
        SetsUpAsPlanned(p, items[1..], ch', now, n - 1);
        OnlyAdds(p, items[1..], ch', now, n - 1);
        if FindOrg(p, ch').Some? { OrgStays(p, items[1..], ch', now, n - 1); }
        SetUpTwice(p, ch, ch', end);
      }
    }
  }

  lemma NothingSetUp(p: Plan, ch: Chain)
    ensures SetUpFrom(p, ch, ch)
  {
  }

  // ---- tokens ----

  /** Token number i + 1 is the planned asset's, for our organization, with the metadata address of that number. */
  ghost predicate TokenAsPlanned(p: Plan, ch: Chain, i: nat, a: AssetSeed) {
    && FindOrg(p, ch).Some? && i < |ch.tokens|
    && var orgId := FindOrg(p, ch).value;
      ch.tokens[i] ==
        Token(orgId, LowerAscii(a.holder), a.hash(orgId), p.origin + Units("/api/metadata/") + Decimal(i + 1))
  }

  lemma PerformMints(p: Plan, ch: Chain, now: int, item: Item)
    requires !Done(p, ch, item)
    ensures var ch' := Perform(p, ch, now, item);
      ch'.tokens != ch.tokens ==>
        item.Mint? && |ch'.tokens| == |ch.tokens| + 1 && TokenAsPlanned(p, ch', |ch.tokens|, item.asset)
  {
    PerformOrg(p, ch, now, item);
    hide FindOrg, LowerAscii, Minted;
  }

  lemma {:induction false} NewToken(p: Plan, items: seq<Item>, ch: Chain, now: int, n: nat,
                                    i: nat) returns (a: AssetSeed)
    requires |ch.tokens| <= i < |Exec(p, items, ch, now, n).tokens|
    ensures Mint(a) in items && TokenAsPlanned(p, Exec(p, items, ch, now, n), i, a)
    decreases |items|
  {
    if items == [] {
      a := AssetSeed(_ => [], []);
    } else {
      hide Perform, Done, TokenAsPlanned, FindOrg;
      var tail := items[1..];
      if Done(p, ch, items[0]) {
        a := NewToken(p, tail, ch, now, n, i);
      } else if n > 0 {
        var ch' := Perform(p, ch, now, items[0]);
        PerformMints(p, ch, now, items[0]);
        if i < |ch'.tokens| {
          a := items[0].asset;
          OnlyAdds(p, tail, ch', now, n - 1);
          TokenStays(p, tail, ch', now, n - 1, i, a);
        } else {
          a := NewToken(p, tail, ch', now, n - 1, i);
        }
      }
    }
  }

  lemma {:induction false} TokenStays(p: Plan, items: seq<Item>, ch: Chain, now: int, n: nat, i: nat, a: AssetSeed)
    requires TokenAsPlanned(p, ch, i, a) && Extends(ch, Exec(p, items, ch, now, n))
    ensures TokenAsPlanned(p, Exec(p, items, ch, now, n), i, a)
  {
    OrgStays(p, items, ch, now, n);
    hide FindOrg, Exec, LowerAscii;
  }

  /** A new token is that of a planned asset: its holder in lower case, its hash, and its metadata address. */
  lemma NewTokensAsPlanned(p: Plan, ch: Chain, now: int, n: nat, i: nat) returns (a: AssetSeed)
    requires |ch.tokens| <= i < |Exec(p, Items(p), ch, now, n).tokens|
    ensures a in p.assets && TokenAsPlanned(p, Exec(p, Items(p), ch, now, n), i, a)
  {
    hide Exec, TokenAsPlanned;
    a := NewToken(p, Items(p), ch, now, n, i);
    var k :| 0 <= k < |Items(p)| && Items(p)[k] == Mint(a);
  }
}
