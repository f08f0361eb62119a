/**
 Seeding the demo: a script that looks before each transaction whether it is still needed, so
 that it can be stopped after any of them and run again.
 */
module Seed {
  import opened Texts

  // ---- the contracts, as far as the script uses them ----

  datatype Role = Admin | Manager | Auditor | User

  const ROLES := [Admin, Manager, Auditor, User]

  datatype Org = Org(rootAdmin: Text, hash: Text)

  datatype Member = Member(role: Role, expiresAt: int)

  datatype Token = Token(orgId: nat, holder: Text, hash: Text, uri: Text)

  /** Organizations and tokens are numbered from 1; addresses are kept in lowercase. */
  datatype Chain = Chain(identities: map<Text, Text>, orgs: seq<Org>, members: map<(nat, Text), Member>,
                         apps: map<(nat, Text), Text>, access: set<(nat, Text, Role)>, tokens: seq<Token>)

  datatype Person = Person(wallet: Text, hash: Text)

  /** `-1n` in the source stands for thirty days from now. */
  datatype Term = Unlimited | ThirtyDays

  datatype Membership = Membership(wallet: Text, role: Role, term: Term)

  /** The hash of an asset covers the organization it is minted for. */
  datatype AssetSeed = AssetSeed(hash: nat -> Text, holder: Text)

  datatype Plan = Plan(people: seq<Person>, creator: Text, orgHash: Text, memberships: seq<Membership>,
                       appId: Text, appHash: Text, assets: seq<AssetSeed>, origin: Text)

  function Address(wallet: Text): Text { LowerAscii(wallet) }

  // ---- what the script looks for ----

  predicate IsOurs(p: Plan, o: Org) { Address(o.rootAdmin) == Address(p.creator) && o.hash == p.orgHash }

  /** The number of the first organization with our root admin and metadata. */
  function FindOrgFrom(p: Plan, orgs: seq<Org>, i: nat): Option<nat>
    requires i <= |orgs|
    decreases |orgs| - i
  {
    if i == |orgs| then None else if IsOurs(p, orgs[i]) then Some(i + 1) else FindOrgFrom(p, orgs, i + 1)
  }

  function FindOrg(p: Plan, ch: Chain): Option<nat> { FindOrgFrom(p, ch.orgs, 0) }

  predicate TokenFor(t: Token, orgId: nat, hash: Text) { t.orgId == orgId && t.hash == hash }

  predicate Minted(ch: Chain, orgId: nat, hash: Text) {
    exists i :: 0 <= i < |ch.tokens| && TokenFor(ch.tokens[i], orgId, hash)
  }

  // ---- the script, item by item ----

  datatype Item =
    | Register(person: Person)
    | CreateOrg
    | AddMember(membership: Membership)
    | RegisterApp
    | Grant(role: Role)
    | Mint(asset: AssetSeed)

  /** The check before the transaction. */
  predicate Done(p: Plan, ch: Chain, item: Item) {
    match item
    case Register(person) => Address(person.wallet) in ch.identities
    case CreateOrg => FindOrg(p, ch).Some?
    case AddMember(m) =>
      FindOrg(p, ch).Some?
      && (Address(m.wallet) == Address(p.creator) || (FindOrg(p, ch).value, Address(m.wallet)) in ch.members)
    case RegisterApp => FindOrg(p, ch).Some? && (FindOrg(p, ch).value, p.appId) in ch.apps
    case Grant(role) => FindOrg(p, ch).Some? && (FindOrg(p, ch).value, p.appId, role) in ch.access
    case Mint(asset) => FindOrg(p, ch).Some? && Minted(ch, FindOrg(p, ch).value, asset.hash(FindOrg(p, ch).value))
  }

  function Expiry(term: Term, now: int): int { if term == ThirtyDays then now + 30 * 86400 else 0 }

  function MetadataUri(p: Plan, tokenId: nat): Text { p.origin + Units("/api/metadata/") + Decimal(tokenId) }

  /** The transaction. All but the first two need the organization's number. */
  function Perform(p: Plan, ch: Chain, now: int, item: Item): Chain {
    match item
    case Register(person) => ch.(identities := ch.identities[Address(person.wallet) := person.hash])
    case CreateOrg => ch.(orgs := ch.orgs + [Org(p.creator, p.orgHash)])
    case _ =>
      match FindOrg(p, ch)
      case None => ch
      case Some(orgId) => PerformFor(p, ch, now, orgId, item)
  }

  function PerformFor(p: Plan, ch: Chain, now: int, orgId: nat, item: Item): Chain {
    match item
    case AddMember(m) => ch.(members := ch.members[(orgId, Address(m.wallet)) := Member(m.role, Expiry(m.term, now))])
    case RegisterApp => ch.(apps := ch.apps[(orgId, p.appId) := p.appHash])
    case Grant(role) => ch.(access := ch.access + {(orgId, p.appId, role)})
    case Mint(asset) =>
      var token := Token(orgId, Address(asset.holder), asset.hash(orgId), MetadataUri(p, |ch.tokens| + 1));
      ch.(tokens := ch.tokens + [token])
    case _ => ch
  }

  /** The script over some items, stopped when it would send more than n transactions. */
  function Exec(p: Plan, items: seq<Item>, ch: Chain, now: int, n: nat): Chain
    decreases |items|
  {
    if items == [] then ch
    else if Done(p, ch, items[0]) then Exec(p, items[1..], ch, now, n)
    else if n == 0 then ch
    else Exec(p, items[1..], Perform(p, ch, now, items[0]), now, n - 1)
  }

  /** How many of n transactions the script leaves unsent. */
  function Left(p: Plan, items: seq<Item>, ch: Chain, now: int, n: nat): (left: nat)
    ensures left <= n
    decreases |items|
  {
    if items == [] then n
    else if Done(p, ch, items[0]) then Left(p, items[1..], ch, now, n)
    else if n == 0 then n
    else Left(p, items[1..], Perform(p, ch, now, items[0]), now, n - 1)
  }

  /** The script run to its end: it sends one transaction per item at most. */
  function Full(p: Plan, items: seq<Item>, ch: Chain, now: int): Chain { Exec(p, items, ch, now, |items|) }

  function Items(p: Plan): seq<Item> { RegisterItems(p.people) + AfterPeople(p) }

  function AfterPeople(p: Plan): seq<Item> { [CreateOrg] + AfterOrg(p) }

  function AfterOrg(p: Plan): seq<Item> { AddItems(p.memberships) + AfterMembers(p) }

  function AfterMembers(p: Plan): seq<Item> { [RegisterApp] + AfterApp(p) }

  function AfterApp(p: Plan): seq<Item> { GrantItems(ROLES) + MintItems(p.assets) }

  function RegisterItems(people: seq<Person>): seq<Item> {
    seq(|people|, i requires 0 <= i < |people| => Register(people[i]))
  }

  function AddItems(memberships: seq<Membership>): seq<Item> {
    seq(|memberships|, i requires 0 <= i < |memberships| => AddMember(memberships[i]))
  }

  function GrantItems(roles: seq<Role>): seq<Item> {
    seq(|roles|, i requires 0 <= i < |roles| => Grant(roles[i]))
  }

  function MintItems(assets: seq<AssetSeed>): seq<Item> {
    seq(|assets|, i requires 0 <= i < |assets| => Mint(assets[i]))
  }

  // ---- the people of the plan ----

  /** Later people with a wallet already seen are dropped. */
  function Unique(people: seq<Person>, seen: set<Text>): seq<Person> {
    if people == [] then []
    else if Address(people[0].wallet) in seen then Unique(people[1..], seen)
    else [people[0]] + Unique(people[1..], seen + {Address(people[0].wallet)})
  }

  lemma {:induction false} UniqueNext(people: seq<Person>, i: nat, kept: seq<Person>, seen: set<Text>)
    requires i < |people|
    ensures var q := people[i];
      kept + Unique(people[i..], seen) ==
      if Address(q.wallet) in seen then kept + Unique(people[i + 1..], seen)
      else kept + [q] + Unique(people[i + 1..], seen + {Address(q.wallet)})
  {
    hide Address;
    assert people[i..][0] == people[i] && people[i..][1..] == people[i + 1..];
  }

  method UniquePeople(people: seq<Person>) returns (kept: seq<Person>)
    ensures kept == Unique(people, {})
  {
    hide Address;
    kept := [];
    var seen: set<Text> := {};
    for i := 0 to |people|
      invariant kept + Unique(people[i..], seen) == Unique(people, {})
    {
      hide Unique;
      UniqueNext(people, i, kept, seen);
      var key := Address(people[i].wallet);
      if key !in seen {
        seen := seen + {key};
        kept := kept + [people[i]];
      }
    }
  }

  predicate HasWallet(people: seq<Person>, key: Text) {
    exists i :: 0 <= i < |people| && Address(people[i].wallet) == key
  }

  lemma HasWalletCons(q: Person, people: seq<Person>, key: Text)
    ensures HasWallet([q] + people, key) <==> Address(q.wallet) == key || HasWallet(people, key)
  {
    hide Address;
    var all := [q] + people;
    if HasWallet(people, key) {
      var i :| 0 <= i < |people| && Address(people[i].wallet) == key;
      assert all[i + 1] == people[i];
    }
    if Address(q.wallet) == key { assert all[0] == q; }
  }

  /** Exactly the wallets not seen before are kept. */
  lemma {:induction false} UniqueCovers(people: seq<Person>, seen: set<Text>, key: Text)
    ensures HasWallet(Unique(people, seen), key) <==> key !in seen && HasWallet(people, key)
  {
    if people == [] {
    } else {
      hide Address, HasWallet;
      var first := Address(people[0].wallet);
      assert people == [people[0]] + people[1..];
      HasWalletCons(people[0], people[1..], key);
      if first in seen {
        UniqueCovers(people[1..], seen, key);
      } else {
        UniqueCovers(people[1..], seen + {first}, key);
        HasWalletCons(people[0], Unique(people[1..], seen + {first}), key);
      }
    }
  }

  /** No wallet is kept twice. */
  lemma {:induction false} UniqueDistinct(people: seq<Person>, seen: set<Text>)
    ensures forall i, j | 0 <= i < j < |Unique(people, seen)| ::
      Address(Unique(people, seen)[i].wallet) != Address(Unique(people, seen)[j].wallet)
  {
    if people == [] {
    } else {
      hide Address;
      var first := Address(people[0].wallet);
      if first in seen {
        UniqueDistinct(people[1..], seen);
      } else {
        var rest := Unique(people[1..], seen + {first});
        UniqueDistinct(people[1..], seen + {first});
        UniqueCovers(people[1..], seen + {first}, first);
      }
    }
  }

  // ---- the script itself ----

  /** The numbers of an organization's tokens, oldest first. */
  function TokenIds(tokens: seq<Token>, orgId: nat): (ids: seq<nat>)
    ensures forall j | 0 <= j < |ids| :: 1 <= ids[j] <= |tokens| && tokens[ids[j] - 1].orgId == orgId
    ensures forall i | 0 <= i < |tokens| && tokens[i].orgId == orgId :: i + 1 in ids
  {
    if tokens == [] then []
    else
      var last := |tokens| - 1;
      TokenIds(tokens[..last], orgId) + (if tokens[last].orgId == orgId then [last + 1] else [])
  }

  /** What a run leaves: the chain, and what is left of its transactions. */
  datatype Outcome = Outcome(chain: Chain, left: nat)

  /** The run that is under way still has these items to do. */
  ghost predicate Remains(p: Plan, job: Outcome, items: seq<Item>, ch: Chain, now: int, n: nat) {
    job == Outcome(Exec(p, items, ch, now, n), Left(p, items, ch, now, n))
  }

  lemma RemainsStep(p: Plan, job: Outcome, item: Item, rest: seq<Item>, ch: Chain, now: int, n: nat)
    requires Remains(p, job, [item] + rest, ch, now, n)
    ensures Done(p, ch, item) ==> Remains(p, job, rest, ch, now, n)
    ensures !Done(p, ch, item) && n > 0 ==> Remains(p, job, rest, Perform(p, ch, now, item), now, n - 1)
    ensures !Done(p, ch, item) && n == 0 ==> job == Outcome(ch, n)
  {
    hide Done, Perform;
    assert ([item] + rest)[1..] == rest;
  }

  lemma RemainsNothing(p: Plan, job: Outcome, ch: Chain, now: int, n: nat)
    requires Remains(p, job, [], ch, now, n)
    ensures job == Outcome(ch, n)
  {
  }

  class SeedScript {
    var chain: Chain
    /** How many transactions are sent before the script is stopped. */
    var left: nat

    constructor (onChain: Chain, transactions: nat)
      ensures chain == onChain && left == transactions
    {
      chain, left := onChain, transactions;
    }

    method RegisterPeople(p: Plan, now: int, ghost job: Outcome) returns (alive: bool)
      requires Remains(p, job, Items(p), chain, now, left)
      modifies this
      ensures if alive then Remains(p, job, AfterPeople(p), chain, now, left) else Outcome(chain, left) == job
    {
      hide Exec, Left, Remains, Address;
      for i := 0 to |p.people|
        invariant Remains(p, job, RegisterItems(p.people[i..]) + AfterPeople(p), chain, now, left)
      {
        var person := p.people[i];
        ghost var rest := RegisterItems(p.people[i + 1..]) + AfterPeople(p);
        assert RegisterItems(p.people[i..]) + AfterPeople(p) == [Register(person)] + rest;
        RemainsStep(p, job, Register(person), rest, chain, now, left);
        if Address(person.wallet) in chain.identities { continue; }
        if left == 0 { return false; }
        left := left - 1;
        chain := chain.(identities := chain.identities[Address(person.wallet) := person.hash]);
      }
      assert RegisterItems(p.people[|p.people|..]) + AfterPeople(p) == AfterPeople(p);
      return true;
    }

    /** The number of our organization; 0 when there is none yet. */
    method LookForOrg(p: Plan) returns (orgId: nat)
      ensures orgId == if FindOrg(p, chain).Some? then FindOrg(p, chain).value else 0
      ensures FindOrg(p, chain).Some? ==> orgId > 0
    {
      hide IsOurs;
      for i := 0 to |chain.orgs|
        invariant FindOrg(p, chain) == FindOrgFrom(p, chain.orgs, i)
      {
        if IsOurs(p, chain.orgs[i]) { return i + 1; }
      }
      return 0;
    }

    method EnsureOrg(p: Plan, now: int, ghost job: Outcome) returns (alive: bool, orgId: nat)
      requires Remains(p, job, AfterPeople(p), chain, now, left)
      modifies this
      ensures if alive then Remains(p, job, AfterOrg(p), chain, now, left) && FindOrg(p, chain) == Some(orgId)
        else Outcome(chain, left) == job
    {
      hide Exec, Left, Remains, AfterOrg;
      RemainsStep(p, job, CreateOrg, AfterOrg(p), chain, now, left);
      orgId := LookForOrg(p);
      if orgId == 0 {
        if left == 0 { return false, 0; }
        NewOrg(p, chain.orgs, 0);
        left := left - 1;
        chain := chain.(orgs := chain.orgs + [Org(p.creator, p.orgHash)]);
        orgId := |chain.orgs|;
      }
      return true, orgId;
    }

    method AddMembers(p: Plan, now: int, orgId: nat, ghost job: Outcome) returns (alive: bool)
      requires Remains(p, job, AfterOrg(p), chain, now, left) && FindOrg(p, chain) == Some(orgId)
      modifies this
      ensures if alive then Remains(p, job, AfterMembers(p), chain, now, left) && FindOrg(p, chain) == Some(orgId)
        else Outcome(chain, left) == job
    {
      hide Exec, Left, Remains, Address, AfterMembers, FindOrgFrom;
      for i := 0 to |p.memberships|
        invariant Remains(p, job, AddItems(p.memberships[i..]) + AfterMembers(p), chain, now, left)
        invariant FindOrg(p, chain) == Some(orgId)
      {
        var m := p.memberships[i];
        ghost var rest := AddItems(p.memberships[i + 1..]) + AfterMembers(p);
        assert AddItems(p.memberships[i..]) + AfterMembers(p) == [AddMember(m)] + rest;
        RemainsStep(p, job, AddMember(m), rest, chain, now, left);
        if Address(m.wallet) == Address(p.creator) { continue; }
        if (orgId, Address(m.wallet)) in chain.members { continue; }
        if left == 0 { return false; }
        left := left - 1;
        chain := chain.(members := chain.members[(orgId, Address(m.wallet)) := Member(m.role, Expiry(m.term, now))]);
      }
      assert AddItems(p.memberships[|p.memberships|..]) + AfterMembers(p) == AfterMembers(p);
      return true;
    }

    method SetUpApplication(p: Plan, now: int, orgId: nat, ghost job: Outcome) returns (alive: bool)
      requires Remains(p, job, AfterMembers(p), chain, now, left) && FindOrg(p, chain) == Some(orgId)
      modifies this
      ensures if alive then Remains(p, job, MintItems(p.assets), chain, now, left) && FindOrg(p, chain) == Some(orgId)
        else Outcome(chain, left) == job
    {
      hide Exec, Left, Remains, MintItems, FindOrgFrom;
      RemainsStep(p, job, RegisterApp, AfterApp(p), chain, now, left);
      if (orgId, p.appId) !in chain.apps {
        if left == 0 { return false; }
        left := left - 1;
        chain := chain.(apps := chain.apps[(orgId, p.appId) := p.appHash]);
      }
      for i := 0 to |ROLES|
        invariant Remains(p, job, GrantItems(ROLES[i..]) + MintItems(p.assets), chain, now, left)
        invariant FindOrg(p, chain) == Some(orgId)
      {
        var role := ROLES[i];
        ghost var rest := GrantItems(ROLES[i + 1..]) + MintItems(p.assets);
        assert GrantItems(ROLES[i..]) + MintItems(p.assets) == [Grant(role)] + rest;
        RemainsStep(p, job, Grant(role), rest, chain, now, left);
        if (orgId, p.appId, role) in chain.access { continue; }
        if left == 0 { return false; }
        left := left - 1;
        chain := chain.(access := chain.access + {(orgId, p.appId, role)});
      }
      assert GrantItems(ROLES[|ROLES|..]) + MintItems(p.assets) == MintItems(p.assets);
      return true;
    }

    /** A token of ours with the hash, or 0. */
    method LookForToken(orgId: nat, ids: seq<nat>, hash: Text) returns (tokenId: nat)
      requires ids == TokenIds(chain.tokens, orgId)
      ensures tokenId == 0 <==> !Minted(chain, orgId, hash)
    {
      hide TokenIds;
      for i := 0 to |ids|
        invariant forall j | 0 <= j < i :: chain.tokens[ids[j] - 1].hash != hash
      {
        if chain.tokens[ids[i] - 1].hash == hash {
          assert TokenFor(chain.tokens[ids[i] - 1], orgId, hash);
          return ids[i];
        }
      }
      forall k | 0 <= k < |chain.tokens| ensures !TokenFor(chain.tokens[k], orgId, hash) {
        if chain.tokens[k].orgId == orgId {
          var j :| 0 <= j < |ids| && ids[j] == k + 1;
        }
      }
      return 0;
    }

    method MintAssets(p: Plan, now: int, orgId: nat, ghost job: Outcome)
      requires Remains(p, job, MintItems(p.assets), chain, now, left) && FindOrg(p, chain) == Some(orgId)
      modifies this
      ensures Outcome(chain, left) == job
    {
      hide Exec, Left, Remains, Address, FindOrgFrom, Minted, MetadataUri;
      var existing := TokenIds(chain.tokens, orgId);
      for i := 0 to |p.assets|
        invariant Remains(p, job, MintItems(p.assets[i..]), chain, now, left)
        invariant FindOrg(p, chain) == Some(orgId) && existing == TokenIds(chain.tokens, orgId)
      {
        var item := p.assets[i];
        ghost var rest := MintItems(p.assets[i + 1..]);
        assert MintItems(p.assets[i..]) == [Mint(item)] + rest;
        RemainsStep(p, job, Mint(item), rest, chain, now, left);
        var found := LookForToken(orgId, existing, item.hash(orgId));
        if found != 0 { continue; }
        if left == 0 { return; }
        left := left - 1;
        var tokenId := |chain.tokens| + 1;
        var token := Token(orgId, Address(item.holder), item.hash(orgId), MetadataUri(p, tokenId));
        assert (chain.tokens + [token])[..|chain.tokens|] == chain.tokens;
        chain := chain.(tokens := chain.tokens + [token]);
        existing := existing + [tokenId];
      }
      assert MintItems(p.assets[|p.assets|..]) == [];
      RemainsNothing(p, job, chain, now, left);
    }

    /** The whole script; `now` is the time of the latest block. */
    method Run(p: Plan, now: int)
      modifies this
      ensures chain == Exec(p, Items(p), old(chain), now, old(left))
      ensures left == Left(p, Items(p), old(chain), now, old(left))
    {
      hide Exec, Left;
      ghost var job := Outcome(Exec(p, Items(p), chain, now, left), Left(p, Items(p), chain, now, left));
      var alive := RegisterPeople(p, now, job);
      if !alive { return; }
      var orgId: nat;
      alive, orgId := EnsureOrg(p, now, job);
      if !alive { return; }
      alive := AddMembers(p, now, orgId, job);
      if !alive { return; }
      alive := SetUpApplication(p, now, orgId, job);
      if !alive { return; }
      MintAssets(p, now, orgId, job);
    }
  }

  /** The organization just created is the last, and the first of ours. */
  lemma {:induction false} NewOrg(p: Plan, orgs: seq<Org>, i: nat)
    requires i <= |orgs| && FindOrgFrom(p, orgs, i).None?
    ensures FindOrgFrom(p, orgs + [Org(p.creator, p.orgHash)], i) == Some(|orgs| + 1)
    decreases |orgs| - i
  {
    hide Address;
    if i == |orgs| {
    } else {
      NewOrg(p, orgs, i + 1);
    }
  }
}
