/** Every converted unit is backed: what each conversion and each log of the
    hook does to the backing of all pairs. */
module Erc20Solvency {
  import opened Common
  import opened MapSums
  import opened Erc20Assets
  import opened Erc20Registry
  import opened Erc20Conversion

  // ---------------------------------------------------------------- the invariant

  /** The supplies of the module's own tokens for one denomination. Several
      pairs may share it. */
  ghost function Liabilities(s: Chain, d: Denom): map<PairId, int> {
    map id | id in s.registry.pairs && IssuesAgainst(s, s.registry.pairs[id], d) :: s.tokens[s.registry.pairs[id].erc20].supply
  }

  predicate IssuesAgainst(s: Chain, p: TokenPair, d: Denom) {
    p.owner == OwnerModule && p.denom == d && p.erc20 in s.tokens
  }

  ghost function Issued(s: Chain, d: Denom): int { SumBy(Liabilities(s, d), Itself) }

  /** Tokens sent to the module according to the logs of one contract. */
  function Credit(logs: seq<Log>, c: Contract): nat {
    if logs == [] then 0
    else
      var last := |logs| - 1;
      var log := logs[last];
      Credit(logs[..last], c)
      + (if log.Transfer? && log.contract == c && log.to == MODULE then log.amount else 0)
  }

  /** Escrowed coins cover all tokens issued against their denomination. */
  ghost predicate TokensBacked(s: Chain) {
    forall d :: Issued(s, d) <= s.Coin(d).Of(MODULE)
  }

  /** Tokens held cover the coins of every external pair, with room for the
      conversions that `pending` logs call for. */
  predicate CoinsBacked(s: Chain, pending: seq<Log>) {
    forall id :: id in s.registry.pairs && s.registry.pairs[id].owner == OwnerExternal && s.registry.pairs[id].erc20 in s.tokens ==>
      var p := s.registry.pairs[id];
      s.Coin(p.denom).supply + Credit(pending, p.erc20) <= s.tokens[p.erc20].Of(MODULE)
  }

  /** The books of the bank and of the module's own contracts add up. */
  ghost predicate BooksConsistent(s: Chain) {
    && (forall d :: d in s.coins ==> s.coins[d].Consistent())
    && (forall c :: c in s.tokens && c in s.deployed ==> s.tokens[c].Consistent() && s.tokens[c].supply <= MAX_UINT256)
  }

  /** Coins named after a contract were only ever issued under its metadata. */
  ghost predicate IssuedUnderMetadata(s: Chain) {
    forall c :: s.Coin(CreateDenom(c)).supply > 0 ==> CreateDenom(c) in s.metadata
  }

  /** An external pair is found by its denomination, which names its contract
      and is the name in its own metadata. */
  predicate FoundByDenom(s: Chain, p: TokenPair) {
    && p.denom == CreateDenom(p.erc20)
    && p.denom in s.metadata && s.metadata[p.denom].name == p.denom
    && p.denom in s.registry.byDenom && s.registry.byDenom[p.denom] == p.Id()
  }

  predicate ExternalsFound(s: Chain) {
    forall id :: id in s.registry.pairs && s.registry.pairs[id].owner == OwnerExternal ==> FoundByDenom(s, s.registry.pairs[id])
  }

  /** Every pair has an owner; the module's own contracts exist and are registered. */
  predicate OwnersKnown(s: Chain) {
    && (forall id :: id in s.registry.pairs ==>
         match s.registry.pairs[id].owner
         case OwnerModule => s.registry.pairs[id].erc20 in s.deployed
         case OwnerExternal => s.registry.pairs[id].erc20 !in s.deployed
         case OwnerUnspecified => false)
    && (forall c :: c in s.deployed ==> c in s.tokens && c in s.registry.byErc20)
  }

  /** What holds at every moment, `pending` logs being still to process. */
  ghost predicate Good(s: Chain, pending: seq<Log>) {
    && Sound(s.registry)
    && BooksConsistent(s) && IssuedUnderMetadata(s) && ExternalsFound(s) && OwnersKnown(s)
    && MODULE in s.blocked
    && TokensBacked(s) && CoinsBacked(s, pending)
  }

  predicate Stored(s: Chain, p: TokenPair) {
    p.Id() in s.registry.pairs && s.registry.pairs[p.Id()] == p
  }

  // ---------------------------------------------------------------- one pair

  /** A change of one pair's books that weakens nobody's backing; `used` is the
      credit it takes up. */
  ghost predicate Settles(owner: Owner, b: Books, b1: Books, used: nat) {
    && b1.coin.Consistent()
    && match owner
       case OwnerModule =>
         && b1.token.Consistent() && b1.token.supply <= MAX_UINT256
         && b1.coin.supply == b.coin.supply
         && b1.token.supply - b.token.supply <= b1.coin.Of(MODULE) - b.coin.Of(MODULE)
       case OwnerExternal =>
         && b1.coin.Of(MODULE) >= b.coin.Of(MODULE)
         && b1.coin.supply - b.coin.supply <= b1.token.Of(MODULE) - b.token.Of(MODULE) + used
       case OwnerUnspecified => false
  }

  ghost predicate Sane(b: Books) {
    b.coin.Consistent() && b.token.Consistent() && b.token.supply <= MAX_UINT256
  }

  lemma BurnAndReleaseSettles(b: Books, sender: Address, receiver: Address, amount: nat, blocked: set<Address>)
    requires Sane(b) && BurnAndRelease(b, sender, receiver, amount, blocked).Some?
    ensures Settles(OwnerModule, b, BurnAndRelease(b, sender, receiver, amount, blocked).value, 0)
  {
    MovedConsistent(b.coin, MODULE, receiver, amount);
    BurnedConsistent(b.token, sender, amount);
  }

  /** Taking tokens settles whatever the contract does: the message verifies
      that the module's balance grew. */
  lemma LockAndIssueSettles(b: Books, receiver: Address, amount: nat, blocked: set<Address>, call: Call)
    requires b.coin.Consistent() && LockAndIssue(b, receiver, amount, blocked, call).Some?
    ensures Settles(OwnerExternal, b, LockAndIssue(b, receiver, amount, blocked, call).value, 0)
  {
    MintedConsistent(b.coin, MODULE, amount);
    MovedConsistent(Minted(b.coin, MODULE, amount), MODULE, receiver, amount);
  }

  // ---------------------------------------------------------------- framing

  ghost predicate TouchesOnly(s: Chain, s1: Chain, p: TokenPair) {
    && s1 == s.(coins := s1.coins, tokens := s1.tokens)
    && (forall d :: d != p.denom ==> s1.Coin(d) == s.Coin(d))
    && s1.coins.Keys <= s.coins.Keys + {p.denom} && s1.tokens.Keys == s.tokens.Keys
    && (forall c :: c in s.tokens && c != p.erc20 ==> s1.tokens[c] == s.tokens[c])
  }

  ghost predicate TouchesTokenOf(s: Chain, s1: Chain, p: TokenPair) {
    && s1.registry == s.registry && s1.tokens.Keys == s.tokens.Keys
    && forall c :: c in s.tokens && c != p.erc20 ==> s1.tokens[c] == s.tokens[c]
  }

  /** No two pairs share a contract. */
  lemma OthersHaveOtherContracts(r: Registry, p: TokenPair, id: PairId)
    requires ContractBijection(r) && p.Id() in r.pairs && r.pairs[p.Id()] == p && id in r.pairs && id != p.Id()
    ensures r.pairs[id].erc20 != p.erc20
  {
  }

  /** The tokens issued against a denomination change by the pair's own change. */
  lemma IssuedChanges(s: Chain, s1: Chain, p: TokenPair, d: Denom)
    requires ContractBijection(s.registry) && Stored(s, p) && TouchesTokenOf(s, s1, p)
    ensures Issued(s1, d) == Issued(s, d)
              + (if IssuesAgainst(s, p, d) then s1.tokens[p.erc20].supply - s.tokens[p.erc20].supply else 0)
  {
    hide SumBy;
    var l, l1 := Liabilities(s, d), Liabilities(s1, d);
    forall id | id in s.registry.pairs && id != p.Id() ensures s.registry.pairs[id].erc20 != p.erc20 {
      OthersHaveOtherContracts(s.registry, p, id);
    }
    if IssuesAgainst(s, p, d) {
      assert l1 == l[p.Id() := s1.tokens[p.erc20].supply];
      SumUpdate(l, Itself, p.Id(), s1.tokens[p.erc20].supply);
    } else {
      assert l1 == l;
    }
  }

  /** Changing one pair's two ledgers in a settling way keeps every pair
      backed, including those that share its denomination. */
  lemma OnePairChanges(s: Chain, p: TokenPair, s1: Chain, pending: seq<Log>, rest: seq<Log>, used: nat)
    requires Good(s, pending) && Stored(s, p) && TouchesOnly(s, s1, p) && p.erc20 in s.tokens
    requires Settles(p.owner, BooksOf(s, p), BooksOf(s1, p), used)
    requires Credit(rest, p.erc20) + used <= Credit(pending, p.erc20)
    requires forall c :: c != p.erc20 ==> Credit(rest, c) <= Credit(pending, c)
    ensures Good(s1, rest)
  {
    hide Credit, TokensBacked, CoinsBacked, BooksConsistent, IssuedUnderMetadata, ExternalsFound, ContractBijection, DenomsResolve, TouchesOnly;
    SettledTokensBacked(s, p, s1, used);
    if p.owner == OwnerExternal {
      CoinsOfPair(s, p, pending);
    }
    CoinsStayBacked(s, p, s1, pending, rest);
    BooksStayConsistent(s, p, s1);
    MetadataStaysKnown(s, p, s1);
    SameRegistry(s, s1, p);
  }

  lemma CoinsOfPair(s: Chain, p: TokenPair, pending: seq<Log>)
    requires CoinsBacked(s, pending) && Stored(s, p) && p.erc20 in s.tokens && p.owner == OwnerExternal
    ensures s.Coin(p.denom).supply + Credit(pending, p.erc20) <= s.tokens[p.erc20].Of(MODULE)
  {
  }

  lemma SettledTokensBacked(s: Chain, p: TokenPair, s1: Chain, used: nat)
    requires TokensBacked(s) && ContractBijection(s.registry) && Stored(s, p) && p.erc20 in s.tokens && TouchesOnly(s, s1, p)
    requires Settles(p.owner, BooksOf(s, p), BooksOf(s1, p), used)
    ensures TokensBacked(s1)
  {
    hide SumBy;
    forall d ensures Issued(s1, d) <= s1.Coin(d).Of(MODULE) {
      assert Issued(s, d) <= s.Coin(d).Of(MODULE);
      IssuedChanges(s, s1, p, d);
    }
  }

  lemma CoinsStayBacked(s: Chain, p: TokenPair, s1: Chain, pending: seq<Log>, rest: seq<Log>)
    requires CoinsBacked(s, pending) && ContractBijection(s.registry) && ExternalsFound(s)
    requires Stored(s, p) && TouchesOnly(s, s1, p)
    requires p.owner == OwnerModule ==> s1.Coin(p.denom).supply == s.Coin(p.denom).supply
    requires p.owner == OwnerExternal && p.erc20 in s.tokens ==>
      s1.Coin(p.denom).supply + Credit(rest, p.erc20) <= s1.tokens[p.erc20].Of(MODULE)
    requires forall c :: c != p.erc20 ==> Credit(rest, c) <= Credit(pending, c)
    requires p.owner != OwnerUnspecified
    ensures CoinsBacked(s1, rest)
  {
    hide Credit;
    forall id | id in s1.registry.pairs && s1.registry.pairs[id].owner == OwnerExternal && s1.registry.pairs[id].erc20 in s1.tokens
      ensures var q := s1.registry.pairs[id];
              s1.Coin(q.denom).supply + Credit(rest, q.erc20) <= s1.tokens[q.erc20].Of(MODULE)
    {
      if id != p.Id() {
        var q := s.registry.pairs[id];
        OthersHaveOtherContracts(s.registry, p, id);
        assert s.Coin(q.denom).supply + Credit(pending, q.erc20) <= s.tokens[q.erc20].Of(MODULE);
        CreateDenomInjective(q.erc20, p.erc20);
      }
    }
  }

  /** Two external pairs never share a denomination: it names the contract. */
  lemma CreateDenomInjective(c: Contract, d: Contract)
    ensures CreateDenom(c) == CreateDenom(d) ==> c == d
  {
    assert CreateDenom(c)[6..] == c && CreateDenom(d)[6..] == d;
  }

  lemma BooksStayConsistent(s: Chain, p: TokenPair, s1: Chain)
    requires BooksConsistent(s) && TouchesOnly(s, s1, p)
    requires s1.Coin(p.denom).Consistent()
    requires p.erc20 in s1.tokens && p.erc20 in s.deployed ==> s1.tokens[p.erc20].Consistent() && s1.tokens[p.erc20].supply <= MAX_UINT256
    ensures BooksConsistent(s1)
  {
    forall d | d in s1.coins ensures s1.coins[d].Consistent() {
      assert s1.coins[d] == s1.Coin(d);
      if d != p.denom { assert d in s.coins && s.coins[d] == s.Coin(d); }
    }
  }

  lemma MetadataStaysKnown(s: Chain, p: TokenPair, s1: Chain)
    requires IssuedUnderMetadata(s) && ExternalsFound(s) && Stored(s, p) && TouchesOnly(s, s1, p)
    requires p.owner != OwnerExternal ==> s1.Coin(p.denom).supply == s.Coin(p.denom).supply
    ensures IssuedUnderMetadata(s1)
  {
    forall c | s1.Coin(CreateDenom(c)).supply > 0 ensures CreateDenom(c) in s1.metadata {
      if CreateDenom(c) == p.denom && p.owner == OwnerExternal {
        assert p.denom in s.metadata;
      }
    }
  }

  lemma BooksTouchOnly(s: Chain, p: TokenPair, b: Books)
    requires p.erc20 in s.tokens
    ensures TouchesOnly(s, WithBooks(s, p, b), p)
    ensures BooksOf(WithBooks(s, p, b), p) == b
  {
  }

  lemma BooksReplaced(s: Chain, p: TokenPair, b: Books)
    requires Good(s, []) && Stored(s, p) && p.erc20 in s.tokens && Settles(p.owner, BooksOf(s, p), b, 0)
    ensures Good(WithBooks(s, p, b), [])
  {
    hide Good, Settles, TouchesOnly, WithBooks;
    BooksTouchOnly(s, p, b);
    OnePairChanges(s, p, WithBooks(s, p, b), [], [], 0);
  }

  lemma BooksAreSane(s: Chain, p: TokenPair)
    requires BooksConsistent(s) && p.erc20 in s.tokens
    ensures s.Coin(p.denom).Consistent()
    ensures p.erc20 in s.deployed ==> Sane(BooksOf(s, p))
  {
  }

  lemma CoinConsistent(s: Chain, d: Denom)
    requires BooksConsistent(s)
    ensures s.Coin(d).Consistent()
  {
  }

  // ---------------------------------------------------------------- conversions

  /** Whether a coin conversion that goes through leaves its pair backed, in
      terms of the state before it. Tokens minted for another coin than the
      pair's must find room under the escrow there is; of an external pair, the
      coins still in circulation must be covered by what the contract leaves. */
  ghost predicate Covers(s: Chain, p: TokenPair, denom: Denom, amount: nat, call: Call) {
    match p.owner
    case OwnerModule => p.denom == denom || Issued(s, p.denom) + amount <= s.Coin(p.denom).Of(MODULE)
    case OwnerExternal =>
      call.Returned? && s.Coin(p.denom).supply - (if p.denom == denom then amount else 0) <= call.after.Of(MODULE)
    case OwnerUnspecified => false
  }

  /** The backing after a change of one coin and of one pair's token, when the
      coin's supply does not grow and the module's holding does not shrink. */
  lemma GoodAfterIff(s: Chain, s1: Chain, p: TokenPair, q: TokenPair)
    requires Good(s, []) && Stored(s, p) && p.erc20 in s.tokens && q == p.(denom := q.denom) && TouchesOnly(s, s1, q)
    requires s1.Coin(q.denom).Consistent() && s1.Coin(q.denom).supply <= s.Coin(q.denom).supply
    requires s1.Coin(q.denom).Of(MODULE) >= s.Coin(q.denom).Of(MODULE)
    requires p.owner == OwnerModule ==> s1.tokens[p.erc20].Consistent() && s1.tokens[p.erc20].supply <= MAX_UINT256
    ensures Good(s1, []) <==>
              && (p.owner == OwnerModule ==>
                   Issued(s, p.denom) + s1.tokens[p.erc20].supply - s.tokens[p.erc20].supply <= s1.Coin(p.denom).Of(MODULE))
              && (p.owner == OwnerExternal ==> s1.Coin(p.denom).supply <= s1.tokens[p.erc20].Of(MODULE))
  {
    hide SumBy, Liabilities, TokensBacked, CoinsBacked, BooksConsistent, IssuedUnderMetadata, ExternalsFound, ContractBijection, DenomsResolve, TouchesOnly;
    SameRegistry(s, s1, q);
    TokensBackedAfter(s, s1, p, q);
    CoinsBackedAfter(s, s1, p, q);
    BooksStayConsistent(s, q, s1);
    FewerCoinsUnderMetadata(s, s1, q);
  }

  lemma FewerCoinsUnderMetadata(s: Chain, s1: Chain, q: TokenPair)
    requires IssuedUnderMetadata(s) && TouchesOnly(s, s1, q) && s1.Coin(q.denom).supply <= s.Coin(q.denom).supply
    ensures IssuedUnderMetadata(s1)
  {
  }

  lemma TokensBackedAfter(s: Chain, s1: Chain, p: TokenPair, q: TokenPair)
    requires TokensBacked(s) && ContractBijection(s.registry) && Stored(s, p) && p.erc20 in s.tokens
    requires q == p.(denom := q.denom) && TouchesOnly(s, s1, q)
    requires s1.Coin(q.denom).Of(MODULE) >= s.Coin(q.denom).Of(MODULE)
    ensures TokensBacked(s1) <==>
              (p.owner == OwnerModule ==>
                Issued(s, p.denom) + s1.tokens[p.erc20].supply - s.tokens[p.erc20].supply <= s1.Coin(p.denom).Of(MODULE))
  {
    hide SumBy;
    forall d
      ensures s1.Coin(d).Of(MODULE) >= s.Coin(d).Of(MODULE) >= Issued(s, d)
      ensures Issued(s1, d) == Issued(s, d)
                + (if IssuesAgainst(s, p, d) then s1.tokens[p.erc20].supply - s.tokens[p.erc20].supply else 0)
    {
      assert Issued(s, d) <= s.Coin(d).Of(MODULE);
      IssuedChanges(s, s1, p, d);
    }
  }

  lemma CoinsBackedAfter(s: Chain, s1: Chain, p: TokenPair, q: TokenPair)
    requires CoinsBacked(s, []) && ContractBijection(s.registry) && Stored(s, p) && p.erc20 in s.tokens
    requires q == p.(denom := q.denom) && TouchesOnly(s, s1, q) && s1.Coin(q.denom).supply <= s.Coin(q.denom).supply
    ensures CoinsBacked(s1, []) <==>
              (p.owner == OwnerExternal ==> s1.Coin(p.denom).supply <= s1.tokens[p.erc20].Of(MODULE))
  {
    forall id | id in s.registry.pairs && id != p.Id() && s.registry.pairs[id].owner == OwnerExternal && s.registry.pairs[id].erc20 in s.tokens
      ensures var e := s.registry.pairs[id]; s1.Coin(e.denom).supply <= s1.tokens[e.erc20].Of(MODULE)
    {
      OthersHaveOtherContracts(s.registry, p, id);
      assert s.Coin(s.registry.pairs[id].denom).supply + Credit([], s.registry.pairs[id].erc20) <= s.tokens[s.registry.pairs[id].erc20].Of(MODULE);
    }
  }

  lemma EscrowAndMintBooks(b: Books, sender: Address, receiver: Address, amount: nat)
    requires Sane(b) && sender != MODULE && EscrowAndMint(b, sender, receiver, amount).Some?
    ensures var b1 := EscrowAndMint(b, sender, receiver, amount).value;
            && Sane(b1) && b1.coin.supply == b.coin.supply && b1.coin.Of(MODULE) == b.coin.Of(MODULE) + amount
            && b1.token.supply == b.token.supply + amount
  {
    MovedConsistent(b.coin, sender, MODULE, amount);
    MintedConsistent(b.token, receiver, amount);
  }

  lemma ReturnAndUnlockBooks(b: Books, sender: Address, receiver: Address, amount: nat, call: Call)
    requires b.coin.Consistent() && sender != MODULE && ReturnAndUnlock(b, sender, receiver, amount, call).Some?
    ensures var b1 := ReturnAndUnlock(b, sender, receiver, amount, call).value;
            && b1.coin.Consistent() && b1.coin.supply == b.coin.supply - amount && b1.coin.Of(MODULE) == b.coin.Of(MODULE)
            && call.Returned? && b1.token == call.after
  {
    MovedConsistent(b.coin, sender, MODULE, amount);
    BurnedConsistent(Moved(b.coin, sender, MODULE, amount), MODULE, amount);
  }

  lemma CoinPathsBackedIff(s: Chain, p: TokenPair, denom: Denom, sender: Address, receiver: Address, amount: nat, call: Call)
    requires Good(s, []) && Stored(s, p) && p.erc20 in s.tokens && sender != MODULE
    ensures var q := p.(denom := denom);
            && (p.owner == OwnerModule && EscrowAndMint(BooksOf(s, q), sender, receiver, amount).Some?
                ==> (Good(WithBooks(s, q, EscrowAndMint(BooksOf(s, q), sender, receiver, amount).value), [])
                     <==> Covers(s, p, denom, amount, call)))
            && (p.owner == OwnerExternal && ReturnAndUnlock(BooksOf(s, q), sender, receiver, amount, call).Some?
                ==> (Good(WithBooks(s, q, ReturnAndUnlock(BooksOf(s, q), sender, receiver, amount, call).value), [])
                     <==> Covers(s, p, denom, amount, call)))
  {
    hide EscrowAndMint, ReturnAndUnlock, WithBooks, Sane, CoinsBacked, Issued, IssuedUnderMetadata, ExternalsFound, ContractBijection, DenomsResolve, TouchesOnly;
    var q := p.(denom := denom);
    var b := BooksOf(s, q);
    BooksAreSane(s, q);
    if p.owner == OwnerModule && EscrowAndMint(b, sender, receiver, amount).Some? {
      EscrowAndMintBooks(b, sender, receiver, amount);
      AfterBooksIff(s, p, q, EscrowAndMint(b, sender, receiver, amount).value);
    } else if p.owner == OwnerExternal && ReturnAndUnlock(b, sender, receiver, amount, call).Some? {
      ReturnAndUnlockBooks(b, sender, receiver, amount, call);
      AfterBooksIff(s, p, q, ReturnAndUnlock(b, sender, receiver, amount, call).value);
    }
  }

  lemma AfterBooksIff(s: Chain, p: TokenPair, q: TokenPair, b: Books)
    requires Good(s, []) && Stored(s, p) && p.erc20 in s.tokens && q == p.(denom := q.denom)
    requires b.coin.Consistent() && b.coin.supply <= s.Coin(q.denom).supply && b.coin.Of(MODULE) >= s.Coin(q.denom).Of(MODULE)
    requires p.owner == OwnerModule ==> Sane(b)
    ensures var coin := if p.denom == q.denom then b.coin else s.Coin(p.denom);
            Good(WithBooks(s, q, b), []) <==>
              && (p.owner == OwnerModule ==> Issued(s, p.denom) + b.token.supply - s.tokens[p.erc20].supply <= coin.Of(MODULE))
              && (p.owner == OwnerExternal ==> coin.supply <= b.token.Of(MODULE))
  {
    hide Good, Issued;
    BooksTouchOnly(s, q, b);
    GoodAfterIff(s, WithBooks(s, q, b), p, q);
  }

  /** The pair a denomination leads to, however it reads. */
  function NamedPair(s: Chain, denom: Denom): Option<TokenPair> { Lookup(s.registry, Resolve(denom)) }

  /** A coin conversion that goes through keeps every pair backed if and only
      if its own pair is covered. */
  lemma ConvertCoinBackedIff(s: Chain, sender: Address, receiver: Address, denom: Denom, amount: nat, call: Call)
    requires Good(s, []) && sender != MODULE && ConvertCoinWith(s, sender, receiver, denom, amount, call).Some?
    ensures NamedPair(s, denom).Some?
    ensures var p := NamedPair(s, denom).value;
            Good(ConvertCoinWith(s, sender, receiver, denom, amount, call).value, [])
            <==> p.erc20 !in s.tokens || Covers(s, p, denom, amount, call)
  {
    hide Good, Covers, EscrowAndMint, ReturnAndUnlock, WithBooks, Resolve;
    assert Sound(s.registry) by { GoodIsSound(s); }
    LookupFindsNamedPair(s.registry, Resolve(denom));
    var p := NamedPair(s, denom).value;
    if p.erc20 !in s.tokens {
      DropGood(s, p);
    } else {
      CoinPathsBackedIff(s, p, denom, sender, receiver, amount, call);
    }
  }

  lemma GoodIsSound(s: Chain)
    requires Good(s, [])
    ensures Sound(s.registry)
  {
  }

  /** The contract behind a denomination, if it exists, takes no more from what
      the module holds than it releases. */
  predicate FairFor(s: Chain, denom: Denom, amount: nat, call: Call) {
    var p := NamedPair(s, denom);
    p.Some? && p.value.erc20 in s.tokens && call.Returned? ==>
      s.tokens[p.value.erc20].Of(MODULE) <= call.after.Of(MODULE) + amount
  }

  /** A contract that follows EIP-20 is fair. */
  lemma HonestIsFair(s: Chain, denom: Denom, receiver: Address, amount: nat)
    ensures FairFor(s, denom, amount, HonestCall(s, Resolve(denom), MODULE, receiver, amount))
  {
  }

  /** The coin's own pair is converted, and the contract is fair: enough. */
  lemma ConvertCoinGood(s: Chain, sender: Address, receiver: Address, denom: Denom, amount: nat, call: Call)
    requires Good(s, []) && sender != MODULE && FairFor(s, denom, amount, call)
    requires ReadsAs(denom).None? || (NamedPair(s, denom).Some? && NamedPair(s, denom).value.denom == denom)
    ensures var r := ConvertCoinWith(s, sender, receiver, denom, amount, call);
            r.Some? ==> Good(r.value, [])
  {
    if ConvertCoinWith(s, sender, receiver, denom, amount, call).Some? {
      hide TokensBacked, BooksConsistent, IssuedUnderMetadata, ExternalsFound, EscrowAndMint, WithBooks;
      ConvertCoinBackedIff(s, sender, receiver, denom, amount, call);
      LookupFindsNamedPair(s.registry, Resolve(denom));
      var p := NamedPair(s, denom).value;
      if p.owner == OwnerExternal && p.erc20 in s.tokens {
        assert s.Coin(p.denom).supply + Credit([], p.erc20) <= s.tokens[p.erc20].Of(MODULE);
      }
    }
  }

  lemma TokenPathsGood(s: Chain, p: TokenPair, sender: Address, receiver: Address, amount: nat, call: Call)
    requires Good(s, []) && Stored(s, p) && p.erc20 in s.tokens
    ensures var b := BooksOf(s, p);
            && (p.owner == OwnerModule && BurnAndRelease(b, sender, receiver, amount, s.blocked).Some?
                ==> Good(WithBooks(s, p, BurnAndRelease(b, sender, receiver, amount, s.blocked).value), []))
            && (p.owner == OwnerExternal && LockAndIssue(b, receiver, amount, s.blocked, call).Some?
                ==> Good(WithBooks(s, p, LockAndIssue(b, receiver, amount, s.blocked, call).value), []))
  {
    hide BurnAndRelease, LockAndIssue, WithBooks, Settles, Sane, TokensBacked, CoinsBacked;
    var b := BooksOf(s, p);
    BooksAreSane(s, p);
    if p.owner == OwnerModule && BurnAndRelease(b, sender, receiver, amount, s.blocked).Some? {
      BurnAndReleaseSettles(b, sender, receiver, amount, s.blocked);
      BooksReplaced(s, p, BurnAndRelease(b, sender, receiver, amount, s.blocked).value);
    } else if p.owner == OwnerExternal && LockAndIssue(b, receiver, amount, s.blocked, call).Some? {
      LockAndIssueSettles(b, receiver, amount, s.blocked, call);
      BooksReplaced(s, p, LockAndIssue(b, receiver, amount, s.blocked, call).value);
    }
  }

  lemma ConvertERC20Good(s: Chain, sender: Address, receiver: Address, contract: Contract, amount: nat, call: Call)
    requires Good(s, [])
    ensures var r := ConvertERC20With(s, sender, receiver, contract, amount, call);
            r.Some? ==> Good(r.value, [])
  {
    LookupFindsNamedPair(s.registry, ByContract(contract));
    var m := MintingEnabled(s, sender, receiver, ByContract(contract));
    if m.Some? {
      if m.value.erc20 !in s.tokens {
        DropGood(s, m.value);
      } else {
        TokenPathsGood(s, m.value, sender, receiver, amount, call);
      }
    }
  }

  /** A pair whose contract is gone is an external one; dropping it frees nobody's backing. */
  lemma DropGood(s: Chain, p: TokenPair)
    requires Good(s, []) && Stored(s, p) && p.erc20 !in s.tokens
    ensures Good(PairDropped(s, p), [])
  {
    hide SumBy, DenomsResolve, TokensBacked, CoinsBacked, BooksConsistent, FoundByDenom;
    DeleteLaw(s.registry, p);
    var s1 := PairDropped(s, p);
    DropKeepsFound(s, p);
    assert s1.registry.pairs == s.registry.pairs - {p.Id()};
    FewerPairsBacked(s, p);
    assert forall d :: s1.Coin(d) == s.Coin(d);
    SameBooksConsistent(s, s1);
  }

  /** The other external pairs have other denominations. */
  lemma DropKeepsFound(s: Chain, p: TokenPair)
    requires ContractBijection(s.registry) && ExternalsFound(s) && Stored(s, p) && p.owner == OwnerExternal
    ensures ExternalsFound(PairDropped(s, p))
  {
    forall id | id in s.registry.pairs && id != p.Id() && s.registry.pairs[id].owner == OwnerExternal
      ensures s.registry.pairs[id].denom != p.denom
    {
      OthersHaveOtherContracts(s.registry, p, id);
      CreateDenomInjective(s.registry.pairs[id].erc20, p.erc20);
    }
  }

  lemma SameBooksConsistent(s: Chain, s1: Chain)
    requires BooksConsistent(s) && s1.coins == s.coins && s1.tokens == s.tokens && s1.deployed == s.deployed
    ensures BooksConsistent(s1)
  {
  }

  lemma FewerPairsBacked(s: Chain, p: TokenPair)
    requires TokensBacked(s) && CoinsBacked(s, []) && p.erc20 !in s.tokens && Stored(s, p)
    ensures TokensBacked(PairDropped(s, p)) && CoinsBacked(PairDropped(s, p), [])
  {
    hide SumBy, Liabilities, CoinsBacked;
    var s1 := PairDropped(s, p);
    forall d ensures Issued(s1, d) <= s1.Coin(d).Of(MODULE) {
      DropLiabilities(s, p, d);
      assert Issued(s, d) <= s.Coin(d).Of(MODULE);
    }
    DropCoinsBacked(s, p);
  }

  lemma DropLiabilities(s: Chain, p: TokenPair, d: Denom)
    requires p.erc20 !in s.tokens && Stored(s, p)
    ensures Liabilities(PairDropped(s, p), d) == Liabilities(s, d)
  {
  }

  lemma DropCoinsBacked(s: Chain, p: TokenPair)
    requires CoinsBacked(s, [])
    ensures CoinsBacked(PairDropped(s, p), [])
  {
    var s1 := PairDropped(s, p);
    assert forall id :: id in s1.registry.pairs ==> id in s.registry.pairs && s1.registry.pairs[id] == s.registry.pairs[id];
  }

  // ---------------------------------------------------------------- the hook

  /** Processing the first pending log uses up exactly its own credit, whatever fails. */
  lemma HookLogGood(s: Chain, logs: seq<Log>, k: nat)
    requires k < |logs| && Good(s, logs[k..])
    ensures Good(HookLog(s, logs[k]), logs[k + 1..])
  {
    hide SumBy, Credit, HookFirst, HookSecond, TokensBacked, CoinsBacked, BooksConsistent, IssuedUnderMetadata;
    var log, pending, rest := logs[k], logs[k..], logs[k + 1..];
    CreditSplit(pending);
    assert pending[1..] == rest && pending[0] == log;
    LookupFindsNamedPair(s.registry, if log.Transfer? then ByContract(log.contract) else ByContract(""));
    var p := LogPair(s, log);
    if p.None? || HookFirst(s, p.value, log.contract, log.amount).None? {
      LowerCredit(s, pending, rest);
    } else if p.value.erc20 in s.tokens {
      HookPairGood(s, p.value, log, pending, rest);
    } else {
      HookWithoutContract(s, p.value, log, pending, rest);
    }
  }

  function AfterHook(s: Chain, p: TokenPair, log: Log): Chain
    requires log.Transfer? && HookFirst(s, p, log.contract, log.amount).Some?
  {
    HookSecond(HookFirst(s, p, log.contract, log.amount).value, p, log.from, log.amount)
  }

  lemma HookPairGood(s: Chain, p: TokenPair, log: Log, pending: seq<Log>, rest: seq<Log>)
    requires Good(s, pending) && Stored(s, p) && p.erc20 in s.tokens
    requires log.Transfer? && p.erc20 == log.contract && HookFirst(s, p, log.contract, log.amount).Some?
    requires Credit(pending, log.contract) == log.amount + Credit(rest, log.contract)
    requires forall c :: c != log.contract ==> Credit(rest, c) == Credit(pending, c)
    ensures Good(AfterHook(s, p, log), rest)
  {
    hide Good, AfterHook, Settles, TouchesOnly, Credit;
    HookFrame(s, p, log);
    GoodParts(s, pending, p);
    HookSettles(s, p, log);
    OnePairChanges(s, p, AfterHook(s, p, log), pending, rest, log.amount);
  }

  lemma GoodParts(s: Chain, pending: seq<Log>, p: TokenPair)
    requires Good(s, pending) && Stored(s, p)
    ensures BooksConsistent(s) && p.owner != OwnerUnspecified && (p.owner == OwnerModule ==> p.erc20 in s.deployed)
  {
  }

  /** A converted log touches the two ledgers of its own pair and nothing else. */
  lemma HookFrame(s: Chain, p: TokenPair, log: Log)
    requires log.Transfer? && p.erc20 == log.contract && HookFirst(s, p, log.contract, log.amount).Some?
    ensures TouchesOnly(s, AfterHook(s, p, log), p)
  {
    var s1 := HookFirst(s, p, log.contract, log.amount).value;
    if p.owner == OwnerExternal {
      CoinWritten(s, p, Minted(s.Coin(p.denom), MODULE, log.amount));
    }
    assert TouchesOnly(s, s1, p);
    if 0 < log.amount <= s1.Coin(p.denom).Of(MODULE) {
      CoinWritten(s1, p, Moved(s1.Coin(p.denom), MODULE, log.from, log.amount));
    }
  }

  lemma CoinWritten(s: Chain, p: TokenPair, x: Asset)
    ensures TouchesOnly(s, s.(coins := s.coins[p.denom := x]), p)
  {
  }

  lemma HookSettles(s: Chain, p: TokenPair, log: Log)
    requires BooksConsistent(s) && p.erc20 in s.tokens && p.owner != OwnerUnspecified
    requires p.owner == OwnerModule ==> p.erc20 in s.deployed
    requires log.Transfer? && p.erc20 == log.contract && HookFirst(s, p, log.contract, log.amount).Some?
    ensures p.erc20 in AfterHook(s, p, log).tokens
    ensures Settles(p.owner, BooksOf(s, p), BooksOf(AfterHook(s, p, log), p), log.amount)
  {
    BooksAreSane(s, p);
    var s1 := HookFirst(s, p, log.contract, log.amount).value;
    var coin := s1.Coin(p.denom);
    if p.owner == OwnerModule {
      BurnedConsistent(s.tokens[p.erc20], MODULE, log.amount);
      assert coin == s.Coin(p.denom);
    } else {
      MintedConsistent(s.Coin(p.denom), MODULE, log.amount);
      assert coin == Minted(s.Coin(p.denom), MODULE, log.amount);
    }
    if log.from !in s1.blocked && 0 < log.amount <= coin.Of(MODULE) {
      MovedConsistent(coin, MODULE, log.from, log.amount);
      assert Moved(coin, MODULE, log.from, log.amount).Of(MODULE) >= coin.Of(MODULE) - log.amount;
    }
  }

  /** An external pair whose contract is gone still issues coins for the log;
      they are backed by nothing, but no other pair's backing suffers. */
  lemma HookWithoutContract(s: Chain, p: TokenPair, log: Log, pending: seq<Log>, rest: seq<Log>)
    requires Good(s, pending) && Stored(s, p) && p.erc20 !in s.tokens
    requires log.Transfer? && p.erc20 == log.contract && HookFirst(s, p, log.contract, log.amount).Some?
    requires forall c :: c != log.contract ==> Credit(rest, c) == Credit(pending, c)
    ensures Good(AfterHook(s, p, log), rest)
  {
    hide Credit, AfterHook, TouchesOnly, CoinsBacked, TokensBacked, BooksConsistent, IssuedUnderMetadata, ContractBijection, DenomsResolve, ExternalsFound;
    var s2 := AfterHook(s, p, log);
    HookFrame(s, p, log);
    HookOnlyAddsCoins(s, p, log);
    MoreCoinsBackTokens(s, s2, p);
    SameRegistry(s, s2, p);
    CoinsStayBacked(s, p, s2, pending, rest);
    BooksStayConsistent(s, p, s2);
    MetadataStaysKnown(s, p, s2);
  }

  lemma SameRegistry(s: Chain, s1: Chain, p: TokenPair)
    requires TouchesOnly(s, s1, p)
    ensures s1.registry == s.registry && s1.blocked == s.blocked && s1.deployed == s.deployed && s1.tokens.Keys == s.tokens.Keys
    ensures ExternalsFound(s) ==> ExternalsFound(s1)
  {
  }

  lemma MoreCoinsBackTokens(s: Chain, s1: Chain, p: TokenPair)
    requires TokensBacked(s) && ContractBijection(s.registry) && Stored(s, p) && p.erc20 !in s.tokens
    requires TouchesOnly(s, s1, p) && s1.Coin(p.denom).Of(MODULE) >= s.Coin(p.denom).Of(MODULE)
    ensures TokensBacked(s1)
  {
    hide SumBy;
    forall d ensures Issued(s1, d) <= s1.Coin(d).Of(MODULE) {
      assert Issued(s, d) <= s.Coin(d).Of(MODULE);
      IssuedChanges(s, s1, p, d);
    }
  }

  lemma HookOnlyAddsCoins(s: Chain, p: TokenPair, log: Log)
    requires BooksConsistent(s) && log.Transfer? && p.owner == OwnerExternal
    requires HookFirst(s, p, log.contract, log.amount).Some?
    ensures var coin := AfterHook(s, p, log).Coin(p.denom);
            coin.Consistent() && coin.Of(MODULE) >= s.Coin(p.denom).Of(MODULE)
  {
    CoinConsistent(s, p.denom);
    var minted := Minted(s.Coin(p.denom), MODULE, log.amount);
    MintedConsistent(s.Coin(p.denom), MODULE, log.amount);
    MovedConsistent(minted, MODULE, log.from, log.amount);
    assert HookFirst(s, p, log.contract, log.amount).value.Coin(p.denom) == minted;
  }

  /** The credit of the first log and of the others. */
  lemma {:induction false} CreditSplit(logs: seq<Log>)
    requires logs != []
    ensures forall c :: Credit(logs, c) == Credit(logs[1..], c)
              + (if logs[0].Transfer? && logs[0].contract == c && logs[0].to == MODULE then logs[0].amount else 0)
  {
    if |logs| == 1 {
      assert logs[..0] == [] && logs[1..] == [];
    } else {
      var last := |logs| - 1;
      CreditSplit(logs[..last]);
      assert logs[..last][1..] == logs[1..][..last - 1];
    }
  }

  lemma LowerCredit(s: Chain, pending: seq<Log>, rest: seq<Log>)
    requires Good(s, pending)
    requires forall c :: Credit(rest, c) <= Credit(pending, c)
    ensures Good(s, rest)
  {
  }

  lemma {:induction false} HookLogsGood(s: Chain, logs: seq<Log>, k: nat)
    requires k <= |logs| && Good(s, logs)
    ensures Good(HookLogs(s, logs[..k]), logs[k..])
    decreases k
  {
    hide Good, HookLog;
    if k == 0 {
      assert logs[..0] == [] && logs[0..] == logs;
    } else {
      HookLogsGood(s, logs, k - 1);
      assert logs[..k][..k - 1] == logs[..k - 1];
      HookLogGood(HookLogs(s, logs[..k - 1]), logs, k - 1);
    }
  }

  lemma PostTxGood(s: Chain, logs: seq<Log>)
    requires Good(s, logs)
    ensures Good(PostTx(s, logs), [])
  {
    hide Good;
    if s.enableErc20 && s.enableHook {
      HookLogsGood(s, logs, |logs|);
      assert logs[..|logs|] == logs && logs[|logs|..] == [];
    } else {
      LowerCredit(s, logs, []);
    }
  }
}
