/** What holders get: one-for-one exchange, round trips, redeemability, and what
    a second registration of the same coin takes away. */
module Erc20RoundTrips {
  import opened Common
  import opened MapSums
  import opened Erc20Assets
  import opened Erc20Registry
  import opened Erc20Conversion
  import opened Erc20Solvency
  import opened Erc20Runs

  // ---------------------------------------------------------------- round trips

  ghost predicate SameAsset(x: Asset, y: Asset) {
    x.supply == y.supply && forall a :: x.Of(a) == y.Of(a)
  }

  ghost predicate SameBalances(s: Chain, s1: Chain) {
    && s1.registry == s.registry && s1.tokens.Keys == s.tokens.Keys
    && (forall d :: SameAsset(s.Coin(d), s1.Coin(d)))
    && (forall c :: c in s.tokens ==> SameAsset(s.tokens[c], s1.tokens[c]))
  }

  /** One account may use a stored pair with an existing contract. */
  predicate Usable(s: Chain, p: TokenPair, a: Address) {
    s.enableErc20 && Stored(s, p) && p.enabled && p.erc20 in s.tokens && a !in s.blocked
  }

  /** The pair is the one its denomination leads to, however it reads. */
  predicate NamedByDenom(s: Chain, p: TokenPair) {
    NamedPair(s, p.denom) == Some(p)
  }

  lemma UsableEitherWay(s: Chain, p: TokenPair, a: Address)
    requires Good(s, []) && Usable(s, p, a)
    ensures NamedByDenom(s, p) ==> MintingEnabled(s, a, a, Resolve(p.denom)) == Some(p)
    ensures MintingEnabled(s, a, a, ByContract(p.erc20)) == Some(p)
  {
  }

  lemma BooksRestored(s: Chain, p: TokenPair, b1: Books, b2: Books)
    requires p.erc20 in s.tokens
    requires SameAsset(s.Coin(p.denom), b2.coin) && SameAsset(s.tokens[p.erc20], b2.token)
    ensures SameBalances(s, WithBooks(WithBooks(s, p, b1), p, b2))
  {
  }

  /** The second message of a round trip, after the first left books `b1`. */
  lemma BackByContract(s: Chain, p: TokenPair, a: Address, b1: Books, amount: nat)
    requires p.erc20 in s.tokens && MintingEnabled(s, a, a, ByContract(p.erc20)) == Some(p)
    ensures var back := ConvertERC20(WithBooks(s, p, b1), a, a, p.erc20, amount);
            && (p.owner == OwnerModule && BurnAndRelease(b1, a, a, amount, s.blocked).Some?
                ==> back == Some(WithBooks(WithBooks(s, p, b1), p, BurnAndRelease(b1, a, a, amount, s.blocked).value)))
            && (p.owner == OwnerExternal && HonestLock(b1, a, a, amount, s.blocked).Some?
                ==> back == Some(WithBooks(WithBooks(s, p, b1), p, HonestLock(b1, a, a, amount, s.blocked).value)))
  {
  }

  lemma BackByDenom(s: Chain, p: TokenPair, a: Address, b1: Books, amount: nat)
    requires p.erc20 in s.tokens && MintingEnabled(s, a, a, Resolve(p.denom)) == Some(p)
    ensures var back := ConvertCoin(WithBooks(s, p, b1), a, a, p.denom, amount);
            && (p.owner == OwnerModule && EscrowAndMint(b1, a, a, amount).Some?
                ==> back == Some(WithBooks(WithBooks(s, p, b1), p, EscrowAndMint(b1, a, a, amount).value)))
            && (p.owner == OwnerExternal && HonestUnlock(b1, a, a, amount).Some?
                ==> back == Some(WithBooks(WithBooks(s, p, b1), p, HonestUnlock(b1, a, a, amount).value)))
  {
  }

  /** Converting coins and converting the tokens back by the same account
      cannot fail and restores every balance and supply. */
  lemma CoinRoundTrip(s: Chain, p: TokenPair, a: Address, amount: nat)
    requires Good(s, []) && Usable(s, p, a) && NamedByDenom(s, p)
    requires ConvertCoin(s, a, a, p.denom, amount).Some?
    ensures var s1 := ConvertCoin(s, a, a, p.denom, amount).value;
            var back := ConvertERC20(s1, a, a, p.erc20, amount);
            back.Some? && SameBalances(s, back.value)
  {
    UsableEitherWay(s, p, a);
    var b := BooksOf(s, p);
    if p.owner == OwnerModule {
      var b1 := EscrowAndMint(b, a, a, amount).value;
      EscrowThenRelease(b, a, amount, s.blocked);
      BackByContract(s, p, a, b1, amount);
      BooksRestored(s, p, b1, BurnAndRelease(b1, a, a, amount, s.blocked).value);
    } else {
      var b1 := HonestUnlock(b, a, a, amount).value;
      ReturnThenLock(b, a, amount, s.blocked);
      BackByContract(s, p, a, b1, amount);
      BooksRestored(s, p, b1, HonestLock(b1, a, a, amount, s.blocked).value);
    }
  }

  lemma EscrowThenRelease(b: Books, a: Address, amount: nat, blocked: set<Address>)
    requires a !in blocked && a != MODULE && EscrowAndMint(b, a, a, amount).Some?
    ensures var b1 := EscrowAndMint(b, a, a, amount).value;
            var b2 := BurnAndRelease(b1, a, a, amount, blocked);
            b2.Some? && SameAsset(b.coin, b2.value.coin) && SameAsset(b.token, b2.value.token)
  {
  }

  lemma ReturnThenLock(b: Books, a: Address, amount: nat, blocked: set<Address>)
    requires a !in blocked && a != MODULE && HonestUnlock(b, a, a, amount).Some?
    ensures var b1 := HonestUnlock(b, a, a, amount).value;
            var b2 := HonestLock(b1, a, a, amount, blocked);
            b2.Some? && SameAsset(b.coin, b2.value.coin) && SameAsset(b.token, b2.value.token)
  {
  }

  /** The same starting from tokens, if and only if the denomination leads
      back to the pair the tokens are of. */
  lemma TokenRoundTrip(s: Chain, p: TokenPair, a: Address, amount: nat)
    requires Good(s, []) && Usable(s, p, a)
    requires ConvertERC20(s, a, a, p.erc20, amount).Some?
    ensures var s1 := ConvertERC20(s, a, a, p.erc20, amount).value;
            var back := ConvertCoin(s1, a, a, p.denom, amount);
            back.Some? && SameBalances(s, back.value) <==> NamedByDenom(s, p)
  {
    if NamedByDenom(s, p) {
      TokensComeBack(s, p, a, amount);
    } else {
      TokensStayAway(s, p, a, amount);
    }
  }

  lemma TokensComeBack(s: Chain, p: TokenPair, a: Address, amount: nat)
    requires Good(s, []) && Usable(s, p, a) && NamedByDenom(s, p)
    requires ConvertERC20(s, a, a, p.erc20, amount).Some?
    ensures var s1 := ConvertERC20(s, a, a, p.erc20, amount).value;
            var back := ConvertCoin(s1, a, a, p.denom, amount);
            back.Some? && SameBalances(s, back.value)
  {
    UsableEitherWay(s, p, a);
    var b := BooksOf(s, p);
    if p.owner == OwnerModule {
      var b1 := BurnAndRelease(b, a, a, amount, s.blocked).value;
      ReleaseThenEscrow(b, a, amount, s.blocked);
      BackByDenom(s, p, a, b1, amount);
      BooksRestored(s, p, b1, EscrowAndMint(b1, a, a, amount).value);
    } else {
      var b1 := HonestLock(b, a, a, amount, s.blocked).value;
      LockThenReturn(b, a, amount, s.blocked);
      BackByDenom(s, p, a, b1, amount);
      BooksRestored(s, p, b1, HonestUnlock(b1, a, a, amount).value);
    }
  }

  lemma ReleaseThenEscrow(b: Books, a: Address, amount: nat, blocked: set<Address>)
    requires a !in blocked && a != MODULE && BurnAndRelease(b, a, a, amount, blocked).Some?
    requires b.token.supply <= MAX_UINT256
    ensures var b1 := BurnAndRelease(b, a, a, amount, blocked).value;
            var b2 := EscrowAndMint(b1, a, a, amount);
            b2.Some? && SameAsset(b.coin, b2.value.coin) && SameAsset(b.token, b2.value.token)
  {
  }

  lemma LockThenReturn(b: Books, a: Address, amount: nat, blocked: set<Address>)
    requires a !in blocked && a != MODULE && HonestLock(b, a, a, amount, blocked).Some?
    ensures var b1 := HonestLock(b, a, a, amount, blocked).value;
            var b2 := HonestUnlock(b1, a, a, amount);
            b2.Some? && SameAsset(b.coin, b2.value.coin) && SameAsset(b.token, b2.value.token)
  {
  }

  /** The coins go to another pair, or nowhere, and the tokens stay spent. */
  lemma TokensStayAway(s: Chain, p: TokenPair, a: Address, amount: nat)
    requires Good(s, []) && Usable(s, p, a) && !NamedByDenom(s, p)
    requires ConvertERC20(s, a, a, p.erc20, amount).Some?
    ensures var s1 := ConvertERC20(s, a, a, p.erc20, amount).value;
            var back := ConvertCoin(s1, a, a, p.denom, amount);
            back.Some? ==> !SameBalances(s, back.value)
  {
    hide TokensBacked, CoinsBacked, BooksConsistent, IssuedUnderMetadata, EscrowAndMint, ReturnAndUnlock;
    UsableEitherWay(s, p, a);
    TokensAreSpent(s, p, a, amount);
    var s1 := ConvertERC20(s, a, a, p.erc20, amount).value;
    LookupFindsNamedPair(s1.registry, Resolve(p.denom));
    var back := ConvertCoin(s1, a, a, p.denom, amount);
    if back.Some? {
      var q := NamedPair(s1, p.denom).value;
      OthersHaveOtherContracts(s.registry, p, q.Id());
      if q.erc20 !in s1.tokens {
        assert q.Id() in s.registry.pairs && q.Id() !in back.value.registry.pairs;
      } else {
        assert back.value.tokens[p.erc20] == s1.tokens[p.erc20];
      }
    }
  }

  lemma TokensAreSpent(s: Chain, p: TokenPair, a: Address, amount: nat)
    requires Good(s, []) && Usable(s, p, a) && MintingEnabled(s, a, a, ByContract(p.erc20)) == Some(p)
    requires ConvertERC20(s, a, a, p.erc20, amount).Some?
    ensures var s1 := ConvertERC20(s, a, a, p.erc20, amount).value;
            && s1.registry == s.registry && p.erc20 in s1.tokens
            && s1.tokens[p.erc20].Of(a) < s.tokens[p.erc20].Of(a)
  {
  }

  // ---------------------------------------------------------------- what a conversion is, from outside

  /** Seen from any account but the module's, a conversion takes `amount` of
      one form from the sender and gives `amount` of the other to the receiver. */
  ghost predicate Exchanged(from0: Asset, from1: Asset, sender: Address, to0: Asset, to1: Asset, receiver: Address, amount: nat) {
    forall a :: a != MODULE ==>
      && from1.Of(a) == from0.Of(a) - (if a == sender then amount else 0)
      && to1.Of(a) == to0.Of(a) + (if a == receiver then amount else 0)
  }

  lemma CoinPathsExchange(b: Books, sender: Address, receiver: Address, amount: nat)
    requires sender != MODULE
    ensures EscrowAndMint(b, sender, receiver, amount).Some? ==>
              var b1 := EscrowAndMint(b, sender, receiver, amount).value;
              Exchanged(b.coin, b1.coin, sender, b.token, b1.token, receiver, amount)
    ensures HonestUnlock(b, sender, receiver, amount).Some? ==>
              var b1 := HonestUnlock(b, sender, receiver, amount).value;
              Exchanged(b.coin, b1.coin, sender, b.token, b1.token, receiver, amount)
  {
  }

  lemma TokenPathsExchange(b: Books, sender: Address, receiver: Address, amount: nat, blocked: set<Address>)
    requires sender != MODULE
    ensures BurnAndRelease(b, sender, receiver, amount, blocked).Some? ==>
              var b1 := BurnAndRelease(b, sender, receiver, amount, blocked).value;
              Exchanged(b.token, b1.token, sender, b.coin, b1.coin, receiver, amount)
    ensures HonestLock(b, sender, receiver, amount, blocked).Some? ==>
              var b1 := HonestLock(b, sender, receiver, amount, blocked).value;
              Exchanged(b.token, b1.token, sender, b.coin, b1.coin, receiver, amount)
  {
  }

  /** Both kinds of pairs convert coins one for one, and touch no other ledger
      than those of the message's coin and of the contract its name leads to. */
  lemma ConvertCoinExchanges(s: Chain, sender: Address, receiver: Address, denom: Denom, amount: nat)
    requires Good(s, []) && sender != MODULE
    requires ConvertCoin(s, sender, receiver, denom, amount).Some?
    ensures var s1 := ConvertCoin(s, sender, receiver, denom, amount).value;
            && NamedPair(s, denom).Some?
            && var p := NamedPair(s, denom).value;
               if p.erc20 !in s.tokens then s1 == PairDropped(s, p)
               else && p.erc20 in s1.tokens
                    && Exchanged(s.Coin(denom), s1.Coin(denom), sender, s.tokens[p.erc20], s1.tokens[p.erc20], receiver, amount)
                    && TouchesOnly(s, s1, p.(denom := denom))
  {
    hide EscrowAndMint, ReturnAndUnlock, HonestTransfer, Exchanged, TouchesOnly, WithBooks, TokensBacked, CoinsBacked, BooksConsistent, IssuedUnderMetadata;
    LookupFindsNamedPair(s.registry, Resolve(denom));
    var p := NamedPair(s, denom).value;
    var q := p.(denom := denom);
    if p.erc20 in s.tokens {
      CoinPathsExchange(BooksOf(s, q), sender, receiver, amount);
      var books := if p.owner == OwnerModule then EscrowAndMint(BooksOf(s, q), sender, receiver, amount)
                   else HonestUnlock(BooksOf(s, q), sender, receiver, amount);
      assert books.Some?;
      BooksTouchOnly(s, q, books.value);
    }
  }

  lemma ConvertERC20Exchanges(s: Chain, sender: Address, receiver: Address, contract: Contract, amount: nat)
    requires Good(s, []) && sender != MODULE
    requires ConvertERC20(s, sender, receiver, contract, amount).Some?
    ensures var s1 := ConvertERC20(s, sender, receiver, contract, amount).value;
            && contract in s.registry.byErc20 && s.registry.byErc20[contract] in s.registry.pairs
            && var p := s.registry.pairs[s.registry.byErc20[contract]];
               if contract !in s.tokens then s1 == PairDropped(s, p)
               else && contract in s1.tokens
                    && Exchanged(s.tokens[contract], s1.tokens[contract], sender, s.Coin(p.denom), s1.Coin(p.denom), receiver, amount)
                    && TouchesOnly(s, s1, p)
  {
    hide BurnAndRelease, LockAndIssue, HonestTransfer, Exchanged, TouchesOnly, WithBooks, TokensBacked, CoinsBacked, BooksConsistent, IssuedUnderMetadata;
    LookupFindsNamedPair(s.registry, ByContract(contract));
    var p := s.registry.pairs[s.registry.byErc20[contract]];
    if p.erc20 in s.tokens {
      TokenPathsExchange(BooksOf(s, p), sender, receiver, amount, s.blocked);
      var books := if p.owner == OwnerModule then BurnAndRelease(BooksOf(s, p), sender, receiver, amount, s.blocked)
                   else HonestLock(BooksOf(s, p), sender, receiver, amount, s.blocked);
      assert books.Some?;
      BooksTouchOnly(s, p, books.value);
    }
  }

  /** Sending tokens to the module in an EVM transaction does, through the hook,
      exactly what the conversion message does. */
  lemma HookRefinesMessage(s: Chain, p: TokenPair, a: Address, amount: nat)
    requires Good(s, []) && Usable(s, p, a) && s.enableHook
    requires ConvertERC20(s, a, a, p.erc20, amount).Some?
    ensures SameBalances(ConvertERC20(s, a, a, p.erc20, amount).value,
                         Apply(s, EvmTx([SendTokens(p.erc20, a, MODULE, amount)])))
  {
    hide Good, ConvertERC20, HookLog, SameBalances, Apply;
    UsableEitherWay(s, p, a);
    MessageBooks(s, p, a, amount);
    var op := SendTokens(p.erc20, a, MODULE, amount);
    var x := s.tokens[p.erc20];
    var s1 := s.(tokens := s.tokens[p.erc20 := Moved(x, a, MODULE, amount)]);
    var log := Transfer(p.erc20, a, MODULE, amount);
    OneOp(s, op, s1, log);
    HookOnOneTransfer(s, p, a, amount);
  }

  lemma OneOp(s: Chain, op: TokenOp, s1: Chain, log: Log)
    requires ApplyOp(s, op) == (s1, [log]) && s1.enableErc20 && s1.enableHook
    ensures Apply(s, EvmTx([op])) == HookLog(s1, log)
  {
    assert [op][..0] == [];
    assert ApplyOps(s, [op]) == (s1, [] + [log]);
    assert [] + [log] == [log] && [log][..0] == [];
    assert HookLogs(s1, [log]) == HookLog(HookLogs(s1, []), log);
  }

  lemma SameBooks(s: Chain, p: TokenPair, b1: Books, b2: Books)
    requires SameAsset(b1.coin, b2.coin) && SameAsset(b1.token, b2.token)
    ensures SameBalances(WithBooks(s, p, b1), WithBooks(s, p, b2))
  {
  }

  lemma MessageBooks(s: Chain, p: TokenPair, a: Address, amount: nat)
    requires p.erc20 in s.tokens && MintingEnabled(s, a, a, ByContract(p.erc20)) == Some(p)
    requires ConvertERC20(s, a, a, p.erc20, amount).Some?
    ensures a != MODULE && a != ZERO && 0 < amount <= s.tokens[p.erc20].Of(a)
    ensures var x, coin, s1 := s.tokens[p.erc20], s.Coin(p.denom), ConvertERC20(s, a, a, p.erc20, amount).value;
            match p.owner
            case OwnerModule =>
              && amount <= x.supply && amount <= coin.Of(MODULE)
              && s1 == WithBooks(s, p, Books(Moved(coin, MODULE, a, amount), Burned(x, a, amount)))
            case OwnerExternal =>
              s1 == WithBooks(s, p, Books(Moved(Minted(coin, MODULE, amount), MODULE, a, amount), Moved(x, a, MODULE, amount)))
            case OwnerUnspecified => false
  {
  }

  lemma HookOnOneTransfer(s: Chain, p: TokenPair, a: Address, amount: nat)
    requires Good(s, []) && Usable(s, p, a)
    requires MintingEnabled(s, a, a, ByContract(p.erc20)) == Some(p)
    requires ConvertERC20(s, a, a, p.erc20, amount).Some?
    ensures amount <= s.tokens[p.erc20].Of(a)
    ensures var s1 := s.(tokens := s.tokens[p.erc20 := Moved(s.tokens[p.erc20], a, MODULE, amount)]);
            SameBalances(ConvertERC20(s, a, a, p.erc20, amount).value, HookLog(s1, Transfer(p.erc20, a, MODULE, amount)))
  {
    hide Good, ConvertERC20, HookLog, WithBooks, SameBalances;
    MessageBooks(s, p, a, amount);
    var x, coin := s.tokens[p.erc20], s.Coin(p.denom);
    var y := Moved(x, a, MODULE, amount);
    if p.owner == OwnerModule {
      var released := Moved(coin, MODULE, a, amount);
      HookReleases(s, p, a, amount);
      SameBooks(s, p, Books(released, Burned(x, a, amount)), Books(released, Burned(y, MODULE, amount)));
    } else {
      HookIssues(s, p, a, amount);
      var b := Books(Moved(Minted(coin, MODULE, amount), MODULE, a, amount), y);
      SameBooks(s, p, b, b);
    }
  }

  lemma HookReleases(s: Chain, p: TokenPair, a: Address, amount: nat)
    requires p.erc20 in s.tokens && p.owner == OwnerModule && p.enabled && a !in s.blocked
    requires Lookup(s.registry, ByContract(p.erc20)) == Some(p)
    requires a != MODULE && 0 < amount <= s.tokens[p.erc20].Of(a) && amount <= s.tokens[p.erc20].supply
    requires amount <= s.Coin(p.denom).Of(MODULE)
    ensures var y := Moved(s.tokens[p.erc20], a, MODULE, amount);
            HookLog(s.(tokens := s.tokens[p.erc20 := y]), Transfer(p.erc20, a, MODULE, amount))
            == WithBooks(s, p, Books(Moved(s.Coin(p.denom), MODULE, a, amount), Burned(y, MODULE, amount)))
  {
  }

  lemma HookIssues(s: Chain, p: TokenPair, a: Address, amount: nat)
    requires p.erc20 in s.tokens && p.owner == OwnerExternal && p.enabled && a !in s.blocked
    requires Lookup(s.registry, ByContract(p.erc20)) == Some(p)
    requires a != MODULE && 0 < amount <= s.tokens[p.erc20].Of(a)
    ensures var y := Moved(s.tokens[p.erc20], a, MODULE, amount);
            HookLog(s.(tokens := s.tokens[p.erc20 := y]), Transfer(p.erc20, a, MODULE, amount))
            == WithBooks(s, p, Books(Moved(Minted(s.Coin(p.denom), MODULE, amount), MODULE, a, amount), y))
  {
    var y := Moved(s.tokens[p.erc20], a, MODULE, amount);
    var s1 := s.(tokens := s.tokens[p.erc20 := y]);
    var minted := Minted(s.Coin(p.denom), MODULE, amount);
    assert LogPair(s1, Transfer(p.erc20, a, MODULE, amount)) == Some(p) && s1.Coin(p.denom) == s.Coin(p.denom);
    var issued := Moved(minted, MODULE, a, amount);
    assert s.coins[p.denom := minted][p.denom := issued] == s.coins[p.denom := issued];
  }

  // ---------------------------------------------------------------- redeemability

  /** Whoever holds the converted form can always convert it back: the backing
      is there by solvency. */
  lemma HolderCanRedeem(s: Chain, p: TokenPair, holder: Address, receiver: Address, amount: nat)
    requires Good(s, []) && Usable(s, p, receiver) && amount > 0
    requires holder == receiver || p.denom !in s.sendDisabled
    ensures p.owner == OwnerModule && holder != ZERO && amount <= s.tokens[p.erc20].Of(holder)
            ==> ConvertERC20(s, holder, receiver, p.erc20, amount).Some?
    ensures p.owner == OwnerExternal && receiver != ZERO && amount <= s.Coin(p.denom).Of(holder)
            ==> ConvertCoin(s, holder, receiver, p.denom, amount).Some?
  {
    hide SumBy, TokensBacked, BooksConsistent, IssuedUnderMetadata, DenomsResolve;
    BooksAreSane(s, p);
    HolderWithinSupply(s.Coin(p.denom), holder);
    if p.owner == OwnerModule {
      HolderWithinSupply(s.tokens[p.erc20], holder);
      EscrowCoversToken(s, p);
    } else {
      assert p.owner == OwnerExternal && FoundByDenom(s, p);
      CreateDenomIsPlain(p.erc20);
      assert s.Coin(p.denom).supply + Credit([], p.erc20) <= s.tokens[p.erc20].Of(MODULE);
    }
  }

  /** Escrow covers each single token, since it covers their sum. */
  lemma EscrowCoversToken(s: Chain, p: TokenPair)
    requires TokensBacked(s) && Stored(s, p) && p.owner == OwnerModule && p.erc20 in s.tokens
    ensures s.tokens[p.erc20].supply <= s.Coin(p.denom).Of(MODULE)
  {
    hide SumBy;
    var l := Liabilities(s, p.denom);
    assert p.Id() in l && l[p.Id()] == s.tokens[p.erc20].supply;
    SumBoundsEntry(l, Itself, p.Id());
    assert Issued(s, p.denom) <= s.Coin(p.denom).Of(MODULE);
  }

  // ---------------------------------------------------------------- the name/base guard

  const COIN: Metadata := Metadata("ucoin", "Coin", "")

  function FirstPair(): TokenPair { TokenPair("c1", COIN.base, true, OwnerModule) }

  /** A chain on which one account holds five coins and nothing is registered. */
  function FiveCoins(): Chain {
    Chain(true, true, EMPTY_REGISTRY, map[], map[COIN.base := Asset(map["a" := 5], 5)], map[], {}, {MODULE}, {})
  }

  /** The coin is registered, converted, and registered again. */
  function Twice(): seq<Step> {
    [ProposeCoin(COIN, Some("c1")), MsgConvertCoin("a", "a", COIN.base, 5, Reverted), ProposeCoin(COIN, Some("c2"))]
  }

  lemma FiveCoinsGood()
    ensures Backed(FiveCoins())
  {
    hide SumBy, ReadsAs, TokensBacked;
    FiveOfOne();
    CoinIsPlain();
    NothingIssued(FiveCoins());
  }

  function OneRegistered(): Chain {
    FiveCoins().(metadata := map[COIN.base := COIN], tokens := map["c1" := EMPTY], deployed := {"c1"},
                 registry := Registered(EMPTY_REGISTRY, FirstPair()))
  }

  function AllConverted(): Chain {
    WithBooks(OneRegistered(), FirstPair(), Books(Moved(FiveCoins().Coin(COIN.base), "a", MODULE, 5), Minted(EMPTY, "a", 5)))
  }

  lemma RegistersOnce()
    ensures Apply(FiveCoins(), Twice()[0]) == OneRegistered()
  {
    assert !ContainsEvm(COIN.base);
  }

  lemma ConvertsAll()
    ensures Apply(OneRegistered(), Twice()[1]) == AllConverted()
  {
    assert ReadsAs(COIN.base).None?;
    assert NamedPair(OneRegistered(), COIN.base) == Some(FirstPair());
  }

  lemma RegistersTwice()
    ensures var s, p := Apply(AllConverted(), Twice()[2]), FirstPair();
            && Usable(s, p, "a") && s.tokens[p.erc20].Of("a") == 5
            && !NamedByDenom(s, p) && !DenomsComplete(s.registry)
  {
    assert ReadsAs(COIN.base).None?;
    var s := AllConverted();
    assert !ContainsEvm(COIN.base);
    assert s.Coin(COIN.base).supply == 5 && s.metadata == map[COIN.base := COIN];
    assert RegisterCoin(s, COIN, Some("c2")).Some?;
    assert !Named(RegisterCoin(s, COIN, Some("c2")).value.registry, FirstPair().Id());
  }

  lemma TwiceEnds()
    ensures AdmissibleRun(FiveCoins(), Twice())
    ensures Run(FiveCoins(), Twice()) == Apply(AllConverted(), Twice()[2])
  {
    hide Apply;
    var s, steps := FiveCoins(), Twice();
    RegistersOnce();
    ConvertsAll();
    assert steps[..2][..1] == steps[..1] && steps[..1][..0] == [];
    assert Run(s, steps[..1]) == OneRegistered() && Run(s, steps[..2]) == AllConverted();
    assert AdmissibleRun(s, steps[..1]) && AdmissibleRun(s, steps[..2]);
  }

  /** The registration guard misses a base that is already registered: the
      same coin, proposed twice, gets two pairs, and the first can no longer be
      found by its denomination. Its tokens still convert to coins, but those
      coins do not convert back. */
  lemma SecondRegistrationHidesFirst()
    ensures AdmissibleRun(FiveCoins(), Twice())
    ensures var s, p := Run(FiveCoins(), Twice()), FirstPair();
            && Backed(s) && Usable(s, p, "a") && !NamedByDenom(s, p) && !DenomsComplete(s.registry)
            && ConvertERC20(s, "a", "a", p.erc20, 5).Some?
            && var back := ConvertCoin(ConvertERC20(s, "a", "a", p.erc20, 5).value, "a", "a", p.denom, 5);
               !(back.Some? && SameBalances(s, back.value))
  {
    hide Good, PlainNames, Run, Apply, Usable, NamedByDenom, DenomsComplete, ConvertERC20, ConvertCoin, SameBalances;
    FiveCoinsGood();
    var p := FirstPair();
    TwiceEnds();
    RegistersTwice();
    var s := Run(FiveCoins(), Twice());
    RunGood(FiveCoins(), Twice());
    HolderCanRedeem(s, p, "a", "a", 5);
    TokenRoundTrip(s, p, "a", 5);
  }

  // ---------------------------------------------------------------- a coin that reads as a contract

  function PairAt(c: Contract): TokenPair { TokenPair(c, COIN.base, true, OwnerModule) }

  /** One account holds five coins called `d`; another coin is registered, its
      tokens at contract `c`, and none of it is converted. */
  function ForeignCoin(d: Denom, c: Contract): Chain {
    Chain(true, true, Registered(EMPTY_REGISTRY, PairAt(c)), map[COIN.base := COIN],
          map[d := Asset(map["a" := 5], 5)], map[c := EMPTY], {c}, {MODULE}, {})
  }

  /** The hypothesis on names is needed: if the coin reads as the contract,
      everything is backed, and one message mints five tokens of a coin of which
      none is in escrow. */
  lemma ForeignCoinIsNotCovered(d: Denom, c: Contract)
    requires ReadsAs(d) == Some(c)
    ensures var s, step := ForeignCoin(d, c), MsgConvertCoin("a", "a", d, 5, Reverted);
            && Good(s, []) && !PlainNames(s) && Admissible(s, step)
            && !TokensBacked(Apply(s, step))
  {
    hide Good, TokensBacked, ReadsAs, Apply;
    ForeignCoinGood(d, c);
    assert ForeignCoin(d, c).Coin(d).supply == 5;
    CoinIsPlain();
    ForeignCoinConverts(d, c);
    UncoveredToken(Apply(ForeignCoin(d, c), MsgConvertCoin("a", "a", d, 5, Reverted)), PairAt(c));
  }

  lemma ForeignCoinConverts(d: Denom, c: Contract)
    requires ReadsAs(d) == Some(c) && d != COIN.base
    ensures var s1 := Apply(ForeignCoin(d, c), MsgConvertCoin("a", "a", d, 5, Reverted));
            && Stored(s1, PairAt(c)) && c in s1.tokens && s1.tokens[c].supply == 5 && s1.Coin(COIN.base) == EMPTY
  {
    hide ReadsAs;
    var s, q := ForeignCoin(d, c), PairAt(c).(denom := d);
    assert MintingEnabled(s, "a", "a", Resolve(d)) == Some(PairAt(c));
    var b := EscrowAndMint(BooksOf(s, q), "a", "a", 5);
    assert b == Some(Books(Moved(s.Coin(d), "a", MODULE, 5), Minted(EMPTY, "a", 5)));
    assert Apply(s, MsgConvertCoin("a", "a", d, 5, Reverted)) == WithBooks(s, q, b.value);
  }

  lemma UncoveredToken(s: Chain, p: TokenPair)
    requires Stored(s, p) && p.owner == OwnerModule && p.erc20 in s.tokens
    requires s.tokens[p.erc20].supply > s.Coin(p.denom).Of(MODULE)
    ensures !TokensBacked(s)
  {
    if TokensBacked(s) {
      EscrowCoversToken(s, p);
    }
  }

  lemma CoinIsPlain()
    ensures ReadsAs(COIN.base).None?
  {
  }

  /** Forty digits read as a contract. */
  lemma SomeNameReadsAsContract()
    ensures exists d: Denom, c: Contract :: ReadsAs(d) == Some(c)
  {
    var d := seq(40, _ => 'a');
    assert Digits(d) == d;
    assert ReadsAs(d).Some?;
    assert ReadsAs(d) == Some(ReadsAs(d).value);
  }

  lemma FiveOfOne()
    ensures Asset(map["a" := 5], 5).Consistent()
  {
    SumUpdate<Address, int>(map[], Itself, "a", 5);
  }

  lemma ForeignCoinGood(d: Denom, c: Contract)
    requires ReadsAs(d) == Some(c)
    ensures Good(ForeignCoin(d, c), [])
  {
    hide SumBy, ReadsAs, TokensBacked;
    var s := ForeignCoin(d, c);
    RegisterLaw(EMPTY_REGISTRY, PairAt(c));
    FiveOfOne();
    EmptyIsConsistent();
    NothingIssued(s);
    forall e ensures s.Coin(CreateDenom(e)).supply == 0 {
      CreateDenomIsPlain(e);
    }
  }

  lemma NothingIssued(s: Chain)
    requires forall id :: id in s.registry.pairs && s.registry.pairs[id].owner == OwnerModule && s.registry.pairs[id].erc20 in s.tokens
               ==> s.tokens[s.registry.pairs[id].erc20].supply == 0
    ensures TokensBacked(s)
  {
    hide SumBy;
    forall d ensures Issued(s, d) <= s.Coin(d).Of(MODULE) {
      SumZero(Liabilities(s, d));
    }
  }

  // ---------------------------------------------------------------- a contract that takes too much

  function ExternalPair(): TokenPair { TokenPair("c", CreateDenom("c"), true, OwnerExternal) }

  /** Five coins of an external contract, backed by five tokens. */
  function FiveIssued(): Chain {
    var p := ExternalPair();
    Chain(true, true, Registered(EMPTY_REGISTRY, p), map[p.denom := Metadata(p.denom, p.denom, "")],
          map[p.denom := Asset(map["a" := 5], 5)], map["c" := Asset(map[MODULE := 5], 5)], {}, {MODULE}, {})
  }

  /** Asked to release three tokens, the contract takes all five. */
  const GREEDY: Call := Returned(true, false, Asset(map["a" := 3], 3))

  /** The message accepts the answer, and two coins are left that nothing backs. */
  lemma GreedyAnswerIsAccepted()
    ensures var s, p := FiveIssued(), ExternalPair();
            && Backed(s)
            && var r := ConvertCoinWith(s, "a", "a", p.denom, 3, GREEDY);
               r.Some? && !FairFor(s, p.denom, 3, GREEDY) && !CoinsBacked(r.value, [])
  {
    hide Backed, ConvertCoinWith, ReadsAs, CoinsBacked;
    FiveIssuedBacked();
    CreateDenomIsPlain("c");
    GreedyConverts();
    UncoveredCoin(ConvertCoinWith(FiveIssued(), "a", "a", ExternalPair().denom, 3, GREEDY).value, ExternalPair());
  }

  lemma GreedyConverts()
    ensures var p := ExternalPair();
            var r := ConvertCoinWith(FiveIssued(), "a", "a", p.denom, 3, GREEDY);
            && r.Some? && Stored(r.value, p) && p.erc20 in r.value.tokens
            && r.value.Coin(p.denom).supply == 2 && r.value.tokens[p.erc20].Of(MODULE) == 0
  {
    hide ReadsAs;
    var s, p := FiveIssued(), ExternalPair();
    CreateDenomIsPlain("c");
    assert MintingEnabled(s, "a", "a", Resolve(p.denom)) == Some(p);
    var b := ReturnAndUnlock(BooksOf(s, p), "a", "a", 3, GREEDY);
    assert b == Some(Books(Burned(Moved(s.Coin(p.denom), "a", MODULE, 3), MODULE, 3), GREEDY.after));
    assert ConvertCoinWith(s, "a", "a", p.denom, 3, GREEDY) == Some(WithBooks(s, p, b.value));
  }

  lemma UncoveredCoin(s: Chain, p: TokenPair)
    requires Stored(s, p) && p.owner == OwnerExternal && p.erc20 in s.tokens
    requires s.Coin(p.denom).supply > s.tokens[p.erc20].Of(MODULE)
    ensures !CoinsBacked(s, [])
  {
    assert s.Coin(p.denom).supply + Credit([], p.erc20) > s.tokens[p.erc20].Of(MODULE);
  }

  lemma FiveIssuedBacked()
    ensures Backed(FiveIssued())
  {
    hide SumBy, ReadsAs, TokensBacked;
    var s, p := FiveIssued(), ExternalPair();
    RegisterLaw(EMPTY_REGISTRY, p);
    FiveOfOne();
    CreateDenomIsPlain("c");
    NothingIssued(s);
  }
}
