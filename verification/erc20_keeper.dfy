/** The erc20 keeper as the module runs it: ordered updates of two ledgers with
    balance checks after the fact, a log loop that carries on after failures. */
module Erc20Keeper {
  import opened Common
  import opened Erc20Assets
  import opened Erc20Registry
  import opened Erc20Conversion

  /** In `r1` both names of `p` lead to it, every other name where it led in `r`. */
  ghost predicate GivesNames(r: Registry, r1: Registry, p: TokenPair) {
    forall key :: Lookup(r1, key)
                  == if key == ByContract(p.erc20) || key == ByDenom(p.denom) then Some(p) else Lookup(r, key)
  }

  ghost predicate FlipsUnder(r: Registry, r1: Registry, key: TokenKey)
    requires Lookup(r, key).Some?
  {
    var p := Lookup(r, key).value;
    forall k :: Lookup(r1, k) == if Lookup(r, k) == Some(p) then Some(p.(enabled := !p.enabled)) else Lookup(r, k)
  }

  lemma NewPairNames(r: Registry, p: TokenPair)
    ensures Sound(r) && p.erc20 !in r.byErc20 ==> GivesNames(r, Registered(r, p), p)
  {
    if Sound(r) && p.erc20 !in r.byErc20 {
      RegisteredNames(r, p);
    }
  }

  lemma ToggleFlips(r: Registry, key: TokenKey)
    requires Lookup(r, key).Some?
    ensures var p := Lookup(r, key).value;
            Sound(r) ==> p.Id() in r.pairs && r.pairs[p.Id()] == p && FlipsUnder(r, Toggled(r, p.Id()), key)
  {
    if Sound(r) {
      LookupFindsNamedPair(r, key);
      ToggledNames(r, key);
    }
  }

  class Keeper {
    var enableErc20: bool
    var enableHook: bool
    var pairs: map<PairId, TokenPair>
    var byErc20: map<Contract, PairId>
    var byDenom: map<Denom, PairId>
    var metadata: map<Denom, Metadata>
    var coins: map<Denom, Asset>
    var tokens: map<Contract, Asset>
    var deployed: set<Contract>
    const blocked: set<Address>
    const sendDisabled: set<Denom>

    constructor (s: Chain)
      ensures State() == s
    {
      enableErc20, enableHook := s.enableErc20, s.enableHook;
      pairs, byErc20, byDenom := s.registry.pairs, s.registry.byErc20, s.registry.byDenom;
      metadata, coins, tokens, deployed := s.metadata, s.coins, s.tokens, s.deployed;
      blocked, sendDisabled := s.blocked, s.sendDisabled;
    }

    function State(): Chain
      reads this
    {
      Chain(enableErc20, enableHook, Registry(pairs, byErc20, byDenom), metadata, coins, tokens,
            deployed, blocked, sendDisabled)
    }

    function Coin(d: Denom): Asset
      reads this
    {
      if d in coins then coins[d] else EMPTY
    }

    // -------------------------------------------------------------- bank and EVM calls

    method SendCoins(d: Denom, from: Address, to: Address, amount: int) returns (ok: bool)
      modifies this`coins
      ensures ok == (0 < amount <= old(Coin(d)).Of(from))
      ensures coins == if ok then old(coins)[d := Moved(old(Coin(d)), from, to, amount)] else old(coins)
    {
      if amount <= 0 || Coin(d).Of(from) < amount {
        return false;
      }
      coins := coins[d := Moved(Coin(d), from, to, amount)];
      return true;
    }

    method SendCoinsFromModuleToAccount(d: Denom, to: Address, amount: int) returns (ok: bool)
      modifies this`coins
      ensures ok == (to !in blocked && 0 < amount <= old(Coin(d)).Of(MODULE))
      ensures coins == if ok then old(coins)[d := Moved(old(Coin(d)), MODULE, to, amount)] else old(coins)
    {
      if to in blocked {
        return false;
      }
      ok := SendCoins(d, MODULE, to, amount);
    }

    method BurnTokens(c: Contract, from: Address, amount: nat) returns (ok: bool)
      modifies this`tokens
      ensures c !in old(tokens) ==> ok && tokens == old(tokens)
      ensures c in old(tokens) ==>
                && ok == TokenBurn(old(tokens)[c], from, amount).Some?
                && tokens == if ok then old(tokens)[c := TokenBurn(old(tokens)[c], from, amount).value] else old(tokens)
    {
      if c !in tokens {
        return true;
      }
      var r := TokenBurn(tokens[c], from, amount);
      if r.Some? {
        tokens := tokens[c := r.value];
      }
      return r.Some?;
    }

    // -------------------------------------------------------------- msg_server.go

    /** Case 1.1. On failure the writes so far stay and the caller discards them. */
    method ConvertCoinNativeCoin(p: TokenPair, denom: Denom, sender: Address, receiver: Address, amount: nat) returns (ok: bool)
      requires p.erc20 in tokens
      modifies this`coins, this`tokens
      ensures var q := p.(denom := denom);
              && ok == EscrowAndMint(old(BooksOf(State(), q)), sender, receiver, amount).Some?
              && (ok ==> State() == WithBooks(old(State()), q, EscrowAndMint(old(BooksOf(State(), q)), sender, receiver, amount).value))
    {
      var balanceToken := tokens[p.erc20].Of(receiver);
      var sent := SendCoins(denom, sender, MODULE, amount);
      if !sent {
        return false;
      }
      var minted := TokenMint(tokens[p.erc20], receiver, amount);
      if minted.None? {
        return false;
      }
      tokens := tokens[p.erc20 := minted.value];
      var balanceTokenAfter := tokens[p.erc20].Of(receiver);
      if balanceTokenAfter != balanceToken + amount {
        return false;
      }
      return true;
    }

    /** Case 1.2. */
    method ConvertERC20NativeCoin(p: TokenPair, sender: Address, receiver: Address, amount: nat) returns (ok: bool)
      requires p.erc20 in tokens
      modifies this`coins, this`tokens
      ensures ok == BurnAndRelease(old(BooksOf(State(), p)), sender, receiver, amount, blocked).Some?
      ensures ok ==> State() == WithBooks(old(State()), p, BurnAndRelease(old(BooksOf(State(), p)), sender, receiver, amount, blocked).value)
    {
      var balanceCoin := Coin(p.denom).Of(receiver);
      var balanceToken := tokens[p.erc20].Of(sender);
      var burned := BurnTokens(p.erc20, sender, amount);
      if !burned {
        return false;
      }
      var sent := SendCoinsFromModuleToAccount(p.denom, receiver, amount);
      if !sent {
        return false;
      }
      var balanceCoinAfter := Coin(p.denom).Of(receiver);
      if balanceCoinAfter != balanceCoin + amount {
        return false;
      }
      var balanceTokenAfter := tokens[p.erc20].Of(sender);
      if balanceTokenAfter != balanceToken - amount {
        return false;
      }
      return true;
    }

    /** Case 2.1. `call` is what the sender's transfer to the module does. */
    method ConvertERC20NativeToken(p: TokenPair, receiver: Address, amount: nat, call: Call) returns (ok: bool)
      requires p.erc20 in tokens
      modifies this`coins, this`tokens
      ensures ok == LockAndIssue(old(BooksOf(State(), p)), receiver, amount, blocked, call).Some?
      ensures ok ==> State() == WithBooks(old(State()), p, LockAndIssue(old(BooksOf(State(), p)), receiver, amount, blocked, call).value)
    {
      var balanceCoin := Coin(p.denom).Of(receiver);
      var balanceToken := tokens[p.erc20].Of(MODULE);
      if call.Reverted? {
        return false;
      }
      tokens := tokens[p.erc20 := call.after];
      if !call.value {
        return false;
      }
      var balanceTokenAfter := tokens[p.erc20].Of(MODULE);
      if balanceTokenAfter != balanceToken + amount {
        return false;
      }
      if amount == 0 {
        return false;
      }
      coins := coins[p.denom := Minted(Coin(p.denom), MODULE, amount)];
      var sent := SendCoinsFromModuleToAccount(p.denom, receiver, amount);
      if !sent {
        return false;
      }
      var balanceCoinAfter := Coin(p.denom).Of(receiver);
      if balanceCoinAfter != balanceCoin + amount {
        return false;
      }
      if call.approval {
        return false;
      }
      return true;
    }

    /** Case 2.2. `call` is what the module's transfer to the receiver does. */
    method ConvertCoinNativeERC20(p: TokenPair, denom: Denom, sender: Address, receiver: Address, amount: nat, call: Call)
      returns (ok: bool)
      requires p.erc20 in tokens
      modifies this`coins, this`tokens
      ensures var q := p.(denom := denom);
              && ok == ReturnAndUnlock(old(BooksOf(State(), q)), sender, receiver, amount, call).Some?
              && (ok ==> State() == WithBooks(old(State()), q, ReturnAndUnlock(old(BooksOf(State(), q)), sender, receiver, amount, call).value))
    {
      var balanceToken := tokens[p.erc20].Of(receiver);
      var sent := SendCoins(denom, sender, MODULE, amount);
      if !sent {
        return false;
      }
      if call.Reverted? {
        return false;
      }
      tokens := tokens[p.erc20 := call.after];
      if !call.value {
        return false;
      }
      var balanceTokenAfter := tokens[p.erc20].Of(receiver);
      if balanceTokenAfter != balanceToken + amount {
        return false;
      }
      if Coin(denom).supply < amount {
        return false;
      }
      coins := coins[denom := Burned(Coin(denom), MODULE, amount)];
      if call.approval {
        return false;
      }
      return true;
    }

    method DeleteTokenPair(p: TokenPair)
      modifies this`pairs, this`byErc20, this`byDenom
      ensures Registry(pairs, byErc20, byDenom) == Deleted(old(Registry(pairs, byErc20, byDenom)), p)
    {
      pairs := pairs - {p.Id()};
      byErc20 := byErc20 - {p.erc20};
      byDenom := byDenom - {p.denom};
    }

    /** The message as a transaction: a failure discards its writes. The coins
        are the message's own, whatever pair its denomination leads to. */
    method ConvertCoin(sender: Address, receiver: Address, denom: Denom, amount: nat, call: Call) returns (ok: bool)
      modifies this
      ensures ok == old(ConvertCoinWith(State(), sender, receiver, denom, amount, call)).Some?
      ensures State() == if ok then old(ConvertCoinWith(State(), sender, receiver, denom, amount, call)).value else old(State())
    {
      var m := MintingEnabled(State(), sender, receiver, Resolve(denom));
      if m.None? {
        return false;
      }
      var p := m.value;
      if p.erc20 !in tokens {
        DeleteTokenPair(p);
        return true;
      }
      var savedCoins, savedTokens := coins, tokens;
      match p.owner {
        case OwnerModule => ok := ConvertCoinNativeCoin(p, denom, sender, receiver, amount);
        case OwnerExternal => ok := ConvertCoinNativeERC20(p, denom, sender, receiver, amount, call);
        case OwnerUnspecified => ok := false;
      }
      if !ok {
        coins, tokens := savedCoins, savedTokens;
      }
    }

    method ConvertERC20(sender: Address, receiver: Address, contract: Contract, amount: nat, call: Call) returns (ok: bool)
      modifies this
      ensures ok == old(ConvertERC20With(State(), sender, receiver, contract, amount, call)).Some?
      ensures State() == if ok then old(ConvertERC20With(State(), sender, receiver, contract, amount, call)).value else old(State())
    {
      var m := MintingEnabled(State(), sender, receiver, ByContract(contract));
      if m.None? {
        return false;
      }
      var p := m.value;
      if p.erc20 !in tokens {
        DeleteTokenPair(p);
        return true;
      }
      var savedCoins, savedTokens := coins, tokens;
      match p.owner {
        case OwnerModule => ok := ConvertERC20NativeCoin(p, sender, receiver, amount);
        case OwnerExternal => ok := ConvertERC20NativeToken(p, receiver, amount, call);
        case OwnerUnspecified => ok := false;
      }
      if !ok {
        coins, tokens := savedCoins, savedTokens;
      }
    }

    // -------------------------------------------------------------- evm_hooks.go

    method PostTxProcessing(logs: seq<Log>)
      modifies this`coins, this`tokens
      ensures State() == PostTx(old(State()), logs)
    {
      if !enableErc20 || !enableHook {
        return;
      }
      ghost var start := State();
      for i := 0 to |logs|
        invariant State() == HookLogs(start, logs[..i])
      {
        assert logs[..i + 1][..i] == logs[..i];
        ProcessLog(logs[i]);
      }
      assert logs[..|logs|] == logs;
    }

    /** One turn of the loop; every failure leaves what was done so far. */
    method ProcessLog(log: Log)
      modifies this`coins, this`tokens
      ensures State() == HookLog(old(State()), log)
    {
      if log.OtherEvent? || log.amount == 0 {
        return;
      }
      if log.contract !in byErc20 {
        return;
      }
      var id := byErc20[log.contract];
      if id !in pairs {
        return;
      }
      var p := pairs[id];
      if log.to != MODULE {
        return;
      }
      if !p.enabled {
        return;
      }
      match p.owner {
        case OwnerModule =>
          var burned := BurnTokens(log.contract, MODULE, log.amount);
          if !burned {
            return;
          }
        case OwnerExternal =>
          coins := coins[p.denom := Minted(Coin(p.denom), MODULE, log.amount)];
        case OwnerUnspecified =>
          return;
      }
      var _ := SendCoinsFromModuleToAccount(p.denom, log.from, log.amount);
    }

    // -------------------------------------------------------------- proposals.go

    method SetPair(p: TokenPair)
      modifies this`pairs, this`byErc20, this`byDenom
      ensures Registry(pairs, byErc20, byDenom) == Registered(old(Registry(pairs, byErc20, byDenom)), p)
    {
      pairs := pairs[p.Id() := p];
      byDenom := byDenom[p.denom := p.Id()];
      byErc20 := byErc20[p.erc20 := p.Id()];
    }

    /** As a transaction; `deployment` is the address it yields, absent when it
        fails. A new contract's pair gets its two names, no other name changes. */
    method RegisterCoin(meta: Metadata, deployment: Option<Contract>) returns (ok: bool)
      modifies this
      ensures ok == old(Erc20Conversion.RegisterCoin(State(), meta, deployment)).Some?
      ensures State() == if ok then old(Erc20Conversion.RegisterCoin(State(), meta, deployment)).value else old(State())
      ensures ok && old(Sound(State().registry)) && deployment.value !in old(byErc20) ==>
                GivesNames(old(State().registry), State().registry, TokenPair(deployment.value, meta.base, true, OwnerModule))
    {
      if !enableErc20 {
        return false;
      }
      if ContainsEvm(meta.base) {
        return false;
      }
      if meta.name in byDenom {
        return false;
      }
      if Coin(meta.base).supply == 0 {
        return false;
      }
      var savedMetadata := metadata;
      if meta.base !in metadata {
        metadata := metadata[meta.base := meta];
      } else if metadata[meta.base] != meta {
        return false;
      }
      assert metadata == old(metadata)[meta.base := meta];
      if deployment.None? {
        metadata := savedMetadata;
        return false;
      }
      var contract := deployment.value;
      tokens := tokens[contract := EMPTY];
      deployed := deployed + {contract};
      var p := TokenPair(contract, meta.base, true, OwnerModule);
      SetPair(p);
      NewPairNames(old(State().registry), p);
      return true;
    }

    /** A registered contract's pair has two names, its address and the
        denomination made of it, and no other name changes; nothing else does
        but the metadata of that denomination. */
    method RegisterERC20(contract: Contract, details: Option<string>) returns (ok: bool)
      modifies this
      ensures ok == old(Erc20Conversion.RegisterERC20(State(), contract, details)).Some?
      ensures State() == if ok then old(Erc20Conversion.RegisterERC20(State(), contract, details)).value else old(State())
      ensures ok && old(Sound(State().registry)) ==>
                GivesNames(old(State().registry), State().registry, TokenPair(contract, CreateDenom(contract), true, OwnerExternal))
      ensures coins == old(coins) && tokens == old(tokens)
      ensures forall d :: d != CreateDenom(contract) ==> (d in metadata <==> d in old(metadata)) && (d in metadata ==> metadata[d] == old(metadata)[d])
      ensures ok ==> CreateDenom(contract) !in old(metadata) && CreateDenom(contract) in metadata
    {
      if !enableErc20 {
        return false;
      }
      if contract in byErc20 {
        return false;
      }
      var denom := CreateDenom(contract);
      if details.None? || denom in metadata || denom in byDenom {
        return false;
      }
      metadata := metadata[denom := Metadata(denom, denom, details.value)];
      var p := TokenPair(contract, denom, true, OwnerExternal);
      SetPair(p);
      NewPairNames(old(State().registry), p);
      return true;
    }

    /** The flipped flag is seen under every name of the pair, and no other
        name leads anywhere else than before. */
    method ToggleConversion(token: string) returns (ok: bool)
      modifies this`pairs
      ensures ok == old(Erc20Conversion.ToggleConversion(State(), token)).Some?
      ensures State() == if ok then old(Erc20Conversion.ToggleConversion(State(), token)).value else old(State())
      ensures ok && old(Sound(State().registry)) ==> FlipsUnder(old(State().registry), State().registry, Resolve(token))
    {
      var key := Resolve(token);
      var p := Lookup(State().registry, key);
      if p.None? {
        return false;
      }
      ToggleFlips(State().registry, key);
      var toggled := p.value.(enabled := !p.value.enabled);
      pairs := pairs[toggled.Id() := toggled];
      return true;
    }
  }
}
