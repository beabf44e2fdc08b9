/** When each message, proposal and log of the erc20 module takes effect, told
    from outside: in terms of the chain and of what is asked for. */
module Erc20Effects {
  import opened Common
  import opened Erc20Assets
  import opened Erc20Registry
  import opened Erc20Conversion
  import opened Erc20Solvency
  import opened Erc20Runs

  // ---------------------------------------------------------------- messages

  /** The module is on, the pair is on, the receiver may receive, and coins of
      the pair may be sent to others if the receiver is another. */
  predicate Allowed(s: Chain, p: TokenPair, sender: Address, receiver: Address) {
    && s.enableErc20 && p.enabled && receiver !in s.blocked
    && (sender == receiver || p.denom !in s.sendDisabled)
  }

  /** No message goes through unless its pair is found and allowed, whatever
      the contract answers. */
  lemma MessagesAreGuarded(s: Chain, sender: Address, receiver: Address, denom: Denom, contract: Contract, amount: nat, call: Call)
    ensures ConvertCoinWith(s, sender, receiver, denom, amount, call).Some? ==>
              NamedPair(s, denom).Some? && Allowed(s, NamedPair(s, denom).value, sender, receiver)
    ensures ConvertERC20With(s, sender, receiver, contract, amount, call).Some? ==>
              && Lookup(s.registry, ByContract(contract)).Some?
              && Allowed(s, Lookup(s.registry, ByContract(contract)).value, sender, receiver)
  {
  }

  /** A contract's answer is accepted: the call did not revert, returned true
      and emitted no approval, and the contract reports that `a` gained the amount. */
  predicate Credits(x: Asset, a: Address, amount: nat, call: Call) {
    call.Returned? && call.value && !call.approval && call.after.Of(a) == x.Of(a) + amount
  }

  /** With an external contract, a message goes through exactly when it is
      allowed and the contract's answer is accepted: that the receiver gained
      the tokens, or that the module did. */
  lemma AnswersAreChecked(s: Chain, p: TokenPair, sender: Address, receiver: Address, denom: Denom, amount: nat, call: Call)
    requires Sound(s.registry) && Stored(s, p) && p.owner == OwnerExternal && p.erc20 in s.tokens
    ensures NamedPair(s, denom) == Some(p) ==>
              (ConvertCoinWith(s, sender, receiver, denom, amount, call).Some? <==>
                && Allowed(s, p, sender, receiver) && 0 < amount <= s.Coin(denom).Of(sender) && amount <= s.Coin(denom).supply
                && Credits(s.tokens[p.erc20], receiver, amount, call))
    ensures ConvertERC20With(s, sender, receiver, p.erc20, amount, call).Some? <==>
              Allowed(s, p, sender, receiver) && amount > 0 && Credits(s.tokens[p.erc20], MODULE, amount, call)
  {
    hide Resolve;
  }

  /** Coins convert exactly when the pair is found and allowed and, unless its
      contract is gone, the sender has the coins and the contract can give the
      tokens: mint them without overflow, or release them from what the module
      holds to somebody else. */
  lemma ConvertCoinSucceedsIff(s: Chain, sender: Address, receiver: Address, denom: Denom, amount: nat)
    ensures ConvertCoin(s, sender, receiver, denom, amount).Some? <==>
              && NamedPair(s, denom).Some?
              && var p := NamedPair(s, denom).value;
                 && Allowed(s, p, sender, receiver)
                 && (p.erc20 in s.tokens ==>
                      && 0 < amount <= s.Coin(denom).Of(sender) && receiver != ZERO
                      && match p.owner
                         case OwnerModule => s.tokens[p.erc20].supply + amount < 0x1_0000000000000000_0000000000000000_0000000000000000_0000000000000000
                         case OwnerExternal =>
                           amount <= s.tokens[p.erc20].Of(MODULE) && receiver != MODULE && amount <= s.Coin(denom).supply
                         case OwnerUnspecified => false)
  {
    hide Resolve;
  }

  /** Tokens convert exactly when the pair is found and allowed and, unless its
      contract is gone, the sender has the tokens and the coins can be given:
      released from escrow, or minted. */
  lemma ConvertERC20SucceedsIff(s: Chain, sender: Address, receiver: Address, contract: Contract, amount: nat)
    requires Sound(s.registry)
    ensures ConvertERC20(s, sender, receiver, contract, amount).Some? <==>
              && contract in s.registry.byErc20
              && var p := s.registry.pairs[s.registry.byErc20[contract]];
                 && Allowed(s, p, sender, receiver)
                 && (contract in s.tokens ==>
                      && 0 < amount <= s.tokens[contract].Of(sender) && sender != ZERO
                      && match p.owner
                         case OwnerModule =>
                           amount <= s.tokens[contract].supply && amount <= s.Coin(p.denom).Of(MODULE) && receiver != MODULE
                         case OwnerExternal => sender != MODULE
                         case OwnerUnspecified => false)
  {
  }

  // ---------------------------------------------------------------- the hook

  /** The log reports a transfer of tokens to the module, of a registered
      contract whose pair is on. */
  predicate Converts(s: Chain, log: Log)
    requires Sound(s.registry)
  {
    && log.Transfer? && log.amount > 0 && log.to == MODULE
    && log.contract in s.registry.byErc20 && s.registry.pairs[s.registry.byErc20[log.contract]].enabled
  }

  /** Any other log does nothing. */
  lemma OtherLogsDoNothing(s: Chain, log: Log)
    requires Sound(s.registry) && !Converts(s, log)
    ensures HookLog(s, log) == s
  {
  }

  /** For a coin's token, what was received is burned, if the module has it, and
      as many coins leave escrow for the sender of the tokens, if they are there
      and the sender is not blocked. */
  lemma LogOfModuleToken(s: Chain, log: Log)
    requires Sound(s.registry) && Converts(s, log) && log.contract in s.tokens
    requires s.registry.pairs[s.registry.byErc20[log.contract]].owner == OwnerModule
    ensures var p, s1, x := s.registry.pairs[s.registry.byErc20[log.contract]], HookLog(s, log), s.tokens[log.contract];
            if log.amount > x.Of(MODULE) || log.amount > x.supply then s1 == s
            else
              && s1 == s.(coins := s1.coins, tokens := s.tokens[log.contract := Burned(x, MODULE, log.amount)])
              && if log.from in s.blocked || log.amount > s.Coin(p.denom).Of(MODULE) then s1.coins == s.coins
                 else s1.coins == s.coins[p.denom := Moved(s.Coin(p.denom), MODULE, log.from, log.amount)]
  {
  }

  /** For an external token, as many coins are minted, and sent on to the sender
      of the tokens unless that is blocked. */
  lemma LogOfExternalToken(s: Chain, log: Log)
    requires Sound(s.registry) && Converts(s, log)
    requires s.registry.pairs[s.registry.byErc20[log.contract]].owner == OwnerExternal
    ensures var p, s1 := s.registry.pairs[s.registry.byErc20[log.contract]], HookLog(s, log);
            var minted := Minted(s.Coin(p.denom), MODULE, log.amount);
            && s1 == s.(coins := s1.coins)
            && s1.coins == s.coins[p.denom := if log.from in s.blocked then minted else Moved(minted, MODULE, log.from, log.amount)]
  {
  }

  /** Switched off, by either parameter, the hook does nothing; switched on, it
      goes through the logs one by one. */
  lemma HookSwitch(s: Chain, logs: seq<Log>, log: Log)
    ensures !(s.enableErc20 && s.enableHook) ==> PostTx(s, logs) == s
    ensures PostTx(s, []) == s
    ensures s.enableErc20 && s.enableHook ==> PostTx(s, logs + [log]) == HookLog(PostTx(s, logs), log)
  {
    assert (logs + [log])[..|logs|] == logs;
  }

  // ---------------------------------------------------------------- proposals

  /** A coin is registered exactly when the module is on, its name is not a
      registered denomination, "evm" is nowhere in its base, it has a supply,
      other metadata is not known of it, and the deployment succeeds. It gets
      an empty contract of the module, and no coin moves. */
  lemma RegisterCoinEffect(s: Chain, meta: Metadata, deployment: Option<Contract>)
    ensures RegisterCoin(s, meta, deployment).Some? <==>
              && s.enableErc20 && meta.name !in s.registry.byDenom
              && (forall before, after :: meta.base != before + "evm" + after)
              && s.Coin(meta.base).supply > 0
              && (meta.base in s.metadata ==> s.metadata[meta.base] == meta)
              && deployment.Some?
    ensures RegisterCoin(s, meta, deployment).Some? ==>
              var s1, c := RegisterCoin(s, meta, deployment).value, deployment.value;
              && s1 == s.(registry := s1.registry, metadata := s1.metadata, tokens := s1.tokens, deployed := s1.deployed)
              && s1.metadata == s.metadata[meta.base := meta]
              && s1.tokens == s.tokens[c := Asset(map[], 0)] && s1.deployed == s.deployed + {c}
              && Lookup(s1.registry, ByContract(c)) == Some(TokenPair(c, meta.base, true, OwnerModule))
              && Lookup(s1.registry, ByDenom(meta.base)) == Some(TokenPair(c, meta.base, true, OwnerModule))
  {
    ContainsEvmIff(meta.base);
  }

  lemma ContainsEvmIff(d: Denom)
    ensures ContainsEvm(d) <==> exists before, after :: d == before + "evm" + after
  {
    if ContainsEvm(d) {
      var i :| 0 <= i < |d| - 2 && d[i] == 'e' && d[i + 1] == 'v' && d[i + 2] == 'm';
      assert d == d[..i] + "evm" + d[i + 3..];
    }
    if before, after :| d == before + "evm" + after {
      var i := |before|;
      assert d[i] == 'e' && d[i + 1] == 'v' && d[i + 2] == 'm';
    }
  }

  /** A contract is registered exactly when the module is on, it is not
      registered yet, it answers about itself, and neither metadata nor a pair
      of its denomination exists. No coin and no token moves. */
  lemma RegisterERC20Effect(s: Chain, c: Contract, details: Option<string>)
    ensures RegisterERC20(s, c, details).Some? <==>
              && s.enableErc20 && c !in s.registry.byErc20 && details.Some?
              && "erc20/" + c !in s.metadata && "erc20/" + c !in s.registry.byDenom
    ensures RegisterERC20(s, c, details).Some? ==>
              var s1, d := RegisterERC20(s, c, details).value, "erc20/" + c;
              && s1 == s.(registry := s1.registry, metadata := s1.metadata)
              && s1.metadata == s.metadata[d := Metadata(d, d, details.value)]
              && Lookup(s1.registry, ByContract(c)) == Some(TokenPair(c, d, true, OwnerExternal))
              && Lookup(s1.registry, ByDenom(d)) == Some(TokenPair(c, d, true, OwnerExternal))
  {
  }

  /** Toggling works exactly on registered names, and a pair that is switched
      off converts neither coins nor tokens nor logs. */
  lemma ToggledOff(s: Chain, token: string, sender: Address, receiver: Address, amount: nat, call: Call, log: Log)
    requires Sound(s.registry)
    ensures ToggleConversion(s, token).Some? <==> Lookup(s.registry, Resolve(token)).Some?
    ensures ToggleConversion(s, token).Some? && Lookup(s.registry, Resolve(token)).value.enabled ==>
              var s1, p := ToggleConversion(s, token).value, Lookup(s.registry, Resolve(token)).value;
              && (forall d :: NamedPair(s, d) == Some(p) ==> ConvertCoinWith(s1, sender, receiver, d, amount, call).None?)
              && ConvertERC20With(s1, sender, receiver, p.erc20, amount, call).None?
              && (log.Transfer? && log.contract == p.erc20 ==> HookLog(s1, log) == s1)
  {
    hide Resolve;
    if ToggleConversion(s, token).Some? {
      var key := Resolve(token);
      LookupFindsNamedPair(s.registry, key);
      ToggledNames(s.registry, key);
      var s1, p := ToggleConversion(s, token).value, Lookup(s.registry, key).value;
      assert s1.registry == Toggled(s.registry, p.Id());
      assert Lookup(s.registry, ByContract(p.erc20)) == Some(p);
      if p.enabled {
        assert Lookup(s1.registry, ByContract(p.erc20)) == Some(p.(enabled := false));
        forall d | NamedPair(s, d) == Some(p) ensures ConvertCoinWith(s1, sender, receiver, d, amount, call).None? {
          assert NamedPair(s1, d) == Some(p.(enabled := false));
        }
      }
    }
  }
}
