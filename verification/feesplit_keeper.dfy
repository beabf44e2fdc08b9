/** The fee split keeper as the module runs it. */
module FeeSplitKeeper {
  import opened Common
  import opened Wire
  import opened FeeSplitRegistry

  class Keeper {
    var feeSplits: map<Contract, FeeSplit>
    var deployerKeys: set<seq<Byte>>
    var withdrawerKeys: set<seq<Byte>>
    var enableFeeSplit: bool
    var gasConsumed: nat
    const derivationCost: nat
    const create: Creation

    constructor (s: Store, enabled: bool, cost: nat, create: Creation)
      ensures State() == s && enableFeeSplit == enabled && gasConsumed == 0
      ensures derivationCost == cost && this.create == create
    {
      feeSplits, deployerKeys, withdrawerKeys := s.feeSplits, s.deployerKeys, s.withdrawerKeys;
      enableFeeSplit, gasConsumed, derivationCost, this.create := enabled, 0, cost, create;
    }

    function State(): Store
      reads this
    {
      Store(feeSplits, deployerKeys, withdrawerKeys)
    }

    /** Each fee split is stored under its own contract. */
    ghost predicate Valid()
      reads this
    {
      forall c :: c in feeSplits ==> feeSplits[c].contract == c
    }

    /** Folds the derivation over the nonces, charging for each. */
    method DeriveContract(deployer: Contract, nonces: seq<nat>) returns (derived: Contract)
      modifies this`gasConsumed
      ensures derived == Derive(create, deployer, nonces)
      ensures gasConsumed == old(gasConsumed) + |nonces| * derivationCost
    {
      derived := deployer;
      for i := 0 to |nonces|
        invariant derived == Derive(create, deployer, nonces[..i])
        invariant gasConsumed == old(gasConsumed) + i * derivationCost
      {
        assert nonces[..i + 1][..i] == nonces[..i];
        assert (i + 1) * derivationCost == i * derivationCost + derivationCost;
        gasConsumed := gasConsumed + derivationCost;
        derived := create(derived, nonces[i]);
      }
      assert nonces[..|nonces|] == nonces;
    }

    method RegisterFeeSplit(evm: map<Contract, bool>, contract: Contract, deployer: Account, withdrawer: Account, nonces: seq<nat>)
      returns (ok: bool)
      requires Valid()
      modifies this
      ensures Valid()
      ensures ok == old(Register(State(), enableFeeSplit, evm, create, contract, deployer, withdrawer, nonces)).Some?
      ensures State() == if ok
                         then old(Register(State(), enableFeeSplit, evm, create, contract, deployer, withdrawer, nonces)).value
                         else old(State())
      ensures enableFeeSplit == old(enableFeeSplit)
    {
      if !enableFeeSplit {
        return false;
      }
      if contract in feeSplits {
        return false;
      }
      var deployerAccount := ToEvm(deployer);
      if deployerAccount !in evm {
        return false;
      }
      if evm[deployerAccount] {
        return false;
      }
      if contract !in evm || !evm[contract] {
        return false;
      }
      var stored: Account := [];
      if withdrawer != [] && withdrawer != deployer {
        stored := withdrawer;
      }
      var derived := DeriveContract(deployerAccount, nonces);
      if contract != derived {
        return false;
      }
      feeSplits := feeSplits[contract := FeeSplit(contract, deployer, stored)];
      deployerKeys := deployerKeys + {deployer + contract};
      if |stored| != 0 {
        withdrawerKeys := withdrawerKeys + {stored + contract};
      }
      return true;
    }

    method UpdateFeeSplit(contract: Contract, deployer: Account, withdrawer: Account) returns (ok: bool)
      requires Valid()
      modifies this`feeSplits, this`withdrawerKeys
      ensures Valid()
      ensures ok == old(Update(State(), enableFeeSplit, contract, deployer, withdrawer)).Some?
      ensures State() == if ok then old(Update(State(), enableFeeSplit, contract, deployer, withdrawer)).value else old(State())
    {
      if !enableFeeSplit {
        return false;
      }
      if contract !in feeSplits {
        return false;
      }
      var feeSplit := feeSplits[contract];
      if deployer != feeSplit.deployer {
        return false;
      }
      var requested := withdrawer;
      if requested == feeSplit.deployer {
        requested := [];
      }
      if requested == feeSplit.withdrawer {
        return false;
      }
      if feeSplit.withdrawer != [] {
        withdrawerKeys := withdrawerKeys - {feeSplit.withdrawer + contract};
      }
      if requested != [] {
        withdrawerKeys := withdrawerKeys + {requested + contract};
      }
      feeSplits := feeSplits[contract := feeSplit.(withdrawer := requested)];
      return true;
    }

    method CancelFeeSplit(contract: Contract, deployer: Account) returns (ok: bool)
      requires Valid()
      modifies this`feeSplits, this`deployerKeys, this`withdrawerKeys
      ensures Valid()
      ensures ok == old(Cancel(State(), enableFeeSplit, contract, deployer)).Some?
      ensures State() == if ok then old(Cancel(State(), enableFeeSplit, contract, deployer)).value else old(State())
    {
      if !enableFeeSplit {
        return false;
      }
      if contract !in feeSplits {
        return false;
      }
      var fee := feeSplits[contract];
      if deployer != fee.deployer {
        return false;
      }
      feeSplits := feeSplits - {fee.contract};
      deployerKeys := deployerKeys - {fee.deployer + contract};
      if fee.withdrawer != [] {
        withdrawerKeys := withdrawerKeys - {fee.withdrawer + contract};
      }
      return true;
    }
  }

  ghost function KeySet(order: seq<seq<Byte>>): set<seq<Byte>> { set k | k in order }

  /** The scan behind both queries: `order` is the key set in the store's
      iteration order, every page of it. */
  method ScanPrefix(order: seq<seq<Byte>>, prefix: Account) returns (contracts: seq<Contract>)
    ensures (set c | c in contracts) == Scan(KeySet(order), prefix)
  {
    contracts := [];
    for i := 0 to |order|
      invariant (set c | c in contracts) == Scan(KeySet(order[..i]), prefix)
    {
      assert order[..i + 1] == order[..i] + [order[i]];
      ghost var before := KeySet(order[..i]);
      assert KeySet(order[..i + 1]) == before + {order[i]};
      if prefix <= order[i] {
        var c := ToEvm(order[i][|prefix|..]);
        contracts := contracts + [c];
        assert Scan(before + {order[i]}, prefix) == Scan(before, prefix) + {c};
      } else {
        assert Scan(before + {order[i]}, prefix) == Scan(before, prefix);
      }
    }
    assert order[..|order|] == order;
  }
}
