/** One fungible asset: a bank denomination or an EIP-20 token contract. */
module Erc20Assets {
  import opened Common
  import opened MapSums

  /** The EVM's zero address, which no token contract credits or debits. */
  const ZERO: Address := "0x0000000000000000000000000000000000000000"

  const MAX_UINT256: nat := 0xFFFF_FFFF_FFFF_FFFF_FFFF_FFFF_FFFF_FFFF_FFFF_FFFF_FFFF_FFFF_FFFF_FFFF_FFFF_FFFF

  datatype Asset = Asset(balances: map<Address, nat>, supply: nat)
  {
    function Of(a: Address): nat { if a in balances then balances[a] else 0 }

    /** The supply is what the accounts hold together. */
    ghost predicate Consistent() { SumBy<Address, int>(balances, Itself) == supply }
  }

  const EMPTY: Asset := Asset(map[], 0)

  function Credited(x: Asset, a: Address, amount: nat): map<Address, nat> {
    x.balances[a := x.Of(a) + amount]
  }

  function Moved(x: Asset, from: Address, to: Address, amount: nat): (y: Asset)
    requires amount <= x.Of(from)
  {
    var debited := x.(balances := x.balances[from := x.Of(from) - amount]);
    debited.(balances := Credited(debited, to, amount))
  }

  function Minted(x: Asset, to: Address, amount: nat): (y: Asset) {
    Asset(Credited(x, to, amount), x.supply + amount)
  }

  function Burned(x: Asset, from: Address, amount: nat): (y: Asset)
    requires amount <= x.Of(from) && amount <= x.supply
  {
    Asset(x.balances[from := x.Of(from) - amount], x.supply - amount)
  }

  /** No holder has more than the supply. */
  lemma HolderWithinSupply(x: Asset, a: Address)
    requires x.Consistent()
    ensures x.Of(a) <= x.supply
  {
    SumBoundsEntry<Address, int>(x.balances, Itself, a);
  }

  lemma MovedConsistent(x: Asset, from: Address, to: Address, amount: nat)
    requires x.Consistent() && amount <= x.Of(from)
    ensures Moved(x, from, to, amount).Consistent()
  {
    var debited := x.balances[from := x.Of(from) - amount];
    SumUpdate<Address, int>(x.balances, Itself, from, x.Of(from) - amount);
    SumUpdate<Address, int>(debited, Itself, to, Asset(debited, 0).Of(to) + amount);
  }

  lemma MintedConsistent(x: Asset, to: Address, amount: nat)
    requires x.Consistent()
    ensures Minted(x, to, amount).Consistent()
  {
    SumUpdate<Address, int>(x.balances, Itself, to, x.Of(to) + amount);
  }

  lemma BurnedConsistent(x: Asset, from: Address, amount: nat)
    requires x.Consistent() && amount <= x.Of(from)
    ensures amount <= x.supply && Burned(x, from, amount).Consistent()
  {
    HolderWithinSupply(x, from);
    SumUpdate<Address, int>(x.balances, Itself, from, x.Of(from) - amount);
  }

  // ---------------------------------------------------------------- token contract calls

  /** `transfer` of the token contract; absent when the call reverts. */
  function TokenTransfer(x: Asset, from: Address, to: Address, amount: nat): Option<Asset> {
    if from == ZERO || to == ZERO || amount > x.Of(from) then None else Some(Moved(x, from, to, amount))
  }

  /** What a call of an external contract's `transfer` comes to: what it
      returns, whether it emits an approval, and the balances the contract
      reports afterwards. A failing balance query counts as a revert. */
  datatype Call = Reverted | Returned(value: bool, approval: bool, after: Asset)
  {
    predicate Accepted() { Returned? && value && !approval }
  }

  /** The call of a contract that follows EIP-20. */
  function HonestTransfer(x: Asset, from: Address, to: Address, amount: nat): Call {
    var y := TokenTransfer(x, from, to, amount);
    if y.None? then Reverted else Returned(true, false, y.value)
  }

  function TokenMint(x: Asset, to: Address, amount: nat): Option<Asset> {
    if to == ZERO || x.supply + amount > MAX_UINT256 then None else Some(Minted(x, to, amount))
  }

  function TokenBurn(x: Asset, from: Address, amount: nat): Option<Asset> {
    if from == ZERO || amount > x.Of(from) || amount > x.supply then None else Some(Burned(x, from, amount))
  }
}
