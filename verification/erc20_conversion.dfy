/** Two-way conversion between bank coins and EIP-20 tokens, as state transitions. */
module Erc20Conversion {
  import opened Common
  import opened Erc20Assets
  import opened Erc20Registry

  /** The erc20 module account, the same address on both ledgers. */
  const MODULE: Address := "erc20"

  datatype Metadata = Metadata(base: Denom, name: Denom, details: string)

  /** `tokens` holds the contracts that exist; `deployed` those among all
      contracts that the module created and alone may mint. */
  datatype Chain = Chain(
    enableErc20: bool,
    enableHook: bool,
    registry: Registry,
    metadata: map<Denom, Metadata>,
    coins: map<Denom, Asset>,
    tokens: map<Contract, Asset>,
    deployed: set<Contract>,
    blocked: set<Address>,
    sendDisabled: set<Denom>)
  {
    function Coin(d: Denom): Asset { if d in coins then coins[d] else EMPTY }
  }

  // ---------------------------------------------------------------- one pair's two ledgers

  datatype Books = Books(coin: Asset, token: Asset)

  /** Case 1.1: escrow coins, mint tokens. Absent when the message fails. */
  function EscrowAndMint(b: Books, sender: Address, receiver: Address, amount: nat): Option<Books> {
    if !(0 < amount <= b.coin.Of(sender)) || TokenMint(b.token, receiver, amount).None? then None
    else Some(Books(Moved(b.coin, sender, MODULE, amount), Minted(b.token, receiver, amount)))
  }

  /** Case 1.2: burn tokens, release escrowed coins. */
  function BurnAndRelease(b: Books, sender: Address, receiver: Address, amount: nat, blocked: set<Address>): Option<Books> {
    if || TokenBurn(b.token, sender, amount).None?
       || receiver in blocked || receiver == MODULE
       || !(0 < amount <= b.coin.Of(MODULE))
    then None
    else Some(Books(Moved(b.coin, MODULE, receiver, amount), Burned(b.token, sender, amount)))
  }

  /** Case 2.1: escrow tokens, mint coins. `call` is what the contract makes of
      the transfer to the module. */
  function LockAndIssue(b: Books, receiver: Address, amount: nat, blocked: set<Address>, call: Call): Option<Books> {
    if || !call.Accepted() || call.after.Of(MODULE) != b.token.Of(MODULE) + amount
       || amount == 0 || receiver in blocked
    then None
    else Some(Books(Moved(Minted(b.coin, MODULE, amount), MODULE, receiver, amount), call.after))
  }

  /** Case 2.2: take coins back, release escrowed tokens, burn the coins. `call`
      is what the contract makes of the transfer to the receiver. */
  function ReturnAndUnlock(b: Books, sender: Address, receiver: Address, amount: nat, call: Call): Option<Books> {
    if || !(0 < amount <= b.coin.Of(sender))
       || !call.Accepted() || call.after.Of(receiver) != b.token.Of(receiver) + amount
    then None
    else
      var held := Moved(b.coin, sender, MODULE, amount);
      if amount > held.supply then None
      else Some(Books(Burned(held, MODULE, amount), call.after))
  }

  /** The same with a contract that follows EIP-20. */
  function HonestLock(b: Books, sender: Address, receiver: Address, amount: nat, blocked: set<Address>): Option<Books> {
    LockAndIssue(b, receiver, amount, blocked, HonestTransfer(b.token, sender, MODULE, amount))
  }

  function HonestUnlock(b: Books, sender: Address, receiver: Address, amount: nat): Option<Books> {
    ReturnAndUnlock(b, sender, receiver, amount, HonestTransfer(b.token, MODULE, receiver, amount))
  }

  // ---------------------------------------------------------------- messages

  /** The guard of both conversions. */
  function MintingEnabled(s: Chain, sender: Address, receiver: Address, key: TokenKey): Option<TokenPair> {
    var p := Lookup(s.registry, key);
    if || !s.enableErc20 || p.None? || !p.value.enabled || receiver in s.blocked
       || (sender != receiver && p.value.denom in s.sendDisabled)
    then None
    else p
  }

  function BooksOf(s: Chain, p: TokenPair): Books
    requires p.erc20 in s.tokens
  {
    Books(s.Coin(p.denom), s.tokens[p.erc20])
  }

  function WithBooks(s: Chain, p: TokenPair, b: Books): Chain {
    s.(coins := s.coins[p.denom := b.coin], tokens := s.tokens[p.erc20 := b.token])
  }

  /** The state after a message that finds no contract: the pair is removed and
      the message succeeds, so that the removal persists. */
  function PairDropped(s: Chain, p: TokenPair): Chain {
    s.(registry := Deleted(s.registry, p))
  }

  /** The new state, absent when the message fails and is rolled back; `call`
      is how an external contract answers. The message's own coin is taken,
      which is not the pair's when the denomination reads as a contract. */
  function ConvertCoinWith(s: Chain, sender: Address, receiver: Address, denom: Denom, amount: nat, call: Call): Option<Chain> {
    match MintingEnabled(s, sender, receiver, Resolve(denom))
    case None => None
    case Some(p) =>
      if p.erc20 !in s.tokens then Some(PairDropped(s, p))
      else
        var q := p.(denom := denom);
        var books := match p.owner
          case OwnerModule => EscrowAndMint(BooksOf(s, q), sender, receiver, amount)
          case OwnerExternal => ReturnAndUnlock(BooksOf(s, q), sender, receiver, amount, call)
          case OwnerUnspecified => None;
        if books.None? then None else Some(WithBooks(s, q, books.value))
  }

  function ConvertERC20With(s: Chain, sender: Address, receiver: Address, contract: Contract, amount: nat, call: Call): Option<Chain> {
    match MintingEnabled(s, sender, receiver, ByContract(contract))
    case None => None
    case Some(p) =>
      if p.erc20 !in s.tokens then Some(PairDropped(s, p))
      else
        var books := match p.owner
          case OwnerModule => BurnAndRelease(BooksOf(s, p), sender, receiver, amount, s.blocked)
          case OwnerExternal => LockAndIssue(BooksOf(s, p), receiver, amount, s.blocked, call)
          case OwnerUnspecified => None;
        if books.None? then None else Some(WithBooks(s, p, books.value))
  }

  /** How the contract behind a name answers if it follows EIP-20. */
  function HonestCall(s: Chain, key: TokenKey, from: Address, to: Address, amount: nat): Call {
    var p := Lookup(s.registry, key);
    if p.None? || p.value.erc20 !in s.tokens then Reverted
    else HonestTransfer(s.tokens[p.value.erc20], from, to, amount)
  }

  function ConvertCoin(s: Chain, sender: Address, receiver: Address, denom: Denom, amount: nat): Option<Chain> {
    ConvertCoinWith(s, sender, receiver, denom, amount, HonestCall(s, Resolve(denom), MODULE, receiver, amount))
  }

  function ConvertERC20(s: Chain, sender: Address, receiver: Address, contract: Contract, amount: nat): Option<Chain> {
    ConvertERC20With(s, sender, receiver, contract, amount, HonestCall(s, ByContract(contract), sender, MODULE, amount))
  }

  // ---------------------------------------------------------------- the EVM hook

  datatype Log = Transfer(contract: Contract, from: Address, to: Address, amount: nat) | OtherEvent

  /** The pair a log converts, if any. */
  function LogPair(s: Chain, log: Log): Option<TokenPair> {
    if log.OtherEvent? || log.amount == 0 then None
    else
      var p := Lookup(s.registry, ByContract(log.contract));
      if p.None? || log.to != MODULE || !p.value.enabled then None else p
  }

  /** First half of a log's conversion: burn the tokens received, or mint the
      coins; absent when it fails. A call to a contract that is gone succeeds
      and does nothing. */
  function HookFirst(s: Chain, p: TokenPair, contract: Contract, amount: nat): Option<Chain> {
    match p.owner
    case OwnerModule =>
      if contract !in s.tokens then Some(s)
      else
        var burned := TokenBurn(s.tokens[contract], MODULE, amount);
        if burned.None? then None else Some(s.(tokens := s.tokens[contract := burned.value]))
    case OwnerExternal => Some(s.(coins := s.coins[p.denom := Minted(s.Coin(p.denom), MODULE, amount)]))
    case OwnerUnspecified => None
  }

  /** Second half: send the coins to whoever sent the tokens. */
  function HookSecond(s: Chain, p: TokenPair, to: Address, amount: nat): Chain {
    if to in s.blocked || !(0 < amount <= s.Coin(p.denom).Of(MODULE)) then s
    else s.(coins := s.coins[p.denom := Moved(s.Coin(p.denom), MODULE, to, amount)])
  }

  /** One log; a failure in either half is swallowed and not undone. */
  function HookLog(s: Chain, log: Log): Chain {
    match LogPair(s, log)
    case None => s
    case Some(p) =>
      var first := HookFirst(s, p, log.contract, log.amount);
      if first.None? then s else HookSecond(first.value, p, log.from, log.amount)
  }

  function HookLogs(s: Chain, logs: seq<Log>): Chain {
    if logs == [] then s
    else
      var last := |logs| - 1;
      HookLog(HookLogs(s, logs[..last]), logs[last])
  }

  function PostTx(s: Chain, logs: seq<Log>): Chain {
    if !s.enableErc20 || !s.enableHook then s else HookLogs(s, logs)
  }

  // ---------------------------------------------------------------- proposals

  predicate ContainsEvm(d: Denom) {
    exists i :: 0 <= i < |d| - 2 && d[i] == 'e' && d[i + 1] == 'v' && d[i + 2] == 'm'
  }

  function CreateDenom(c: Contract): Denom { "erc20/" + c }

  /** The denomination of an external contract does not itself read as one. */
  lemma CreateDenomIsPlain(c: Contract)
    ensures ReadsAs(CreateDenom(c)).None?
  {
    var d := CreateDenom(c);
    assert Digits(d) == d && d[1] == 'r';
  }

  /** Registers a coin; `deployment` is the address it yields, absent when it
      fails. The guard looks the coin's name up, while the pair is stored under
      its base. */
  function RegisterCoin(s: Chain, meta: Metadata, deployment: Option<Contract>): Option<Chain> {
    if || !s.enableErc20 || ContainsEvm(meta.base)
       || meta.name in s.registry.byDenom
       || s.Coin(meta.base).supply == 0
       || (meta.base in s.metadata && s.metadata[meta.base] != meta)
       || deployment.None?
    then None
    else
      var contract := deployment.value;
      Some(s.(metadata := s.metadata[meta.base := meta],
              tokens := s.tokens[contract := EMPTY],
              deployed := s.deployed + {contract},
              registry := Registered(s.registry, TokenPair(contract, meta.base, true, OwnerModule))))
  }

  /** Registers a contract; `details` is what it answers about itself, absent
      when a query fails or the metadata built from it is invalid. */
  function RegisterERC20(s: Chain, contract: Contract, details: Option<string>): Option<Chain> {
    var denom := CreateDenom(contract);
    if || !s.enableErc20 || contract in s.registry.byErc20 || details.None?
       || denom in s.metadata || denom in s.registry.byDenom
    then None
    else Some(s.(metadata := s.metadata[denom := Metadata(denom, denom, details.value)],
                 registry := Registered(s.registry, TokenPair(contract, denom, true, OwnerExternal))))
  }

  function ToggleConversion(s: Chain, token: string): Option<Chain> {
    var p := Lookup(s.registry, Resolve(token));
    if p.None? then None
    else
      var q := p.value.(enabled := !p.value.enabled);
      Some(s.(registry := s.registry.(pairs := s.registry.pairs[q.Id() := q])))
  }
}
