/** Whole runs of the erc20 module: messages, EVM traffic, bank traffic and proposals. */
module Erc20Runs {
  import opened Common
  import opened MapSums
  import opened Erc20Assets
  import opened Erc20Registry
  import opened Erc20Conversion
  import opened Erc20Solvency

  // ---------------------------------------------------------------- token traffic

  /** What an EVM transaction may do to token contracts: transfers (direct or by
      allowance), mints of contracts the module does not own, burns, and the
      self-destruction of a contract. */
  datatype TokenOp =
    | SendTokens(contract: Contract, from: Address, to: Address, amount: nat)
    | MintTokens(contract: Contract, to: Address, amount: nat)
    | BurnTokens(contract: Contract, from: Address, amount: nat)
    | Destroy(contract: Contract)
    | EmitOther

  /** The module grants no allowance, so nobody else moves its tokens; it alone
      mints what it deployed, and its contracts have no self-destruct. */
  predicate AllowedOp(s: Chain, op: TokenOp) {
    match op
    case SendTokens(_, from, _, _) => from != MODULE
    case MintTokens(c, _, _) => c !in s.deployed
    case BurnTokens(_, from, _) => from != MODULE
    case Destroy(c) => c !in s.deployed
    case EmitOther => true
  }

  function OpResult(x: Asset, op: TokenOp): Option<Asset> {
    match op
    case SendTokens(_, from, to, amount) => TokenTransfer(x, from, to, amount)
    case MintTokens(_, to, amount) => TokenMint(x, to, amount)
    case BurnTokens(_, from, amount) => TokenBurn(x, from, amount)
    case Destroy(_) => None
    case EmitOther => None
  }

  /** An operation's new state and the event it emits; a reverted call does
      nothing and emits nothing. */
  function ApplyOp(s: Chain, op: TokenOp): (Chain, seq<Log>) {
    if op.EmitOther? then (s, [OtherEvent])
    else if op.Destroy? then (s.(tokens := s.tokens - {op.contract}), [])
    else if op.contract !in s.tokens || OpResult(s.tokens[op.contract], op).None? then (s, [])
    else
      (s.(tokens := s.tokens[op.contract := OpResult(s.tokens[op.contract], op).value]),
       [Transfer(op.contract,
                 if op.MintTokens? then ZERO else op.from,
                 if op.BurnTokens? then ZERO else op.to,
                 op.amount)])
  }

  function ApplyOps(s: Chain, ops: seq<TokenOp>): (Chain, seq<Log>) {
    if ops == [] then (s, [])
    else
      var last := |ops| - 1;
      var (s1, logs) := ApplyOps(s, ops[..last]);
      var (s2, more) := ApplyOp(s1, ops[last]);
      (s2, logs + more)
  }

  /** An honest token's books move as its event says. */
  lemma OpBooks(x: Asset, op: TokenOp)
    requires OpResult(x, op).Some?
    requires !op.MintTokens? ==> op.from != MODULE
    ensures var y := OpResult(x, op).value;
            && (x.Consistent() && x.supply <= MAX_UINT256 ==> y.Consistent() && y.supply <= MAX_UINT256)
            && (!op.MintTokens? ==> y.supply <= x.supply)
            && y.Of(MODULE) == x.Of(MODULE) + (if !op.BurnTokens? && op.to == MODULE then op.amount else 0)
  {
    if x.Consistent() {
      match op
      case SendTokens(_, from, to, amount) => MovedConsistent(x, from, to, amount);
      case MintTokens(_, to, amount) => MintedConsistent(x, to, amount);
      case BurnTokens(_, from, amount) => BurnedConsistent(x, from, amount);
    }
  }

  lemma CreditAppend(logs: seq<Log>, log: Log, c: Contract)
    ensures Credit(logs + [log], c) == Credit(logs, c)
              + (if log.Transfer? && log.contract == c && log.to == MODULE then log.amount else 0)
  {
  }

  /** An operation on one contract leaves all backing in place and adds the
      credit its event announces. */
  lemma OpGood(s: Chain, op: TokenOp, pending: seq<Log>)
    requires Good(s, pending) && AllowedOp(s, op)
    ensures Good(ApplyOp(s, op).0, pending + ApplyOp(s, op).1)
  {
    hide Good, Credit, OpResult;
    var (s1, more) := ApplyOp(s, op);
    if op.Destroy? {
      assert pending + more == pending;
      DestroyGood(s, op.contract, pending);
    } else if more == [] {
      assert pending + more == pending;
    } else if op.EmitOther? {
      forall c { CreditAppend(pending, OtherEvent, c); }
      LowerCredit(s, pending, pending + more);
    } else {
      SuccessfulOpGood(s, op, pending);
    }
  }

  lemma SuccessfulOpGood(s: Chain, op: TokenOp, pending: seq<Log>)
    requires Good(s, pending) && AllowedOp(s, op) && Succeeds(s, op)
    ensures Good(ApplyOp(s, op).0, pending + ApplyOp(s, op).1)
  {
    hide Credit, OpResult, ContractBijection, DenomsResolve, TokensBacked, CoinsBacked, BooksConsistent;
    var (s1, more) := ApplyOp(s, op);
    OpBooks(s.tokens[op.contract], op);
    forall c { CreditAppend(pending, more[0], c); }
    OpKeepsTokensBacked(s, op);
    OpKeepsCoinsBacked(s, op, pending);
    OpKeepsConsistent(s, op);
    assert forall d :: s1.Coin(d) == s.Coin(d);
  }

  lemma OpKeepsConsistent(s: Chain, op: TokenOp)
    requires BooksConsistent(s) && Succeeds(s, op)
    requires var (x, y) := (s.tokens[op.contract], OpResult(s.tokens[op.contract], op).value);
             x.Consistent() && x.supply <= MAX_UINT256 ==> y.Consistent() && y.supply <= MAX_UINT256
    ensures BooksConsistent(ApplyOp(s, op).0)
  {
  }

  lemma DestroyGood(s: Chain, c: Contract, pending: seq<Log>)
    requires Good(s, pending) && c !in s.deployed
    ensures Good(s.(tokens := s.tokens - {c}), pending)
  {
    ContractsChangeGood(s, s.(tokens := s.tokens - {c}), pending);
  }

  /** The contract an operation succeeds on has new books. */
  predicate Succeeds(s: Chain, op: TokenOp) {
    !op.EmitOther? && !op.Destroy? && op.contract in s.tokens && OpResult(s.tokens[op.contract], op).Some?
  }

  lemma OpKeepsTokensBacked(s: Chain, op: TokenOp)
    requires TokensBacked(s) && OwnersKnown(s) && AllowedOp(s, op) && Succeeds(s, op)
    requires !op.MintTokens? ==> OpResult(s.tokens[op.contract], op).value.supply <= s.tokens[op.contract].supply
    ensures TokensBacked(ApplyOp(s, op).0)
  {
    hide SumBy, OpResult, Liabilities;
    var s1 := ApplyOp(s, op).0;
    forall d ensures Issued(s1, d) <= s1.Coin(d).Of(MODULE) {
      OpLowersLiabilities(s, op, d);
      SumMonotone(Liabilities(s1, d), Itself, Liabilities(s, d), Itself);
      assert Issued(s, d) <= s.Coin(d).Of(MODULE);
    }
  }

  lemma OpLowersLiabilities(s: Chain, op: TokenOp, d: Denom)
    requires OwnersKnown(s) && AllowedOp(s, op) && Succeeds(s, op)
    requires !op.MintTokens? ==> OpResult(s.tokens[op.contract], op).value.supply <= s.tokens[op.contract].supply
    ensures var l, l1 := Liabilities(s, d), Liabilities(ApplyOp(s, op).0, d);
            l1.Keys == l.Keys && forall id :: id in l1 ==> Itself(l1[id]) <= Itself(l[id])
  {
  }

  lemma OpKeepsCoinsBacked(s: Chain, op: TokenOp, pending: seq<Log>)
    requires CoinsBacked(s, pending) && Succeeds(s, op)
    requires OpResult(s.tokens[op.contract], op).value.Of(MODULE)
             == s.tokens[op.contract].Of(MODULE) + (if !op.BurnTokens? && op.to == MODULE then op.amount else 0)
    requires forall c :: Credit(pending + ApplyOp(s, op).1, c) == Credit(pending, c)
               + (if op.contract == c && !op.BurnTokens? && op.to == MODULE then op.amount else 0)
    ensures CoinsBacked(ApplyOp(s, op).0, pending + ApplyOp(s, op).1)
  {
    hide OpResult, Credit;
    var (s1, more) := ApplyOp(s, op);
    forall id | id in s1.registry.pairs && s1.registry.pairs[id].owner == OwnerExternal && s1.registry.pairs[id].erc20 in s1.tokens
      ensures var q := s1.registry.pairs[id];
              s1.Coin(q.denom).supply + Credit(pending + more, q.erc20) <= s1.tokens[q.erc20].Of(MODULE)
    {
      var q := s.registry.pairs[id];
      assert s.Coin(q.denom).supply + Credit(pending, q.erc20) <= s.tokens[q.erc20].Of(MODULE);
    }
  }

  lemma {:induction false} OpsGood(s: Chain, ops: seq<TokenOp>)
    requires Good(s, []) && forall i :: 0 <= i < |ops| ==> AllowedOp(s, ops[i])
    ensures Good(ApplyOps(s, ops).0, ApplyOps(s, ops).1)
    ensures ApplyOps(s, ops).0.deployed == s.deployed
  {
    if ops != [] {
      var last := |ops| - 1;
      OpsGood(s, ops[..last]);
      var (s1, logs) := ApplyOps(s, ops[..last]);
      assert AllowedOp(s1, ops[last]);
      OpGood(s1, ops[last], logs);
    }
  }

  // ---------------------------------------------------------------- steps and runs

  datatype Step =
    | MsgConvertCoin(sender: Address, receiver: Address, denom: Denom, amount: nat, call: Call)
    | MsgConvertERC20(sender: Address, receiver: Address, contract: Contract, amount: nat, call: Call)
    | EvmTx(ops: seq<TokenOp>)
    | BankSend(denom: Denom, source: Address, to: Address, amount: nat)
    | BankMint(denom: Denom, to: Address, amount: nat)
    | BankBurn(denom: Denom, source: Address, amount: nat)
    | ProposeCoin(meta: Metadata, deployment: Option<Contract>)
    | ProposeERC20(contract: Contract, details: Option<string>)
    | ProposeToggle(token: string)
    | NewContract(contract: Contract, initial: Asset)
    | SetParams(enableErc20: bool, enableHook: bool)

  /** What the chain guarantees of a step: the module account signs nothing,
      other modules mint no coin named after a contract or read as one, a new
      contract's address is unused. An external contract may answer a message
      with anything, except that it takes no more from the module than it
      releases. */
  ghost predicate Admissible(s: Chain, step: Step) {
    match step
    case MsgConvertCoin(sender, _, denom, amount, call) => sender != MODULE && FairFor(s, denom, amount, call)
    case EvmTx(ops) => forall i :: 0 <= i < |ops| ==> AllowedOp(s, ops[i])
    case BankSend(_, source, _, _) => source != MODULE
    case BankMint(d, to, _) => to != MODULE && ReadsAs(d).None? && forall c :: d != CreateDenom(c)
    case BankBurn(_, source, _) => source != MODULE
    case ProposeCoin(_, c) => c.Some? ==> c.value !in s.tokens && c.value !in s.registry.byErc20
    case NewContract(c, x) => c !in s.tokens && c !in s.registry.byErc20
    case _ => true
  }

  function Sent(s: Chain, d: Denom, from: Address, to: Address, amount: nat): Chain {
    if to in s.blocked || !(0 < amount <= s.Coin(d).Of(from)) then s
    else s.(coins := s.coins[d := Moved(s.Coin(d), from, to, amount)])
  }

  function MintedElsewhere(s: Chain, d: Denom, to: Address, amount: nat): Chain {
    s.(coins := s.coins[d := Minted(s.Coin(d), to, amount)])
  }

  function BurnedElsewhere(s: Chain, d: Denom, from: Address, amount: nat): Chain {
    if amount > s.Coin(d).Of(from) || amount > s.Coin(d).supply then s
    else s.(coins := s.coins[d := Burned(s.Coin(d), from, amount)])
  }

  function OrElse(r: Option<Chain>, s: Chain): Chain { if r.Some? then r.value else s }

  function Apply(s: Chain, step: Step): Chain {
    match step
    case MsgConvertCoin(sender, receiver, denom, amount, call) => OrElse(ConvertCoinWith(s, sender, receiver, denom, amount, call), s)
    case MsgConvertERC20(sender, receiver, c, amount, call) => OrElse(ConvertERC20With(s, sender, receiver, c, amount, call), s)
    case EvmTx(ops) => var (s1, logs) := ApplyOps(s, ops); PostTx(s1, logs)
    case BankSend(d, source, to, amount) => Sent(s, d, source, to, amount)
    case BankMint(d, to, amount) => MintedElsewhere(s, d, to, amount)
    case BankBurn(d, source, amount) => BurnedElsewhere(s, d, source, amount)
    case ProposeCoin(meta, c) => OrElse(RegisterCoin(s, meta, c), s)
    case ProposeERC20(c, details) => OrElse(RegisterERC20(s, c, details), s)
    case ProposeToggle(token) => OrElse(ToggleConversion(s, token), s)
    case NewContract(c, x) => s.(tokens := s.tokens[c := x])
    case SetParams(e, h) => s.(enableErc20 := e, enableHook := h)
  }

  lemma SentGood(s: Chain, d: Denom, from: Address, to: Address, amount: nat)
    requires Good(s, []) && from != MODULE
    ensures Good(Sent(s, d, from, to, amount), [])
  {
    hide ContractBijection, DenomsResolve, TokensBacked, CoinsBacked, BooksConsistent;
    SentKeepsModule(s, d, from, to, amount);
    SameBacking(s, Sent(s, d, from, to, amount));
    SentConsistent(s, d, from, to, amount);
  }

  lemma SentConsistent(s: Chain, d: Denom, from: Address, to: Address, amount: nat)
    requires BooksConsistent(s)
    ensures BooksConsistent(Sent(s, d, from, to, amount))
  {
    if Sent(s, d, from, to, amount) != s {
      CoinConsistent(s, d);
      MovedConsistent(s.Coin(d), from, to, amount);
    }
  }

  lemma SentKeepsModule(s: Chain, d: Denom, from: Address, to: Address, amount: nat)
    requires from != MODULE && MODULE in s.blocked
    ensures var s1 := Sent(s, d, from, to, amount);
            forall e :: s1.Coin(e).supply == s.Coin(e).supply && s1.Coin(e).Of(MODULE) == s.Coin(e).Of(MODULE)
  {
  }

  /** Other modules' coins may change outside the module account. */
  lemma OtherCoinsGood(s: Chain, s1: Chain)
    requires Good(s, []) && s1 == s.(coins := s1.coins) && BooksConsistent(s1)
    requires forall c :: s1.Coin(CreateDenom(c)).supply <= s.Coin(CreateDenom(c)).supply
    requires forall e :: s1.Coin(e).Of(MODULE) == s.Coin(e).Of(MODULE)
    ensures Good(s1, [])
  {
    hide ContractBijection, DenomsResolve, TokensBacked, CoinsBacked, BooksConsistent;
    SameBacking(s, s1);
  }

  lemma MintedElsewhereGood(s: Chain, d: Denom, to: Address, amount: nat)
    requires Good(s, []) && to != MODULE && forall c :: d != CreateDenom(c)
    ensures Good(MintedElsewhere(s, d, to, amount), [])
  {
    hide Good, SumBy;
    BooksAreConsistent(s);
    CoinConsistent(s, d);
    MintedConsistent(s.Coin(d), to, amount);
    OtherCoinsGood(s, MintedElsewhere(s, d, to, amount));
  }

  lemma BurnedElsewhereGood(s: Chain, d: Denom, from: Address, amount: nat)
    requires Good(s, []) && from != MODULE
    ensures Good(BurnedElsewhere(s, d, from, amount), [])
  {
    hide Good, SumBy;
    if BurnedElsewhere(s, d, from, amount) != s {
      BooksAreConsistent(s);
      CoinConsistent(s, d);
      BurnedConsistent(s.Coin(d), from, amount);
      OtherCoinsGood(s, BurnedElsewhere(s, d, from, amount));
    }
  }

  lemma BooksAreConsistent(s: Chain)
    requires Good(s, [])
    ensures BooksConsistent(s)
  {
  }

  /** Backing depends on the pairs, the contracts, the module's own balances
      and the supplies of coins named after contracts. */
  lemma SameBacking(s: Chain, s1: Chain)
    requires TokensBacked(s) && CoinsBacked(s, []) && ExternalsFound(s)
    requires s1.registry == s.registry && s1.tokens == s.tokens
    requires forall c :: s1.Coin(CreateDenom(c)).supply <= s.Coin(CreateDenom(c)).supply
    requires forall e :: s1.Coin(e).Of(MODULE) == s.Coin(e).Of(MODULE)
    ensures TokensBacked(s1) && CoinsBacked(s1, [])
  {
    hide SumBy, Liabilities, TokensBacked;
    forall d ensures Liabilities(s1, d) == Liabilities(s, d) { SameLiabilities(s, s1, d); }
    StillBacked(s, s1);
  }

  lemma ProposeCoinGood(s: Chain, meta: Metadata, deployment: Option<Contract>)
    requires Good(s, []) && Admissible(s, ProposeCoin(meta, deployment)) && RegisterCoin(s, meta, deployment).Some?
    ensures Good(RegisterCoin(s, meta, deployment).value, [])
  {
    hide SumBy, ContractBijection, DenomsResolve, DenomsComplete, TokensBacked, CoinsBacked, IssuedUnderMetadata, ExternalsFound, OwnersKnown;
    var c := deployment.value;
    var p := TokenPair(c, meta.base, true, OwnerModule);
    RegisterLaw(s.registry, p);
    var s1 := RegisterCoin(s, meta, deployment).value;
    CoinKeepsFound(s, meta, deployment);
    EmptyIsConsistent();
    NewPairTokensBacked(s, s1, p);
    NewPairCoinsBacked(s, s1, p);
    NewPairKnown(s, s1, p);
  }

  /** The guard by name does protect external pairs: the metadata of their
      denomination carries the denomination as its name. */
  lemma CoinKeepsFound(s: Chain, meta: Metadata, deployment: Option<Contract>)
    requires ContractBijection(s.registry) && ExternalsFound(s) && RegisterCoin(s, meta, deployment).Some?
    requires deployment.value !in s.registry.byErc20
    ensures ExternalsFound(RegisterCoin(s, meta, deployment).value)
  {
    forall id | id in s.registry.pairs && s.registry.pairs[id].owner == OwnerExternal
      ensures s.registry.pairs[id].denom != meta.base
    {
      assert FoundByDenom(s, s.registry.pairs[id]);
    }
  }

  lemma ERC20KeepsFound(s: Chain, c: Contract, details: Option<string>)
    requires ContractBijection(s.registry) && ExternalsFound(s) && RegisterERC20(s, c, details).Some?
    ensures ExternalsFound(RegisterERC20(s, c, details).value)
  {
    forall id | id in s.registry.pairs && s.registry.pairs[id].owner == OwnerExternal
      ensures s.registry.pairs[id].denom != CreateDenom(c)
    {
      assert FoundByDenom(s, s.registry.pairs[id]);
    }
  }

  lemma EmptyIsConsistent()
    ensures EMPTY.Consistent()
  {
  }

  lemma ProposeERC20Good(s: Chain, c: Contract, details: Option<string>)
    requires Good(s, []) && RegisterERC20(s, c, details).Some?
    ensures Good(RegisterERC20(s, c, details).value, [])
  {
    hide SumBy, ContractBijection, DenomsResolve, DenomsComplete, TokensBacked, CoinsBacked, ExternalsFound, OwnersKnown;
    ERC20KeepsFound(s, c, details);
    var p := TokenPair(c, CreateDenom(c), true, OwnerExternal);
    RegisterLaw(s.registry, p);
    var s1 := RegisterERC20(s, c, details).value;
    assert s1.Coin(p.denom).supply == s.Coin(p.denom).supply == 0;
    NewPairTokensBacked(s, s1, p);
    NewPairCoinsBacked(s, s1, p);
    NewPairKnown(s, s1, p);
  }

  /** `p` has just been registered, its contract new to the registry and, if
      new to the chain, empty. */
  ghost predicate JustRegistered(s: Chain, s1: Chain, p: TokenPair) {
    && ContractBijection(s.registry) && p.erc20 !in s.registry.byErc20
    && s1.registry == Registered(s.registry, p) && s1.coins == s.coins
    && (s1.tokens == s.tokens || (p.erc20 !in s.tokens && s1.tokens == s.tokens[p.erc20 := EMPTY]))
    && (p.owner == OwnerModule ==> p.erc20 in s1.tokens && s1.tokens[p.erc20] == EMPTY)
  }

  lemma NewPairTokensBacked(s: Chain, s1: Chain, p: TokenPair)
    requires JustRegistered(s, s1, p) && TokensBacked(s)
    ensures TokensBacked(s1)
  {
    hide SumBy;
    forall d ensures Issued(s1, d) <= s1.Coin(d).Of(MODULE) {
      assert Issued(s, d) <= s.Coin(d).Of(MODULE);
      NewPairIssuesNothing(s, s1, p, d);
    }
  }

  lemma NewPairIssuesNothing(s: Chain, s1: Chain, p: TokenPair, d: Denom)
    requires JustRegistered(s, s1, p)
    ensures Issued(s1, d) == Issued(s, d)
  {
    hide SumBy, Liabilities, OlderPairsKept;
    RegistrationKeepsOlder(s, s1, p, d);
    NewLiabilities(s, s1, p, d);
    if IssuesAgainst(s1, p, d) {
      SumUpdate(Liabilities(s, d), Itself, p.Id(), 0);
    }
  }

  /** What the older pairs issue is not affected by a new one. */
  ghost predicate OlderPairsKept(s: Chain, s1: Chain, p: TokenPair, d: Denom) {
    && s1.registry.pairs == s.registry.pairs[p.Id() := p] && p.Id() !in s.registry.pairs
    && forall id :: id in s.registry.pairs ==>
         && (IssuesAgainst(s1, s.registry.pairs[id], d) <==> IssuesAgainst(s, s.registry.pairs[id], d))
         && (IssuesAgainst(s, s.registry.pairs[id], d) ==>
              s1.tokens[s.registry.pairs[id].erc20] == s.tokens[s.registry.pairs[id].erc20])
  }

  lemma RegistrationKeepsOlder(s: Chain, s1: Chain, p: TokenPair, d: Denom)
    requires JustRegistered(s, s1, p)
    ensures OlderPairsKept(s, s1, p, d)
  {
    forall id | id in s.registry.pairs ensures s.registry.pairs[id].erc20 != p.erc20 {}
  }

  lemma NewLiabilities(s: Chain, s1: Chain, p: TokenPair, d: Denom)
    requires OlderPairsKept(s, s1, p, d) && (IssuesAgainst(s1, p, d) ==> s1.tokens[p.erc20].supply == 0)
    ensures p.Id() !in Liabilities(s, d)
    ensures IssuesAgainst(s1, p, d) ==> Liabilities(s1, d) == Liabilities(s, d)[p.Id() := 0]
    ensures !IssuesAgainst(s1, p, d) ==> Liabilities(s1, d) == Liabilities(s, d)
  {
    hide Liabilities, OlderPairsKept, IssuesAgainst;
    NewLiabilityKeys(s, s1, p, d);
    NewLiabilityValues(s, s1, p, d);
  }

  lemma NewLiabilityKeys(s: Chain, s1: Chain, p: TokenPair, d: Denom)
    requires OlderPairsKept(s, s1, p, d)
    ensures p.Id() !in Liabilities(s, d)
    ensures Liabilities(s1, d).Keys == Liabilities(s, d).Keys + (if IssuesAgainst(s1, p, d) then {p.Id()} else {})
  {
    forall id ensures id in Liabilities(s1, d) <==> id in Liabilities(s, d) || (id == p.Id() && IssuesAgainst(s1, p, d)) {}
  }

  lemma NewLiabilityValues(s: Chain, s1: Chain, p: TokenPair, d: Denom)
    requires OlderPairsKept(s, s1, p, d) && (IssuesAgainst(s1, p, d) ==> s1.tokens[p.erc20].supply == 0)
    ensures forall id :: id in Liabilities(s1, d) ==>
              Liabilities(s1, d)[id] == if id == p.Id() then 0 else if id in Liabilities(s, d) then Liabilities(s, d)[id] else 0
  {
  }

  lemma NewPairCoinsBacked(s: Chain, s1: Chain, p: TokenPair)
    requires JustRegistered(s, s1, p) && CoinsBacked(s, [])
    requires p.owner == OwnerExternal ==> s1.Coin(p.denom).supply == 0
    ensures CoinsBacked(s1, [])
  {
  }

  /** The new pair's owner and metadata are in order. */
  lemma NewPairKnown(s: Chain, s1: Chain, p: TokenPair)
    requires IssuedUnderMetadata(s) && OwnersKnown(s) && JustRegistered(s, s1, p)
    requires s.metadata.Keys + {p.denom} == s1.metadata.Keys
    requires match p.owner
             case OwnerModule => s1.deployed == s.deployed + {p.erc20} && p.erc20 in s1.tokens
             case OwnerExternal => s1.deployed == s.deployed
             case OwnerUnspecified => false
    ensures IssuedUnderMetadata(s1) && OwnersKnown(s1)
  {
  }

  lemma ProposeToggleGood(s: Chain, token: string)
    requires Good(s, []) && ToggleConversion(s, token).Some?
    ensures Good(ToggleConversion(s, token).value, [])
  {
    var key := Resolve(token);
    hide SumBy, ContractBijection, DenomsResolve, DenomsComplete, TokensBacked, CoinsBacked, IssuedUnderMetadata, ExternalsFound, OwnersKnown;
    LookupFindsNamedPair(s.registry, key);
    var id := Lookup(s.registry, key).value.Id();
    ToggleLaw(s.registry, id);
    var s1 := ToggleConversion(s, token).value;
    assert s1 == s.(registry := Toggled(s.registry, id));
    ToggleKeeps(s, s1);
  }

  lemma ToggleKeeps(s: Chain, s1: Chain)
    requires TokensBacked(s) && CoinsBacked(s, []) && IssuedUnderMetadata(s) && ExternalsFound(s) && OwnersKnown(s)
    requires s1 == s.(registry := s1.registry) && s1.registry.pairs.Keys == s.registry.pairs.Keys
    requires s1.registry.byErc20 == s.registry.byErc20 && s1.registry.byDenom == s.registry.byDenom
    requires forall i :: i in s.registry.pairs ==> SameButEnabled(s.registry.pairs[i], s1.registry.pairs[i])
    ensures TokensBacked(s1) && CoinsBacked(s1, []) && IssuedUnderMetadata(s1) && ExternalsFound(s1) && OwnersKnown(s1)
  {
    hide SumBy, Liabilities, TokensBacked;
    assert forall d :: s1.Coin(d) == s.Coin(d);
    forall d ensures Liabilities(s1, d) == Liabilities(s, d) { SameLiabilities(s, s1, d); }
    StillBacked(s, s1);
    forall id | id in s1.registry.pairs ensures SameButEnabled(s.registry.pairs[id], s1.registry.pairs[id]) {}
  }

  /** Liabilities depend on each pair's owner and names and its contract's supply. */
  lemma SameLiabilities(s: Chain, s1: Chain, d: Denom)
    requires s1.registry.pairs.Keys == s.registry.pairs.Keys
    requires forall id :: id in s.registry.pairs ==>
      && SameButEnabled(s.registry.pairs[id], s1.registry.pairs[id])
      && (IssuesAgainst(s, s.registry.pairs[id], d) <==> IssuesAgainst(s1, s.registry.pairs[id], d))
      && (IssuesAgainst(s, s.registry.pairs[id], d) ==>
           s1.tokens[s.registry.pairs[id].erc20].supply == s.tokens[s.registry.pairs[id].erc20].supply)
    ensures Liabilities(s1, d) == Liabilities(s, d)
  {
  }

  lemma StillBacked(s: Chain, s1: Chain)
    requires TokensBacked(s) && forall d :: Liabilities(s1, d) == Liabilities(s, d) && s1.Coin(d).Of(MODULE) == s.Coin(d).Of(MODULE)
    ensures TokensBacked(s1)
  {
    hide SumBy, Liabilities;
    forall d ensures Issued(s1, d) <= s1.Coin(d).Of(MODULE) {
      assert Issued(s, d) <= s.Coin(d).Of(MODULE);
    }
  }

  /** Contracts that no pair names may come, and contracts the module does not
      own may go. */
  lemma ContractsChangeGood(s: Chain, s1: Chain, pending: seq<Log>)
    requires Good(s, pending) && s1 == s.(tokens := s1.tokens)
    requires forall c :: c in s.deployed && c in s.tokens ==> c in s1.tokens
    requires forall c :: c in s1.tokens ==>
      if c in s.tokens then s1.tokens[c] == s.tokens[c]
      else c !in s.registry.byErc20
    ensures Good(s1, pending)
  {
    hide SumBy, Liabilities, TokensBacked, CoinsBacked;
    assert forall d :: s1.Coin(d) == s.Coin(d);
    forall d ensures Liabilities(s1, d) == Liabilities(s, d) { SameLiabilities(s, s1, d); }
    StillBacked(s, s1);
    ContractsChangeCoins(s, s1, pending);
  }

  lemma ContractsChangeCoins(s: Chain, s1: Chain, pending: seq<Log>)
    requires CoinsBacked(s, pending) && ContractBijection(s.registry) && s1 == s.(tokens := s1.tokens)
    requires forall c :: c in s1.tokens ==> if c in s.tokens then s1.tokens[c] == s.tokens[c] else c !in s.registry.byErc20
    ensures CoinsBacked(s1, pending)
  {
  }

  lemma NewContractGood(s: Chain, c: Contract, x: Asset)
    requires Good(s, []) && c !in s.tokens && c !in s.registry.byErc20
    ensures Good(s.(tokens := s.tokens[c := x]), [])
  {
    ContractsChangeGood(s, s.(tokens := s.tokens[c := x]), []);
  }

  lemma ParamsChangeGood(s: Chain, e: bool, h: bool)
    requires Good(s, [])
    ensures Good(s.(enableErc20 := e, enableHook := h), [])
  {
    var s1 := s.(enableErc20 := e, enableHook := h);
    assert forall d :: s1.Coin(d) == s.Coin(d);
    SameBacking(s, s1);
  }

  // ---------------------------------------------------------------- names that read as contracts

  /** No coin in circulation and no registered denomination reads as a contract. */
  ghost predicate PlainNames(s: Chain) {
    && (forall d :: s.Coin(d).supply > 0 ==> ReadsAs(d).None?)
    && (forall id :: id in s.registry.pairs ==> ReadsAs(s.registry.pairs[id].denom).None?)
  }

  /** A holder's coin is in circulation, so its denomination leads to its own pair. */
  lemma MessageIsPlain(s: Chain, sender: Address, receiver: Address, denom: Denom, amount: nat, call: Call)
    requires Good(s, []) && PlainNames(s) && ConvertCoinWith(s, sender, receiver, denom, amount, call).Some?
    ensures NamedPair(s, denom).Some?
    ensures NamedPair(s, denom).value.erc20 in s.tokens ==> ReadsAs(denom).None?
  {
    hide ReadsAs, ContractBijection, DenomsResolve, TokensBacked, CoinsBacked, IssuedUnderMetadata, ExternalsFound;
    CoinConsistent(s, denom);
    HolderWithinSupply(s.Coin(denom), sender);
  }

  /** Only the coin of one pair changes, and not its name. */
  lemma TouchedStaysPlain(s: Chain, s1: Chain, p: TokenPair)
    requires PlainNames(s) && TouchesOnly(s, s1, p)
    requires s1.Coin(p.denom).supply <= s.Coin(p.denom).supply || ReadsAs(p.denom).None?
    ensures PlainNames(s1)
  {
  }

  lemma StoredIsPlain(s: Chain, p: TokenPair)
    requires PlainNames(s) && Stored(s, p)
    ensures ReadsAs(p.denom).None?
  {
  }

  lemma ConvertCoinPlain(s: Chain, sender: Address, receiver: Address, denom: Denom, amount: nat, call: Call)
    requires Good(s, []) && PlainNames(s) && sender != MODULE && ConvertCoinWith(s, sender, receiver, denom, amount, call).Some?
    ensures PlainNames(ConvertCoinWith(s, sender, receiver, denom, amount, call).value)
  {
    hide Good, ReadsAs, EscrowAndMint, ReturnAndUnlock, WithBooks, TouchesOnly, PlainNames, Resolve;
    MessageIsPlain(s, sender, receiver, denom, amount, call);
    var p := NamedPair(s, denom).value;
    if p.erc20 !in s.tokens {
      DropPlain(s, p);
    } else {
      var q := p.(denom := denom);
      var books := if p.owner == OwnerModule then EscrowAndMint(BooksOf(s, q), sender, receiver, amount)
                   else ReturnAndUnlock(BooksOf(s, q), sender, receiver, amount, call);
      BooksTouchOnly(s, q, books.value);
      TouchedStaysPlain(s, WithBooks(s, q, books.value), q);
    }
  }

  lemma DropPlain(s: Chain, p: TokenPair)
    requires PlainNames(s)
    ensures PlainNames(PairDropped(s, p))
  {
    var s1 := PairDropped(s, p);
    assert forall d :: s1.Coin(d) == s.Coin(d);
    assert forall id :: id in s1.registry.pairs ==> id in s.registry.pairs && s1.registry.pairs[id] == s.registry.pairs[id];
  }

  lemma ConvertERC20Plain(s: Chain, sender: Address, receiver: Address, c: Contract, amount: nat, call: Call)
    requires Good(s, []) && PlainNames(s) && ConvertERC20With(s, sender, receiver, c, amount, call).Some?
    ensures PlainNames(ConvertERC20With(s, sender, receiver, c, amount, call).value)
  {
    hide ReadsAs, BurnAndRelease, LockAndIssue, WithBooks, TouchesOnly, PlainNames, TokensBacked, CoinsBacked, BooksConsistent, ExternalsFound;
    LookupFindsNamedPair(s.registry, ByContract(c));
    var p := Lookup(s.registry, ByContract(c)).value;
    if p.erc20 !in s.tokens {
      DropPlain(s, p);
    } else {
      var books := if p.owner == OwnerModule then BurnAndRelease(BooksOf(s, p), sender, receiver, amount, s.blocked)
                   else LockAndIssue(BooksOf(s, p), receiver, amount, s.blocked, call);
      StoredIsPlain(s, p);
      BooksTouchOnly(s, p, books.value);
      TouchedStaysPlain(s, WithBooks(s, p, books.value), p);
    }
  }

  lemma HookLogPlain(s: Chain, log: Log)
    requires Sound(s.registry) && PlainNames(s)
    ensures HookLog(s, log).registry == s.registry && PlainNames(HookLog(s, log))
  {
    hide HookFirst, HookSecond, PlainNames, TouchesOnly, ReadsAs;
    var p := LogPair(s, log);
    if p.Some? && HookFirst(s, p.value, log.contract, log.amount).Some? {
      LookupFindsNamedPair(s.registry, ByContract(log.contract));
      HookFrame(s, p.value, log);
      StoredIsPlain(s, p.value);
      SameRegistry(s, AfterHook(s, p.value, log), p.value);
      TouchedStaysPlain(s, AfterHook(s, p.value, log), p.value);
    }
  }

  lemma {:induction false} HookLogsPlain(s: Chain, logs: seq<Log>)
    requires Sound(s.registry) && PlainNames(s)
    ensures HookLogs(s, logs).registry == s.registry && PlainNames(HookLogs(s, logs))
  {
    hide HookLog, PlainNames, Sound;
    if logs != [] {
      HookLogsPlain(s, logs[..|logs| - 1]);
      HookLogPlain(HookLogs(s, logs[..|logs| - 1]), logs[|logs| - 1]);
    }
  }

  lemma {:induction false} OpsTouchTokensOnly(s: Chain, ops: seq<TokenOp>)
    ensures var s1 := ApplyOps(s, ops).0; s1 == s.(tokens := s1.tokens)
  {
    if ops != [] {
      OpsTouchTokensOnly(s, ops[..|ops| - 1]);
    }
  }

  lemma EvmTxPlain(s: Chain, ops: seq<TokenOp>)
    requires Sound(s.registry) && PlainNames(s)
    ensures PlainNames(Apply(s, EvmTx(ops)))
  {
    hide ContractBijection, DenomsResolve, ReadsAs;
    OpsTouchTokensOnly(s, ops);
    var (s1, logs) := ApplyOps(s, ops);
    assert forall d :: s1.Coin(d) == s.Coin(d);
    HookLogsPlain(s1, logs);
  }

  lemma StepPlain(s: Chain, step: Step)
    requires Good(s, []) && PlainNames(s) && Admissible(s, step)
    ensures PlainNames(Apply(s, step))
  {
    hide Good, ReadsAs, PlainNames, ConvertCoinWith, ConvertERC20With, ApplyOps, PostTx, RegisterCoin, RegisterERC20, ToggleConversion, Sent, MintedElsewhere, BurnedElsewhere;
    match step
    case MsgConvertCoin(sender, receiver, denom, amount, call) =>
      if ConvertCoinWith(s, sender, receiver, denom, amount, call).Some? {
        ConvertCoinPlain(s, sender, receiver, denom, amount, call);
      }
    case MsgConvertERC20(sender, receiver, c, amount, call) =>
      if ConvertERC20With(s, sender, receiver, c, amount, call).Some? {
        ConvertERC20Plain(s, sender, receiver, c, amount, call);
      }
    case EvmTx(ops) =>
      GoodIsSound(s);
      EvmTxPlain(s, ops);
    case BankSend(d, source, to, amount) => BankPlain(s, d, source, to, amount);
    case BankMint(d, to, amount) => BankPlain(s, d, to, to, amount);
    case BankBurn(d, source, amount) => BankPlain(s, d, source, source, amount);
    case ProposeCoin(meta, deployment) => if RegisterCoin(s, meta, deployment).Some? { ProposeCoinPlain(s, meta, deployment); }
    case ProposeERC20(c, details) => if RegisterERC20(s, c, details).Some? { ProposeERC20Plain(s, c, details); }
    case ProposeToggle(token) =>
      GoodIsSound(s);
      if ToggleConversion(s, token).Some? { TogglePlain(s, token); }
    case NewContract(c, x) => SameNamesPlain(s, Apply(s, step));
    case SetParams(_, _) => SameNamesPlain(s, Apply(s, step));
  }

  lemma SameNamesPlain(s: Chain, s1: Chain)
    requires PlainNames(s) && s1.coins == s.coins && s1.registry == s.registry
    ensures PlainNames(s1)
  {
    assert forall d :: s1.Coin(d) == s.Coin(d);
  }

  lemma BankPlain(s: Chain, d: Denom, from: Address, to: Address, amount: nat)
    requires PlainNames(s)
    ensures PlainNames(Sent(s, d, from, to, amount)) && PlainNames(BurnedElsewhere(s, d, from, amount))
    ensures ReadsAs(d).None? ==> PlainNames(MintedElsewhere(s, d, to, amount))
  {
  }

  lemma ProposeCoinPlain(s: Chain, meta: Metadata, deployment: Option<Contract>)
    requires PlainNames(s) && RegisterCoin(s, meta, deployment).Some?
    ensures PlainNames(RegisterCoin(s, meta, deployment).value)
  {
    var s1 := RegisterCoin(s, meta, deployment).value;
    assert forall d :: s1.Coin(d) == s.Coin(d);
  }

  lemma ProposeERC20Plain(s: Chain, c: Contract, details: Option<string>)
    requires PlainNames(s) && RegisterERC20(s, c, details).Some?
    ensures PlainNames(RegisterERC20(s, c, details).value)
  {
    CreateDenomIsPlain(c);
    var s1 := RegisterERC20(s, c, details).value;
    assert forall d :: s1.Coin(d) == s.Coin(d);
  }

  lemma TogglePlain(s: Chain, token: string)
    requires Sound(s.registry) && PlainNames(s) && ToggleConversion(s, token).Some?
    ensures PlainNames(ToggleConversion(s, token).value)
  {
    hide ReadsAs;
    LookupFindsNamedPair(s.registry, Resolve(token));
    var s1 := ToggleConversion(s, token).value;
    assert forall d :: s1.Coin(d) == s.Coin(d);
  }

  /** What holds at the end of every step, the names included. */
  ghost predicate Backed(s: Chain) { Good(s, []) && PlainNames(s) }

  lemma StepGood(s: Chain, step: Step)
    requires Backed(s) && Admissible(s, step)
    ensures Backed(Apply(s, step))
  {
    hide Good, PlainNames, Apply;
    StepPlain(s, step);
    StepKeepsGood(s, step);
  }

  lemma StepKeepsGood(s: Chain, step: Step)
    requires Backed(s) && Admissible(s, step)
    ensures Good(Apply(s, step), [])
  {
    hide Good, PlainNames, ApplyOps, PostTx, ConvertCoinWith, ConvertERC20With, RegisterCoin, RegisterERC20, ToggleConversion, Sent, MintedElsewhere, BurnedElsewhere;
    match step
    case MsgConvertCoin(sender, receiver, denom, amount, call) => PlainConvertCoinGood(s, sender, receiver, denom, amount, call);
    case MsgConvertERC20(sender, receiver, c, amount, call) => ConvertERC20Good(s, sender, receiver, c, amount, call);
    case EvmTx(ops) =>
      OpsGood(s, ops);
      PostTxGood(ApplyOps(s, ops).0, ApplyOps(s, ops).1);
    case BankSend(d, source, to, amount) => SentGood(s, d, source, to, amount);
    case BankMint(d, to, amount) => MintedElsewhereGood(s, d, to, amount);
    case BankBurn(d, source, amount) => BurnedElsewhereGood(s, d, source, amount);
    case ProposeCoin(meta, c) => if RegisterCoin(s, meta, c).Some? { ProposeCoinGood(s, meta, c); }
    case ProposeERC20(c, details) => if RegisterERC20(s, c, details).Some? { ProposeERC20Good(s, c, details); }
    case ProposeToggle(token) => if ToggleConversion(s, token).Some? { ProposeToggleGood(s, token); }
    case NewContract(c, x) => NewContractGood(s, c, x);
    case SetParams(e, h) => ParamsChangeGood(s, e, h);
  }

  lemma PlainConvertCoinGood(s: Chain, sender: Address, receiver: Address, denom: Denom, amount: nat, call: Call)
    requires Backed(s) && sender != MODULE && FairFor(s, denom, amount, call)
    ensures var r := ConvertCoinWith(s, sender, receiver, denom, amount, call); r.Some? ==> Good(r.value, [])
  {
    hide Good, PlainNames, ConvertCoinWith, FairFor, ReadsAs, Covers;
    if ConvertCoinWith(s, sender, receiver, denom, amount, call).Some? {
      MessageIsPlain(s, sender, receiver, denom, amount, call);
      if NamedPair(s, denom).value.erc20 in s.tokens {
        ConvertCoinGood(s, sender, receiver, denom, amount, call);
      } else {
        ConvertCoinBackedIff(s, sender, receiver, denom, amount, call);
      }
    }
  }

  function Run(s: Chain, steps: seq<Step>): Chain {
    if steps == [] then s
    else
      var last := |steps| - 1;
      Apply(Run(s, steps[..last]), steps[last])
  }

  ghost predicate AdmissibleRun(s: Chain, steps: seq<Step>) {
    steps != [] ==>
      var last := |steps| - 1;
      AdmissibleRun(s, steps[..last]) && Admissible(Run(s, steps[..last]), steps[last])
  }

  /** In every interleaving, every registered pair whose contract exists is
      backed: all tokens issued against a denomination by its escrowed coins,
      all coins of an external pair by the tokens held. To begin with, and of
      the coins other modules mint, no denomination may read as a contract. */
  lemma {:induction false} RunGood(s: Chain, steps: seq<Step>)
    requires Backed(s) && AdmissibleRun(s, steps)
    ensures Backed(Run(s, steps))
  {
    if steps != [] {
      var last := |steps| - 1;
      RunGood(s, steps[..last]);
      StepGood(Run(s, steps[..last]), steps[last]);
    }
  }
}
