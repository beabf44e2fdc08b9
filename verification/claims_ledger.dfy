/** The airdrop ledger as a value, and what each keeper operation does to it. */
module ClaimsLedger {
  import opened Common
  import opened ClaimsTypes
  import opened ClaimsDecay
  import opened MapSums

  type Result<+T> = Outcome<T, Error>

  datatype Error = InvalidAction | TransferFailed | SenderHasClaimed

  /** The claims module account, which holds the unclaimed coins. */
  const ESCROW: Address := "claims"

  /** The distribution module account, which holds the community pool's coins. */
  const DISTRIBUTION: Address := "distribution"

  datatype Account = Account(vesting: bool, sequence: nat)

  /** `bank` holds balances of the claims denomination; `pool` is the community
      pool as the distribution module counts it. */
  datatype Ledger = Ledger(
    params: Params,
    records: map<Address, ClaimsRecord>,
    bank: map<Address, nat>,
    pool: nat,
    accounts: map<Address, Account>,
    blocked: set<Address>)
  {
    /** What the chain's configuration and the genesis checks guarantee. */
    predicate Valid() {
      && params.Valid()
      && ESCROW in blocked
      && forall a :: a in records ==> records[a].WellFormed()
    }
  }

  // ---------------------------------------------------------------- bank

  function Balance(bank: map<Address, nat>, a: Address): nat {
    if a in bank then bank[a] else 0
  }

  function Escrow(s: Ledger): nat { Balance(s.bank, ESCROW) }

  function Move(bank: map<Address, nat>, from: Address, to: Address, amount: nat): map<Address, nat>
    requires amount <= Balance(bank, from)
  {
    var debited := bank[from := Balance(bank, from) - amount];
    debited[to := Balance(debited, to) + amount]
  }

  ghost function TotalCoins(bank: map<Address, nat>): int { SumBy<Address, int>(bank, Itself) }

  lemma MoveConserves(bank: map<Address, nat>, from: Address, to: Address, amount: nat)
    requires amount <= Balance(bank, from)
    ensures TotalCoins(Move(bank, from, to, amount)) == TotalCoins(bank)
  {
    var debited := bank[from := Balance(bank, from) - amount];
    SumUpdate<Address, int>(bank, Itself, from, Balance(bank, from) - amount);
    SumUpdate<Address, int>(debited, Itself, to, Balance(debited, to) + amount);
  }

  /** Ordinary bank traffic: nobody but the module spends escrow, and blocked
      addresses receive nothing. */
  function Sent(s: Ledger, from: Address, to: Address, amount: nat): Ledger {
    if from == ESCROW || to in s.blocked || !(0 < amount <= Balance(s.bank, from)) then s
    else s.(bank := Move(s.bank, from, to, amount))
  }

  /** The community pool is paid by a transfer to the distribution account. */
  function FundPool(s: Ledger, from: Address, amount: nat): Ledger
    requires amount <= Balance(s.bank, from)
  {
    s.(bank := Move(s.bank, from, DISTRIBUTION, amount), pool := s.pool + amount)
  }

  /** Pays `claimed` to a user and then `remainder` to the pool, both out of
      escrow. Each transfer can fail, and the first is not undone when the
      second does. The bank refuses amounts that are not positive. */
  function PayOut(s: Ledger, to: Address, claimed: int, remainder: int): (Ledger, bool) {
    if to in s.blocked || !(0 < claimed <= Escrow(s)) then (s, false)
    else
      var s1 := s.(bank := Move(s.bank, ESCROW, to, claimed));
      if remainder == 0 then (s1, true)
      else if 0 < remainder <= Escrow(s1) then (FundPool(s1, ESCROW, remainder), true)
      else (s1, false)
  }

  // ---------------------------------------------------------------- claim

  /** Claiming one action of `record` on behalf of `addr`. */
  function Claim(s: Ledger, t: int, addr: Address, record: ClaimsRecord, action: Action): (Ledger, Result<int>)
    requires s.params.Valid()
  {
    var (claimable, remainder) := GetClaimableAmountForAction(record, action, s.params, t);
    if action.Unspecified? then (s, Err(InvalidAction))
    else if claimable == 0 then (s, Ok(0))
    else
      var (paid, ok) := PayOut(s, addr, claimable, remainder);
      if ok then (paid.(records := s.records[addr := record.MarkClaimed(action)]), Ok(claimable))
      else (paid, Err(TransferFailed))
  }

  /** The vote, delegation and EVM hooks: claim if there is a record, ignore errors. */
  function HookClaim(s: Ledger, t: int, addr: Address, action: Action): Ledger
    requires s.params.Valid()
  {
    if addr in s.records then Claim(s, t, addr, s.records[addr], action).0 else s
  }

  // ---------------------------------------------------------------- merge

  /** The record that replaces the recipient's. */
  function Merged(sender: ClaimsRecord, recipient: ClaimsRecord): ClaimsRecord {
    ClaimsRecord(sender.amount + recipient.amount,
                 [recipient.HasClaimedAction(Vote), recipient.HasClaimedAction(Delegate),
                  recipient.HasClaimedAction(EVM), true])
  }

  function CompletedActions(r: ClaimsRecord): nat {
    Bit(r.HasClaimedAction(Vote)) + Bit(r.HasClaimedAction(Delegate))
    + Bit(r.HasClaimedAction(EVM)) + Bit(r.HasClaimedAction(IBCTransfer))
  }

  /** A merge claims, for the sender, each action the recipient has completed,
      and the IBC action for both when the recipient has not completed it. The
      two weights are what one action pays out of each record. */
  function MergeTotal(recipient: ClaimsRecord, perSender: int, perRecipient: int): int {
    CompletedActions(recipient) * perSender
    + (if recipient.HasClaimedAction(IBCTransfer) then 0 else perSender + perRecipient)
  }

  function MergeShares(s: Ledger, t: int, sender: ClaimsRecord, recipient: ClaimsRecord): (int, int)
    requires s.params.Valid()
  {
    var a := GetClaimableAmountForAction(sender, IBCTransfer, s.params, t);
    var b := GetClaimableAmountForAction(recipient, IBCTransfer, s.params, t);
    (MergeTotal(recipient, a.0, b.0), MergeTotal(recipient, a.1, b.1))
  }

  predicate HasClaimedOne(r: ClaimsRecord) {
    r.HasClaimedAction(Vote) || r.HasClaimedAction(Delegate) || r.HasClaimedAction(EVM) || r.HasClaimedAction(IBCTransfer)
  }

  function Merge(s: Ledger, t: int, recipient: Address, sr: ClaimsRecord, rr: ClaimsRecord): (Ledger, Result<ClaimsRecord>)
    requires s.params.Valid()
  {
    var (claimed, remainder) := MergeShares(s, t, sr, rr);
    if HasClaimedOne(sr) then (s, Err(SenderHasClaimed))
    else if claimed == 0 then (s, Ok(Merged(sr, rr)))
    else
      var (paid, ok) := PayOut(s, recipient, claimed, remainder);
      (paid, if ok then Ok(Merged(sr, rr)) else Err(TransferFailed))
  }

  // ---------------------------------------------------------------- IBC callbacks

  /** An ICS-20 packet with its addresses and amount already decoded;
      `decoded` is false, or `amount` absent, when decoding fails. */
  datatype Packet = Packet(decoded: bool, sender: Address, recipient: Address, channel: string, amount: Option<string>)

  const TRIGGER_AMOUNT: string := "63743"

  /** What a received packet calls for. */
  datatype RecvCase = Refuse | Ignore | DoMerge | DoMigrate | DoClaim

  function Classify(s: Ledger, t: int, p: Packet): RecvCase {
    if !s.params.IsClaimsActive(t) then Ignore
    else if !p.decoded || p.sender in s.blocked || p.recipient in s.blocked then Refuse
    else
      var senderFound, recipientFound := p.sender in s.records, p.recipient in s.records;
      if senderFound && s.records[p.sender].HasClaimedAction(IBCTransfer) then Ignore
      else if p.sender == p.recipient && !s.params.IsEVMChannel(p.channel) then
        if senderFound && !s.records[p.sender].HasClaimedAny() then Refuse else Ignore
      else if !s.params.IsAuthorizedChannel(p.channel) then Ignore
      else if p.amount.None? then Refuse
      else if p.sender == p.recipient then
        if recipientFound then DoClaim else Ignore
      else if senderFound then
        if p.amount.value != TRIGGER_AMOUNT then Ignore
        else if recipientFound then DoMerge else DoMigrate
      else if recipientFound then DoClaim
      else Ignore
  }

  /** The receive callback: the state it leaves and whether its acknowledgement is a success. */
  function Recv(s: Ledger, t: int, p: Packet): (Ledger, bool)
    requires s.params.Valid()
  {
    match Classify(s, t, p)
    case Refuse => (s, false)
    case Ignore => (s, true)
    case DoClaim =>
      var (s1, r) := Claim(s, t, p.recipient, s.records[p.recipient], IBCTransfer);
      (s1, r.Ok?)
    case DoMigrate =>
      var (s1, r) := Claim(s, t, p.recipient, s.records[p.sender], IBCTransfer);
      if r.Ok? && r.value != 0 then (s1.(records := s1.records - {p.sender}), true)
      else (s1, r.Ok?)
    case DoMerge =>
      var (s1, r) := Merge(s, t, p.recipient, s.records[p.sender], s.records[p.recipient]);
      if r.Ok? then (s1.(records := s1.records[p.recipient := r.value] - {p.sender}), true)
      else (s1, false)
  }

  /** The callback's writes count only under a success acknowledgement. */
  function RecvCommitted(s: Ledger, t: int, p: Packet): Ledger
    requires s.params.Valid()
  {
    var (s1, success) := Recv(s, t, p);
    if success then s1 else s
  }

  /** What the transfer application below does with the packet: whether its
      acknowledgement is a success, and the coins it moves. */
  datatype Delivery = Delivery(success: bool, source: Address, to: Address, amount: nat)

  /** A received packet as core IBC runs it: the transfer application first,
      the callback on the state that leaves, and nothing of either is kept
      under an error acknowledgement. */
  function Delivered(s: Ledger, t: int, p: Packet, app: Delivery): Ledger
    requires s.params.Valid()
  {
    var s0 := Sent(s, app.source, app.to, app.amount);
    if app.success && Recv(s0, t, p).1 then Recv(s0, t, p).0 else s
  }

  /** The acknowledgement callback. `ack` is absent when it cannot be decoded. */
  function Ack(s: Ledger, t: int, p: Packet, ack: Option<bool>): (Ledger, bool)
    requires s.params.Valid()
  {
    if !s.params.IsClaimsActive(t) then (s, true)
    else if ack.None? then (s, false)
    else if !ack.value then (s, true)
    else if !p.decoded then (s, false)
    else if p.sender !in s.records then (s, true)
    else
      var (s1, r) := Claim(s, t, p.sender, s.records[p.sender], IBCTransfer);
      (s1, r.Ok?)
  }

  /** A failed acknowledgement message is rolled back with its transaction. */
  function AckCommitted(s: Ledger, t: int, p: Packet, ack: Option<bool>): Ledger
    requires s.params.Valid()
  {
    var (s1, ok) := Ack(s, t, p, ack);
    if ok then s1 else s
  }
}
