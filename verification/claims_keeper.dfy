/** The claims keeper as the module runs it: stores updated in place, early
    returns and loops, each method tied to the ledger's transition. */
module ClaimsKeeper {
  import opened Common
  import opened ClaimsTypes
  import opened ClaimsDecay
  import opened ClaimsLedger
  import opened ClaimsSolvency
  import opened ClaimsEnd

  const ACTIONS: seq<Action> := [Vote, Delegate, EVM, IBCTransfer]

  /** The merge loop's running total after `n` actions, when one action pays
      `a` out of the sender's record and `b` out of the recipient's. */
  function PartialTotal(rr: ClaimsRecord, n: nat, a: int, b: int): int
    requires n <= |ACTIONS|
  {
    if n == 0 then 0
    else PartialTotal(rr, n - 1, a, b)
         + (if rr.HasClaimedAction(ACTIONS[n - 1]) then a else if ACTIONS[n - 1] == IBCTransfer then a + b else 0)
  }

  lemma PartialTotalOfAll(rr: ClaimsRecord, a: int, b: int)
    ensures PartialTotal(rr, |ACTIONS|, a, b) == MergeTotal(rr, a, b)
  {
    assert PartialTotal(rr, 1, a, b) == Bit(rr.HasClaimedAction(Vote)) * a;
    assert PartialTotal(rr, 2, a, b) == PartialTotal(rr, 1, a, b) + Bit(rr.HasClaimedAction(Delegate)) * a;
    assert PartialTotal(rr, 3, a, b) == PartialTotal(rr, 2, a, b) + Bit(rr.HasClaimedAction(EVM)) * a;
  }

  /** The merged record's bits after `n` actions. */
  function PartialBits(rr: ClaimsRecord, n: nat): seq<bool>
    requires n <= |ACTIONS|
    ensures |PartialBits(rr, n)| == NUM_ACTIONS
  {
    if n == 0 then [false, false, false, false]
    else if rr.HasClaimedAction(ACTIONS[n - 1]) || ACTIONS[n - 1] == IBCTransfer
    then PartialBits(rr, n - 1)[n - 1 := true]
    else PartialBits(rr, n - 1)
  }

  lemma PartialBitsOfAll(sr: ClaimsRecord, rr: ClaimsRecord)
    ensures PartialBits(rr, |ACTIONS|) == Merged(sr, rr).completed
  {
    assert PartialBits(rr, 1) == [rr.HasClaimedAction(Vote), false, false, false];
    assert PartialBits(rr, 2) == [rr.HasClaimedAction(Vote), rr.HasClaimedAction(Delegate), false, false];
    assert PartialBits(rr, 3) == [rr.HasClaimedAction(Vote), rr.HasClaimedAction(Delegate), rr.HasClaimedAction(EVM), false];
  }

  /** An open action's share depends on the amount alone. */
  lemma ShareOfOpenAction(r: ClaimsRecord, action: Action, p: Params, t: int)
    requires p.Valid() && !r.HasClaimedAction(action)
    ensures GetClaimableAmountForAction(r, action, p, t)
            == GetClaimableAmountForAction(NewClaimsRecord(r.amount), IBCTransfer, p, t)
  {
  }

  class Keeper {
    var params: Params
    var records: map<Address, ClaimsRecord>
    var bank: map<Address, nat>
    var pool: nat
    var accounts: map<Address, Account>
    const blocked: set<Address>

    constructor (s: Ledger)
      ensures State() == s
    {
      params, records, bank, pool, accounts, blocked := s.params, s.records, s.bank, s.pool, s.accounts, s.blocked;
    }

    function State(): Ledger
      reads this
    {
      Ledger(params, records, bank, pool, accounts, blocked)
    }

    // -------------------------------------------------------------- bank and distribution

    method SendCoinsFromModuleToAccount(to: Address, amount: int) returns (ok: bool)
      modifies this`bank
      ensures ok == (to !in blocked && 0 < amount <= old(Escrow(State())))
      ensures bank == if ok then Move(old(bank), ESCROW, to, amount) else old(bank)
    {
      if to in blocked || amount <= 0 || Balance(bank, ESCROW) < amount {
        return false;
      }
      bank := bank[ESCROW := Balance(bank, ESCROW) - amount];
      bank := bank[to := Balance(bank, to) + amount];
      return true;
    }

    method FundCommunityPool(amount: int, from: Address) returns (ok: bool)
      modifies this`bank, this`pool
      ensures ok == (0 < amount <= old(Balance(bank, from)))
      ensures State() == if ok then FundPool(old(State()), from, amount) else old(State())
    {
      if amount <= 0 || Balance(bank, from) < amount {
        return false;
      }
      bank := bank[from := Balance(bank, from) - amount];
      bank := bank[DISTRIBUTION := Balance(bank, DISTRIBUTION) + amount];
      pool := pool + amount;
      return true;
    }

    // -------------------------------------------------------------- claim.go

    method ClaimCoinsForAction(t: int, addr: Address, record: ClaimsRecord, action: Action) returns (r: Result<int>)
      requires params.Valid()
      modifies this`bank, this`pool, this`records
      ensures (State(), r) == old(Claim(State(), t, addr, record, action))
    {
      if action.Unspecified? {
        return Err(InvalidAction);
      }
      if !params.IsClaimsActive(t) {
        return Ok(0);
      }
      if record.HasClaimedAction(action) {
        return Ok(0);
      }
      var (claimable, remainder) := GetClaimableAmountForAction(record, action, params, t);
      if claimable == 0 {
        return Ok(0);
      }
      var sent := SendCoinsFromModuleToAccount(addr, claimable);
      if !sent {
        return Err(TransferFailed);
      }
      if remainder != 0 {
        var funded := FundCommunityPool(remainder, ESCROW);
        if !funded {
          return Err(TransferFailed);
        }
      }
      var claimed := record.MarkClaimed(action);
      records := records[addr := claimed];
      return Ok(claimable);
    }

    /** The merge loop's sums, before any transfer. */
    method MergeAmounts(t: int, sr: ClaimsRecord, rr: ClaimsRecord)
      returns (ok: bool, merged: ClaimsRecord, claimedAmt: int, remainderAmt: int)
      requires params.Valid()
      ensures ok == !HasClaimedOne(sr)
      ensures ok ==> merged == Merged(sr, rr) && (claimedAmt, remainderAmt) == MergeShares(State(), t, sr, rr)
    {
      claimedAmt, remainderAmt := 0, 0;
      merged := NewClaimsRecord(sr.amount + rr.amount);
      ghost var x := GetClaimableAmountForAction(NewClaimsRecord(sr.amount), IBCTransfer, params, t);
      ghost var y := GetClaimableAmountForAction(rr, IBCTransfer, params, t);
      for i := 0 to |ACTIONS|
        invariant forall j :: 0 <= j < i ==> !sr.HasClaimedAction(ACTIONS[j])
        invariant merged == ClaimsRecord(sr.amount + rr.amount, PartialBits(rr, i))
        invariant claimedAmt == PartialTotal(rr, i, x.0, y.0)
        invariant remainderAmt == PartialTotal(rr, i, x.1, y.1)
      {
        var action := ACTIONS[i];
        if sr.HasClaimedAction(action) {
          return false, merged, 0, 0;
        }
        ShareOfOpenAction(sr, action, params, t);
        var recipientCompleted := rr.HasClaimedAction(action);
        if recipientCompleted {
          var (amt, remainder) := GetClaimableAmountForAction(sr, action, params, t);
          claimedAmt := claimedAmt + amt;
          remainderAmt := remainderAmt + remainder;
          merged := merged.MarkClaimed(action);
        } else {
          if action != IBCTransfer {
            continue;
          }
          var (amtRecipient, remainderRecipient) := GetClaimableAmountForAction(rr, action, params, t);
          var (amtSender, remainderSender) := GetClaimableAmountForAction(sr, action, params, t);
          claimedAmt := claimedAmt + amtRecipient + amtSender;
          remainderAmt := remainderAmt + remainderRecipient + remainderSender;
          merged := merged.MarkClaimed(action);
        }
      }
      assert !sr.HasClaimedAction(ACTIONS[0]) && !sr.HasClaimedAction(ACTIONS[1])
             && !sr.HasClaimedAction(ACTIONS[2]) && !sr.HasClaimedAction(ACTIONS[3]);
      ShareOfOpenAction(sr, IBCTransfer, params, t);
      PartialBitsOfAll(sr, rr);
      PartialTotalOfAll(rr, x.0, y.0);
      PartialTotalOfAll(rr, x.1, y.1);
      return true, merged, claimedAmt, remainderAmt;
    }

    method MergeClaimsRecords(t: int, recipient: Address, sr: ClaimsRecord, rr: ClaimsRecord)
      returns (r: Result<ClaimsRecord>)
      requires params.Valid()
      modifies this`bank, this`pool
      ensures (State(), r) == old(Merge(State(), t, recipient, sr, rr))
    {
      var ok, merged, claimedAmt, remainderAmt := MergeAmounts(t, sr, rr);
      if !ok {
        return Err(SenderHasClaimed);
      }
      if claimedAmt == 0 {
        return Ok(merged);
      }
      var sent := SendCoinsFromModuleToAccount(recipient, claimedAmt);
      if !sent {
        return Err(TransferFailed);
      }
      if remainderAmt == 0 {
        return Ok(merged);
      }
      var funded := FundCommunityPool(remainderAmt, ESCROW);
      if !funded {
        return Err(TransferFailed);
      }
      return Ok(merged);
    }

    // -------------------------------------------------------------- hooks.go

    method AfterProposalVote(t: int, voter: Address)
      requires params.Valid()
      modifies this`bank, this`pool, this`records
      ensures State() == Apply(old(State()), Step.AfterProposalVote(t, voter))
    {
      if voter !in records {
        return;
      }
      var _ := ClaimCoinsForAction(t, voter, records[voter], Vote);
    }

    method AfterDelegationModified(t: int, delegator: Address)
      requires params.Valid()
      modifies this`bank, this`pool, this`records
      ensures State() == Apply(old(State()), Step.AfterDelegationModified(t, delegator))
    {
      if delegator !in records {
        return;
      }
      var _ := ClaimCoinsForAction(t, delegator, records[delegator], Delegate);
    }

    method PostTxProcessing(t: int, from: Address)
      requires params.Valid()
      modifies this`bank, this`pool, this`records
      ensures State() == Apply(old(State()), Step.PostTxProcessing(t, from))
    {
      if from !in records {
        return;
      }
      var _ := ClaimCoinsForAction(t, from, records[from], EVM);
    }

    // -------------------------------------------------------------- ibc_callbacks.go

    method OnAcknowledgementPacket(t: int, packet: Packet, ack: Option<bool>) returns (ok: bool)
      requires params.Valid()
      modifies this`bank, this`pool, this`records
      ensures (State(), ok) == old(Ack(State(), t, packet, ack))
    {
      if !params.IsClaimsActive(t) {
        return true;
      }
      if ack.None? {
        return false;
      }
      if !ack.value {
        return true;
      }
      if !packet.decoded {
        return false;
      }
      if packet.sender !in records {
        return true;
      }
      var r := ClaimCoinsForAction(t, packet.sender, records[packet.sender], IBCTransfer);
      return r.Ok?;
    }

    /** The result is whether the acknowledgement is a success. */
    method OnRecvPacket(t: int, packet: Packet) returns (success: bool)
      requires params.Valid()
      modifies this`bank, this`pool, this`records
      ensures (State(), success) == old(Recv(State(), t, packet))
    {
      if !params.IsClaimsActive(t) {
        return true;
      }
      if !packet.decoded {
        return false;
      }
      var sender, recipient := packet.sender, packet.recipient;
      if sender in blocked || recipient in blocked {
        return false;
      }
      var senderRecordFound := sender in records;
      if senderRecordFound && records[sender].HasClaimedAction(IBCTransfer) {
        return true;
      }
      var sameAddress := sender == recipient;
      var fromEVMChain := params.IsEVMChannel(packet.channel);
      if sameAddress && !fromEVMChain {
        if senderRecordFound && !records[sender].HasClaimedAny() {
          return false;
        } else {
          return true;
        }
      }
      if !params.IsAuthorizedChannel(packet.channel) {
        return true;
      }
      var recipientRecordFound := recipient in records;
      if packet.amount.None? {
        return false;
      }
      var isTriggerAmt := packet.amount.value == TRIGGER_AMOUNT;
      if senderRecordFound && recipientRecordFound && !sameAddress && isTriggerAmt {
        var merged := MergeClaimsRecords(t, recipient, records[sender], records[recipient]);
        if merged.Err? {
          return false;
        }
        records := records[recipient := merged.value];
        records := records - {sender};
      } else if senderRecordFound && !recipientRecordFound && isTriggerAmt {
        var claimed := ClaimCoinsForAction(t, recipient, records[sender], IBCTransfer);
        if claimed.Err? {
          return false;
        }
        if claimed.value != 0 {
          records := records - {sender};
        }
      } else if (!senderRecordFound && recipientRecordFound)
             || (sameAddress && fromEVMChain && recipientRecordFound) {
        var claimed := ClaimCoinsForAction(t, recipient, records[recipient], IBCTransfer);
        return claimed.Ok?;
      }
      return true;
    }

    /** The transfer application's own coins. */
    method SendCoins(from: Address, to: Address, amount: nat)
      modifies this`bank
      ensures State() == Sent(old(State()), from, to, amount)
    {
      if from == ESCROW || to in blocked || amount == 0 || Balance(bank, from) < amount {
        return;
      }
      bank := bank[from := Balance(bank, from) - amount];
      bank := bank[to := Balance(bank, to) + amount];
    }

    /** The middleware in core IBC's cached context: the transfer application,
        then the callback unless that failed; writes are kept only under a
        success acknowledgement. */
    method ReceiveCached(t: int, packet: Packet, app: Delivery) returns (success: bool)
      requires params.Valid()
      modifies this`bank, this`pool, this`records
      ensures State() == Apply(old(State()), RecvPacket(t, packet, app))
      ensures !app.success || !success ==> State() == old(State())
    {
      var savedBank, savedPool, savedRecords := bank, pool, records;
      SendCoins(app.source, app.to, app.amount);
      success := app.success;
      if success {
        success := OnRecvPacket(t, packet);
      }
      if !success {
        bank, pool, records := savedBank, savedPool, savedRecords;
      }
    }

    // -------------------------------------------------------------- abci.go

    method ClawbackEscrowedTokens()
      modifies this`bank, this`pool
      ensures State() == ClawbackEscrow(old(State()))
    {
      var balance := Balance(bank, ESCROW);
      if balance == 0 {
        return;
      }
      var _ := FundCommunityPool(balance, ESCROW);
    }

    /** The iteration over the records; it returns the addresses it visited. */
    method ClawbackVisited(order: seq<Address>) returns (addresses: seq<Address>)
      modifies this`bank, this`pool, this`accounts
      ensures addresses == order
      ensures State() == ClawbackAll(old(State()), order)
    {
      ghost var start := State();
      addresses := [];
      for i := 0 to |order|
        invariant addresses == order[..i]
        invariant State() == ClawbackAll(start, order[..i])
      {
        var addr := order[i];
        assert order[..i + 1][..i] == order[..i];
        addresses := addresses + [addr];
        if addr !in accounts || accounts[addr].vesting || accounts[addr].sequence != 0 {
          continue;
        }
        var clawback := Balance(bank, addr);
        if clawback == 0 {
          accounts := accounts - {addr};
          continue;
        }
        var _ := FundCommunityPool(clawback, addr);
      }
      assert order[..|order|] == order;
    }

    method DeleteRecords(addresses: seq<Address>)
      modifies this`records
      ensures records == old(records) - (set a | a in addresses)
    {
      for i := 0 to |addresses|
        invariant records == old(records) - (set a | a in addresses[..i])
      {
        assert addresses[..i + 1] == addresses[..i] + [addresses[i]];
        records := records - {addresses[i]};
      }
      assert addresses[..|addresses|] == addresses;
    }

    /** `order` is the store's iteration order. Records are deleted after the
        iteration, from the list of addresses it collected. */
    method ClawbackEmptyAccounts(order: seq<Address>)
      requires Enumerates(order, records)
      modifies this`bank, this`pool, this`accounts, this`records
      ensures State() == ClawbackAll(old(State()), order).(records := map[])
    {
      var addresses := ClawbackVisited(order);
      DeleteRecords(addresses);
    }

    method EndAirdrop(order: seq<Address>)
      requires Enumerates(order, records)
      modifies this
      ensures State() == ClaimsEnd.EndAirdrop(old(State()), order)
    {
      ClawbackEscrowedTokens();
      ClawbackEmptyAccounts(order);
      params := params.(enableClaims := false);
    }

    method EndBlocker(t: int, order: seq<Address>)
      requires Enumerates(order, records)
      modifies this
      ensures State() == EndBlock(old(State()), t, order)
    {
      if !params.enableClaims {
        return;
      }
      var elapsed := TimeSub(t, params.airdropStartTime);
      if elapsed <= DurationAdd(params.durationUntilDecay, params.durationOfDecay) {
        return;
      }
      EndAirdrop(order);
    }
  }
}
