/** What each hook, each IBC callback and each block end does, told from outside:
    in terms of the ledger, the packet and the clock. */
module ClaimsEffects {
  import opened Common
  import opened ClaimsTypes
  import opened ClaimsDecay
  import opened ClaimsLedger
  import opened ClaimsSolvency
  import opened ClaimsHistory
  import opened ClaimsEnd

  // ---------------------------------------------------------------- terms

  /** Claims are on, and the time lies between the start and the end of the airdrop. */
  predicate Open(p: Params, t: int) {
    p.enableClaims && p.airdropStartTime <= t <= p.airdropStartTime + p.durationUntilDecay + p.durationOfDecay
  }

  /** What an open action of a record of this amount pays: a quarter, less the
      share of the decay period that has passed. */
  function Worth(p: Params, amount: nat, t: int): int
    requires p.Valid()
  {
    if !Open(p, t) then 0
    else
      var passed := t - p.airdropStartTime - p.durationUntilDecay;
      Decayed(amount / 4, if passed < 0 then 0 else passed, p.durationOfDecay)
  }

  /** The address has the record `r`, may receive coins, and an open action in
      this slot that pays something. */
  predicate Pays(s: Ledger, t: int, a: Address, r: ClaimsRecord, slot: nat)
    requires s.params.Valid() && |r.completed| == 4 && slot < 4
  {
    a !in s.blocked && !r.completed[slot] && Worth(s.params, r.amount, t) > 0
  }

  /** The action is completed in the record now at `a`, its worth has gone to
      `a` and the rest of the quarter to the community pool; nothing else moved. */
  ghost predicate Claimed(s: Ledger, s1: Ledger, t: int, a: Address, r: ClaimsRecord, slot: nat)
    requires s.params.Valid() && |r.completed| == 4 && slot < 4
  {
    var worth := Worth(s.params, r.amount, t);
    && s1 == s.(records := s1.records, bank := s1.bank, pool := s1.pool)
    && s1.records == s.records[a := ClaimsRecord(r.amount, r.completed[slot := true])]
    && PaidInFull(s, s1, a, worth, r.amount / 4 - worth)
  }

  /** The position of an action's bit. */
  predicate InSlot(action: Action, slot: nat) {
    || (action == Vote && slot == 0) || (action == Delegate && slot == 1)
    || (action == EVM && slot == 2) || (action == IBCTransfer && slot == 3)
  }

  lemma WorthIsClaimable(s: Ledger, t: int, r: ClaimsRecord, action: Action, slot: nat)
    requires s.params.Valid() && |r.completed| == 4 && InSlot(action, slot)
    ensures GetClaimableAmountForAction(r, action, s.params, t)
            == if Open(s.params, t) && !r.completed[slot]
               then (Worth(s.params, r.amount, t), r.amount / 4 - Worth(s.params, r.amount, t)) else (0, 0)
    ensures 0 <= Worth(s.params, r.amount, t) <= r.amount / 4
  {
    hide Decayed, ClaimableAmountForAction;
    if Open(s.params, t) {
      var untouched := NewClaimsRecord(r.amount);
      ClaimableIsDecayed(untouched, action, s.params, t);
      ClaimableSplitsQuarter(untouched, action, s.params, t);
      if !r.completed[slot] {
        ClaimableIsDecayed(r, action, s.params, t);
        ClaimableSplitsQuarter(r, action, s.params, t);
      } else {
        NothingTwice(r, action, s.params, t);
      }
    }
  }

  lemma NothingTwice(r: ClaimsRecord, action: Action, p: Params, t: int)
    requires p.Valid() && r.HasClaimedAction(action)
    ensures ClaimableAmountForAction(r, action, p, t) == (0, 0)
  {
  }

  /** A claim, when escrow holds the quarter: paid and marked, or nothing. It
      fails exactly when there is something to pay to a blocked address. */
  lemma ClaimEffect(s: Ledger, t: int, a: Address, r: ClaimsRecord, action: Action, slot: nat)
    requires s.Valid() && |r.completed| == 4 && InSlot(action, slot)
    requires !r.completed[slot] ==> r.amount / 4 <= Escrow(s)
    ensures var (s1, res) := Claim(s, t, a, r, action);
            if Pays(s, t, a, r, slot) then Claimed(s, s1, t, a, r, slot) && res == Ok(Worth(s.params, r.amount, t))
            else s1 == s && (if !r.completed[slot] && Worth(s.params, r.amount, t) > 0 then res.Err? else res == Ok(0))
  {
    hide Claim, Worth, Claimed;
    if Pays(s, t, a, r, slot) {
      PaidClaim(s, t, a, r, action, slot);
    } else {
      UnpaidClaim(s, t, a, r, action, slot);
    }
  }

  lemma PaidClaim(s: Ledger, t: int, a: Address, r: ClaimsRecord, action: Action, slot: nat)
    requires s.Valid() && |r.completed| == 4 && InSlot(action, slot) && Pays(s, t, a, r, slot) && r.amount / 4 <= Escrow(s)
    ensures var (s1, res) := Claim(s, t, a, r, action);
            Claimed(s, s1, t, a, r, slot) && res == Ok(Worth(s.params, r.amount, t))
  {
    hide Worth, GetClaimableAmountForAction, PayOut, Move;
    WorthIsClaimable(s, t, r, action, slot);
    if !Open(s.params, t) {
      NothingWhenClosed(s.params, r.amount, t);
    }
    var worth := Worth(s.params, r.amount, t);
    PayOutInFull(s, a, worth, r.amount / 4 - worth);
    PayOutConserves(s, a, worth, r.amount / 4 - worth);
    assert r.MarkClaimed(action) == ClaimsRecord(r.amount, r.completed[slot := true]);
  }

  lemma UnpaidClaim(s: Ledger, t: int, a: Address, r: ClaimsRecord, action: Action, slot: nat)
    requires s.Valid() && |r.completed| == 4 && InSlot(action, slot) && !Pays(s, t, a, r, slot)
    ensures var (s1, res) := Claim(s, t, a, r, action);
            s1 == s && (if !r.completed[slot] && Worth(s.params, r.amount, t) > 0 then res.Err? else res == Ok(0))
  {
    hide Worth, GetClaimableAmountForAction, Move;
    WorthIsClaimable(s, t, r, action, slot);
    if !Open(s.params, t) {
      NothingWhenClosed(s.params, r.amount, t);
    }
  }

  lemma NothingWhenClosed(p: Params, amount: nat, t: int)
    requires p.Valid() && !Open(p, t)
    ensures Worth(p, amount, t) == 0
  {
  }

  /** When escrow falls short, which solvency excludes, the claim or the merge
      fails and leaves the records alone; the user is paid if escrow reaches for
      that, and is left with it although the pool could not be. */
  lemma ShortEscrow(s: Ledger, t: int, a: Address, r: ClaimsRecord, action: Action, rr: ClaimsRecord)
    requires s.Valid() && a !in s.blocked && !action.Unspecified?
    ensures var (claimable, remainder) := GetClaimableAmountForAction(r, action, s.params, t);
            claimable > 0 && remainder >= 0 && Escrow(s) < claimable + remainder ==>
              var (s1, res) := Claim(s, t, a, r, action);
              res.Err? && LeftWith(s, s1, a, claimable)
    ensures var (claimed, remainder) := MergeShares(s, t, r, rr);
            claimed > 0 && remainder >= 0 && Escrow(s) < claimed + remainder ==>
              var (s1, res) := Merge(s, t, a, r, rr);
              res.Err? && (if HasClaimedOne(r) then s1 == s else LeftWith(s, s1, a, claimed))
  {
    hide GetClaimableAmountForAction, MergeShares;
  }

  ghost predicate LeftWith(s: Ledger, s1: Ledger, a: Address, amount: int) {
    if amount > Escrow(s) then s1 == s
    else s1 == s.(bank := s1.bank) && PaidInFull(s, s1, a, amount, 0)
  }

  lemma QuarterInEscrow(s: Ledger, a: Address, action: Action, slot: nat)
    requires Solvent(s) && a in s.records && InSlot(action, slot)
    ensures |s.records[a].completed| == 4
    ensures !s.records[a].completed[slot] ==> s.records[a].amount / 4 <= Escrow(s)
  {
    OwedCoversRecord(s.records, a);
    if !s.records[a].completed[slot] {
      MarkTakesAQuarter(s.records[a], action);
      OwedNonNegative(s.records[a].MarkClaimed(action));
    }
  }

  // ---------------------------------------------------------------- hooks

  /** The step claims the action in this slot for `a`, or changes nothing. */
  ghost predicate ClaimsOrNothing(s: Ledger, s1: Ledger, t: int, a: Address, slot: nat)
    requires s.Valid() && slot < 4
  {
    if a in s.records && Pays(s, t, a, s.records[a], slot) then Claimed(s, s1, t, a, s.records[a], slot) else s1 == s
  }

  lemma HookEffect(s: Ledger, t: int, a: Address, action: Action, slot: nat)
    requires Solvent(s) && InSlot(action, slot)
    ensures ClaimsOrNothing(s, HookClaim(s, t, a, action), t, a, slot)
  {
    hide Worth, Claimed, Claim;
    if a in s.records {
      QuarterInEscrow(s, a, action, slot);
      ClaimEffect(s, t, a, s.records[a], action, slot);
    }
  }

  /** A vote completes the first action and no other, a delegation the second,
      an EVM transaction the third. */
  lemma HooksClaimTheirAction(s: Ledger, t: int, a: Address)
    requires Solvent(s)
    ensures ClaimsOrNothing(s, Apply(s, AfterProposalVote(t, a)), t, a, 0)
    ensures ClaimsOrNothing(s, Apply(s, AfterDelegationModified(t, a)), t, a, 1)
    ensures ClaimsOrNothing(s, Apply(s, PostTxProcessing(t, a)), t, a, 2)
  {
    hide ClaimsOrNothing, HookClaim;
    HookEffect(s, t, a, Vote, 0);
    HookEffect(s, t, a, Delegate, 1);
    HookEffect(s, t, a, EVM, 2);
  }

  /** A success acknowledgement completes the fourth action of whoever sent the
      packet; an error acknowledgement does nothing. The callback fails exactly
      when, with claims open, the acknowledgement or, under success, the packet
      cannot be decoded, or something would go to a blocked address. */
  lemma AckEffect(s: Ledger, t: int, p: Packet, ack: Option<bool>)
    requires Solvent(s)
    ensures Apply(s, AckPacket(t, p, ack)) == Ack(s, t, p, ack).0
    ensures var (s1, ok) := Ack(s, t, p, ack);
            && (if ack == Some(true) && p.decoded then ClaimsOrNothing(s, s1, t, p.sender, 3) else s1 == s)
            && (!ok <==> Open(s.params, t)
                         && (|| ack.None?
                             || (ack.value && !p.decoded)
                             || (&& ack.value && p.sender in s.records && p.sender in s.blocked
                                 && !s.records[p.sender].completed[3] && Worth(s.params, s.records[p.sender].amount, t) > 0)))
  {
    hide Worth, Claimed, Claim;
    if !Open(s.params, t) && p.sender in s.records {
      NothingWhenClosed(s.params, s.records[p.sender].amount, t);
    }
    if p.sender in s.records {
      QuarterInEscrow(s, p.sender, IBCTransfer, 3);
      ClaimEffect(s, t, p.sender, s.records[p.sender], IBCTransfer, 3);
    }
  }

  // ---------------------------------------------------------------- packets

  /** The packet is looked at: claims are open, it can be decoded, neither
      address is blocked, and the sender has not completed the IBC action. */
  predicate Considered(s: Ledger, t: int, p: Packet)
    requires s.Valid()
  {
    && Open(s.params, t) && p.decoded && p.sender !in s.blocked && p.recipient !in s.blocked
    && (p.sender in s.records ==> !s.records[p.sender].completed[3])
  }

  /** It comes over an authorized channel, and over an EVM channel if it is sent to oneself. */
  predicate Eligible(s: Ledger, t: int, p: Packet)
    requires s.Valid()
  {
    && Considered(s, t, p) && p.channel in s.params.authorizedChannels
    && (p.sender == p.recipient ==> p.channel in s.params.evmChannels)
  }

  /** Sender and recipient differ, the sender has a record, and the amount is
      the one that asks for its record to be moved. */
  predicate AsksToMove(s: Ledger, t: int, p: Packet)
    requires s.Valid()
  {
    Eligible(s, t, p) && p.sender != p.recipient && p.sender in s.records && p.amount == Some("63743")
  }

  /** A plain receipt: the recipient has a record and the sender has none, or is the recipient. */
  predicate PlainReceipt(s: Ledger, t: int, p: Packet)
    requires s.Valid()
  {
    && Eligible(s, t, p) && p.amount.Some? && p.recipient in s.records
    && (p.sender !in s.records || p.sender == p.recipient)
  }

  lemma ReceiptClaims(s: Ledger, t: int, p: Packet)
    requires Solvent(s) && PlainReceipt(s, t, p)
    ensures var (s1, success) := Recv(s, t, p);
            success && ClaimsOrNothing(s, s1, t, p.recipient, 3)
  {
    hide Worth, Claimed, Claim;
    assert Classify(s, t, p) == DoClaim;
    QuarterInEscrow(s, p.recipient, IBCTransfer, 3);
    ClaimEffect(s, t, p.recipient, s.records[p.recipient], IBCTransfer, 3);
  }

  /** With a recipient that has no record, the sender's record moves there with
      the IBC action claimed, unless that is worth nothing. */
  lemma PacketMigrates(s: Ledger, t: int, p: Packet)
    requires Solvent(s) && AsksToMove(s, t, p) && p.recipient !in s.records
    ensures var (s1, success) := Recv(s, t, p);
            var r := s.records[p.sender];
            var worth := Worth(s.params, r.amount, t);
            && success
            && (if worth > 0
                then && s1 == s.(records := s1.records, bank := s1.bank, pool := s1.pool)
                     && s1.records == (s.records - {p.sender})[p.recipient := ClaimsRecord(r.amount, r.completed[3 := true])]
                     && PaidInFull(s, s1, p.recipient, worth, r.amount / 4 - worth)
                else s1 == s)
  {
    hide Worth, Claim;
    assert Classify(s, t, p) == DoMigrate;
    QuarterInEscrow(s, p.sender, IBCTransfer, 3);
    ClaimEffect(s, t, p.recipient, s.records[p.sender], IBCTransfer, 3);
    assert 0 <= Worth(s.params, s.records[p.sender].amount, t) by {
      WorthIsClaimable(s, t, s.records[p.sender], IBCTransfer, 3);
    }
  }

  /** How many of the recipient's actions are completed. */
  function CountCompleted(bits: seq<bool>): nat
    requires |bits| == 4
  {
    (if bits[0] then 1 else 0) + (if bits[1] then 1 else 0) + (if bits[2] then 1 else 0) + (if bits[3] then 1 else 0)
  }

  /** With a recipient that has a record too, the two are merged: the amounts
      add up, the recipient's completed actions stay and the IBC action joins
      them. Each action so completed is paid out of the sender's record, and
      the IBC action out of both if it was open. A sender that completed an
      action is refused; nothing is paid if the sum rounds to zero. */
  lemma PacketMerges(s: Ledger, t: int, p: Packet)
    requires Solvent(s) && AsksToMove(s, t, p) && p.recipient in s.records
    ensures var (s1, success) := Recv(s, t, p);
            var sr, rr := s.records[p.sender], s.records[p.recipient];
            var ws, wr := Worth(s.params, sr.amount, t), Worth(s.params, rr.amount, t);
            var n := CountCompleted(rr.completed) + (if rr.completed[3] then 0 else 1);
            var claimed := n * ws + (if rr.completed[3] then 0 else wr);
            var due := n * (sr.amount / 4) + (if rr.completed[3] then 0 else rr.amount / 4);
            && (success <==> sr.completed == [false, false, false, false])
            && (!success ==> s1 == s)
            && (success ==>
                 && s1 == s.(records := s1.records, bank := s1.bank, pool := s1.pool)
                 && s1.records == (s.records - {p.sender})[p.recipient := ClaimsRecord(sr.amount + rr.amount, rr.completed[3 := true])]
                 && (if claimed > 0 then PaidInFull(s, s1, p.recipient, claimed, due - claimed)
                     else s1.bank == s.bank && s1.pool == s.pool))
  {
    hide Worth, GetClaimableAmountForAction, Merge, Classify;
    var sr, rr := s.records[p.sender], s.records[p.recipient];
    assert Classify(s, t, p) == DoMerge by { MoveIsMerge(s, t, p); }
    MergeStep(s, t, p);
    assert HasClaimedOne(sr) <==> sr.completed != [false, false, false, false];
    if Recv(s, t, p).1 {
      MergePays(s, t, sr, rr);
      MergeRecords(s, t, p);
      assert Merged(sr, rr).completed == rr.completed[3 := true];
    }
  }

  lemma MoveIsMerge(s: Ledger, t: int, p: Packet)
    requires s.Valid() && AsksToMove(s, t, p) && p.recipient in s.records
    ensures Classify(s, t, p) == DoMerge
  {
  }

  lemma MergePays(s: Ledger, t: int, sr: ClaimsRecord, rr: ClaimsRecord)
    requires s.params.Valid() && Open(s.params, t) && |sr.completed| == 4 && |rr.completed| == 4
    requires sr.completed == [false, false, false, false]
    ensures var ws, wr := Worth(s.params, sr.amount, t), Worth(s.params, rr.amount, t);
            var n := CountCompleted(rr.completed) + (if rr.completed[3] then 0 else 1);
            var claimed := n * ws + (if rr.completed[3] then 0 else wr);
            var due := n * (sr.amount / 4) + (if rr.completed[3] then 0 else rr.amount / 4);
            MergeShares(s, t, sr, rr) == (claimed, due - claimed) && claimed >= 0
  {
    hide Worth, GetClaimableAmountForAction;
    WorthIsClaimable(s, t, sr, IBCTransfer, 3);
    WorthIsClaimable(s, t, rr, IBCTransfer, 3);
  }

  lemma MergeRecords(s: Ledger, t: int, p: Packet)
    requires s.Valid() && Classify(s, t, p) == DoMerge && Recv(s, t, p).1
    ensures var s1 := Recv(s, t, p).0;
            && s1.records == (s.records - {p.sender})[p.recipient := Merged(s.records[p.sender], s.records[p.recipient])]
            && s1 == s.(records := s1.records, bank := s1.bank, pool := s1.pool)
            && (MergeShares(s, t, s.records[p.sender], s.records[p.recipient]).0 == 0 ==> s1.bank == s.bank && s1.pool == s.pool)
  {
  }

  /** The acknowledgement is an error in exactly these cases. */
  lemma RefusedIff(s: Ledger, t: int, p: Packet)
    requires Solvent(s)
    ensures !Recv(s, t, p).1 <==>
              && Open(s.params, t)
              && (|| !p.decoded || p.sender in s.blocked || p.recipient in s.blocked
                  || (&& Considered(s, t, p) && p.sender == p.recipient && p.channel !in s.params.evmChannels
                      && p.sender in s.records && s.records[p.sender].completed == [false, false, false, false])
                  || (Eligible(s, t, p) && p.amount.None?)
                  || (&& AsksToMove(s, t, p) && p.recipient in s.records
                      && s.records[p.sender].completed != [false, false, false, false]))
  {
    hide Worth, Claimed, PaidInFull, Merge, Claim;
    if PlainReceipt(s, t, p) {
      ReceiptClaims(s, t, p);
    } else if AsksToMove(s, t, p) {
      if p.recipient in s.records { PacketMerges(s, t, p); } else { PacketMigrates(s, t, p); }
    }
  }

  /** A packet that is neither a plain receipt nor asks for a record to be moved
      changes nothing. */
  lemma OtherPacketsDoNothing(s: Ledger, t: int, p: Packet)
    requires Solvent(s) && !PlainReceipt(s, t, p) && !AsksToMove(s, t, p)
    ensures Recv(s, t, p).0 == s
  {
  }

  /** The transfer application's coins have moved, as far as it may move them. */
  predicate AppMoved(s: Ledger, s1: Ledger, app: Delivery) {
    if app.source != ESCROW && app.to !in s.blocked && 0 < app.amount <= Balance(s.bank, app.source)
    then && s1 == s.(bank := s1.bank) && s1.bank.Keys == s.bank.Keys + {app.source, app.to}
         && forall a :: a in s1.bank ==>
              s1.bank[a] == Balance(s.bank, a) - (if a == app.source then app.amount else 0) + (if a == app.to then app.amount else 0)
    else s1 == s
  }

  /** Core IBC keeps the application's coins and the callback's effect on top of
      them together, or nothing: nothing if the application failed or the
      packet is refused. */
  lemma DeliveryEffect(s: Ledger, t: int, p: Packet, app: Delivery)
    requires Solvent(s)
    ensures var s1 := Apply(s, RecvPacket(t, p, app));
            if app.success && Recv(s, t, p).1
            then exists s0 :: AppMoved(s, s0, app) && Solvent(s0) && s1 == Recv(s0, t, p).0
            else s1 == s
  {
    hide PayOut, Merge, Claim;
    var s0 := Sent(s, app.source, app.to, app.amount);
    SentIsLawful(s, app.source, app.to, app.amount);
    RefusedIff(s, t, p);
    RefusedIff(s0, t, p);
    assert AppMoved(s, s0, app);
  }

  // ---------------------------------------------------------------- block ends

  /** Up to the end of the airdrop, and once claims are off, a block end changes
      nothing. The first one past it empties escrow, removes every record,
      switches claims off, takes the coins of recipients that have an account
      which locks nothing and never sent a transaction, and removes such
      accounts if they held nothing. No one else's coins or account change. */
  lemma EndBlockEffect(s: Ledger, t: int, order: seq<Address>)
    requires s.Valid() && Enumerates(order, s.records)
    requires s.params.durationUntilDecay + s.params.durationOfDecay < 0x7FFF_FFFF_FFFF_FFFF
    ensures Handle(s, BlockEnd(t, order)) == EndBlock(s, t, order)
    ensures var s1 := EndBlock(s, t, order);
            var end := s.params.airdropStartTime + s.params.durationUntilDecay + s.params.durationOfDecay;
            if !s.params.enableClaims || t <= end then s1 == s
            else
              && Balance(s1.bank, ESCROW) == 0 && s1.records == map[] && s1.blocked == s.blocked
              && s1.params == s.params.(enableClaims := false)
              && TotalCoins(s1.bank) == TotalCoins(s.bank)
              && (forall a :: a != DISTRIBUTION && a != ESCROW ==>
                   var idle := a in s.records && a in s.accounts && !s.accounts[a].vesting && s.accounts[a].sequence == 0;
                   && Balance(s1.bank, a) == (if idle then 0 else Balance(s.bank, a))
                   && (a in s1.accounts <==> a in s.accounts && !(idle && Balance(s.bank, a) == 0)))
              && (forall a :: a in s1.accounts ==> a in s.accounts && s1.accounts[a] == s.accounts[a])
  {
    if s.params.enableClaims {
      EndsExactlyPastWindow(s.params);
    }
    if AirdropOver(s.params, t) {
      hide EndAirdrop;
      AirdropEndEffect(s, order);
      EndKeepsConfiguration(s, order);
      forall a ensures a in s.records <==> a in order { assert a in s.records.Keys <==> a in (set x | x in order); }
    }
  }

  lemma EndKeepsConfiguration(s: Ledger, order: seq<Address>)
    requires Enumerates(order, s.records)
    ensures var s1 := EndAirdrop(s, order); s1.blocked == s.blocked && s1.params == s.params.(enableClaims := false)
  {
    ClawbackEffect(ClawbackEscrow(s), order);
  }
}
