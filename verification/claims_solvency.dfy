/** The escrow account backs every open action: safety over whole runs. */
module ClaimsSolvency {
  import opened Common
  import opened ClaimsTypes
  import opened ClaimsDecay
  import opened ClaimsLedger
  import opened MapSums

  // ---------------------------------------------------------------- the invariant

  /** What a record may still draw from escrow. */
  function Owed(r: ClaimsRecord): int { OpenActions(r.completed) * r.Quarter() }

  ghost function TotalOwed(records: map<Address, ClaimsRecord>): int { SumBy(records, Owed) }

  function Allocated(r: ClaimsRecord): int { r.amount }

  ghost function TotalAllocated(records: map<Address, ClaimsRecord>): int { SumBy(records, Allocated) }

  /** Escrowed coins that no record can draw. */
  ghost function Surplus(s: Ledger): int { Escrow(s) - TotalOwed(s.records) }

  predicate QuartersExactly(r: ClaimsRecord) {
    OpenActions(r.completed) > 0 ==> r.amount % NUM_ACTIONS == 0
  }

  predicate Divisible(records: map<Address, ClaimsRecord>) {
    forall a :: a in records ==> QuartersExactly(records[a])
  }

  ghost predicate Solvent(s: Ledger) {
    s.Valid() && Divisible(s.records) && Surplus(s) >= 0
  }

  // ---------------------------------------------------------------- transfers

  /** `claimed` has gone from escrow to `to` and `remainder` to the community
      pool; no other balance moved. */
  ghost predicate PaidInFull(s: Ledger, paid: Ledger, to: Address, claimed: int, remainder: int) {
    && paid.pool == s.pool + remainder
    && forall a ::
         Balance(paid.bank, a) == Balance(s.bank, a)
           + (if a == to then claimed else 0)
           + (if a == DISTRIBUTION then remainder else 0)
           - (if a == ESCROW then claimed + remainder else 0)
  }

  /** A payout that escrow covers goes through in full. */
  lemma PayOutInFull(s: Ledger, to: Address, claimed: int, remainder: int)
    requires ESCROW in s.blocked && to !in s.blocked
    requires 0 < claimed && 0 <= remainder && claimed + remainder <= Escrow(s)
    ensures var (paid, ok) := PayOut(s, to, claimed, remainder);
            && ok
            && PaidInFull(s, paid, to, claimed, remainder)
            && Escrow(paid) == Escrow(s) - claimed - remainder
  {
  }

  /** No payout, complete or not, creates or destroys coins or touches anything else. */
  lemma PayOutConserves(s: Ledger, to: Address, claimed: int, remainder: int)
    ensures var paid := PayOut(s, to, claimed, remainder).0;
            && TotalCoins(paid.bank) == TotalCoins(s.bank)
            && paid == s.(bank := paid.bank, pool := paid.pool)
  {
    if to !in s.blocked && 0 < claimed <= Escrow(s) {
      MoveConserves(s.bank, ESCROW, to, claimed);
      var b1 := Move(s.bank, ESCROW, to, claimed);
      if 0 < remainder <= Balance(b1, ESCROW) {
        MoveConserves(b1, ESCROW, DISTRIBUTION, remainder);
      }
    }
  }

  // ---------------------------------------------------------------- one claim

  lemma OwedNonNegative(r: ClaimsRecord)
    ensures Owed(r) >= 0
  {
  }

  lemma TotalOwedNonNegative(records: map<Address, ClaimsRecord>)
    ensures TotalOwed(records) >= 0
  {
    forall k | k in records ensures Owed(records[k]) >= 0 { OwedNonNegative(records[k]); }
    var zeros := map a | a in records :: 0;
    SumZero(zeros);
    SumMonotone(zeros, Itself, records, Owed);
  }

  lemma OwedCoversRecord(records: map<Address, ClaimsRecord>, a: Address)
    requires a in records
    ensures 0 <= Owed(records[a]) <= TotalOwed(records)
  {
    forall k | k in records ensures Owed(records[k]) >= 0 { OwedNonNegative(records[k]); }
    SumBoundsEntry(records, Owed, a);
  }

  /** Completing an open action takes exactly one quarter off what is owed. */
  lemma MarkTakesAQuarter(r: ClaimsRecord, action: Action)
    requires r.WellFormed() && !action.Unspecified? && !r.HasClaimedAction(action)
    ensures r.MarkClaimed(action).WellFormed()
    ensures Owed(r.MarkClaimed(action)) == Owed(r) - r.Quarter()
    ensures Owed(r) >= r.Quarter()
    ensures QuartersExactly(r) ==> QuartersExactly(r.MarkClaimed(action))
  {
    OpenActionsOfFour(r.completed);
    OpenActionsOfFour(r.MarkClaimed(action).completed);
    var n := OpenActions(r.completed);
    assert n >= 1;
    assert (n - 1) * r.Quarter() == n * r.Quarter() - r.Quarter();
  }

  /** The state after a claim in which both transfers went through. */
  function FullClaim(s: Ledger, t: int, addr: Address, r: ClaimsRecord, action: Action): Ledger
    requires s.params.Valid()
  {
    var (claimable, remainder) := GetClaimableAmountForAction(r, action, s.params, t);
    PayOut(s, addr, claimable, remainder).0.(records := s.records[addr := r.MarkClaimed(action)])
  }

  /** When escrow holds the record's quarter, a claim is never left half done:
      it changes nothing, or it pays exactly one quarter and marks the action. */
  lemma ClaimAllOrNothing(s: Ledger, t: int, addr: Address, r: ClaimsRecord, action: Action)
    requires s.Valid() && r.WellFormed()
    requires !r.HasClaimedAction(action) ==> r.Quarter() <= Escrow(s)
    ensures var (s1, res) := Claim(s, t, addr, r, action);
            || (s1 == s && (res.Ok? ==> res.value == 0))
            || (&& s1 == FullClaim(s, t, addr, r, action)
                && res.Ok? && 0 < res.value <= r.Quarter()
                && s.params.IsClaimsActive(t)
                && !action.Unspecified? && !r.HasClaimedAction(action)
                && addr !in s.blocked
                && Escrow(s1) == Escrow(s) - r.Quarter()
                && PaidInFull(s, s1, addr, res.value, r.Quarter() - res.value))
  {
    if s.params.IsClaimsActive(t) && !r.HasClaimedAction(action) {
      ClaimableSplitsQuarter(r, action, s.params, t);
      var (claimable, remainder) := GetClaimableAmountForAction(r, action, s.params, t);
      if addr !in s.blocked && claimable > 0 {
        PayOutInFull(s, addr, claimable, remainder);
      }
      PayOutConserves(s, addr, claimable, remainder);
    }
  }

  /** Claiming out of the record stored at `holder`, either in place or onto an
      address without a record (a migration), keeps the surplus to the coin. */
  lemma ClaimKeepsSurplus(s: Ledger, t: int, holder: Address, addr: Address, action: Action)
    requires Solvent(s) && holder in s.records
    requires addr == holder || addr !in s.records
    ensures var (s1, res) := Claim(s, t, addr, s.records[holder], action);
            var s2 := if res.Ok? && res.value != 0 && addr != holder then s1.(records := s1.records - {holder}) else s1;
            && Solvent(s2)
            && Surplus(s2) == Surplus(s)
            && TotalAllocated(s2.records) == TotalAllocated(s.records)
            && TotalCoins(s2.bank) == TotalCoins(s.bank)
  {
    var r := s.records[holder];
    var (claimable, remainder) := GetClaimableAmountForAction(r, action, s.params, t);
    PayOutConserves(s, addr, claimable, remainder);
    OwedCoversRecord(s.records, holder);
    if !r.HasClaimedAction(action) && !action.Unspecified? {
      MarkTakesAQuarter(r, action);
    }
    if !action.Unspecified? {
      ClaimAllOrNothing(s, t, addr, r, action);
      RelocateSums(s.records, holder, addr, r.MarkClaimed(action));
    }
  }

  /** The sums after `holder`'s record is replaced by `r` stored at `addr`. */
  lemma RelocateSums(records: map<Address, ClaimsRecord>, holder: Address, addr: Address, r: ClaimsRecord)
    requires holder in records && (addr == holder || addr !in records)
    ensures var placed := records[addr := r];
            var moved := if addr == holder then placed else placed - {holder};
            && TotalOwed(moved) == TotalOwed(records) - Owed(records[holder]) + Owed(r)
            && TotalAllocated(moved) == TotalAllocated(records) - records[holder].amount + r.amount
  {
    var placed := records[addr := r];
    SumUpdate(records, Owed, addr, r);
    SumUpdate(records, Allocated, addr, r);
    SumRemove(placed, Owed, holder);
    SumRemove(placed, Allocated, holder);
  }

  // ---------------------------------------------------------------- merging

  /** What a merge must take out of escrow, decay or not. */
  function MergeDue(sender: ClaimsRecord, recipient: ClaimsRecord): int {
    MergeTotal(recipient, sender.Quarter(), recipient.Quarter())
  }

  lemma MergeTotalAdds(rr: ClaimsRecord, a: int, ar: int, b: int, br: int)
    requires 0 <= a && 0 <= ar && (rr.HasClaimedAction(IBCTransfer) || (0 <= b && 0 <= br))
    ensures MergeTotal(rr, a, b) >= 0 && MergeTotal(rr, ar, br) >= 0
    ensures MergeTotal(rr, a, b) + MergeTotal(rr, ar, br) == MergeTotal(rr, a + ar, b + br)
  {
  }

  lemma MergeSharesAddUp(s: Ledger, t: int, sr: ClaimsRecord, rr: ClaimsRecord)
    requires s.params.Valid() && s.params.IsClaimsActive(t) && !HasClaimedOne(sr)
    ensures var (claimed, remainder) := MergeShares(s, t, sr, rr);
            0 <= claimed && 0 <= remainder && claimed + remainder == MergeDue(sr, rr)
  {
    ClaimableSplitsQuarter(sr, IBCTransfer, s.params, t);
    var (a, ar) := GetClaimableAmountForAction(sr, IBCTransfer, s.params, t);
    var (b, br) := GetClaimableAmountForAction(rr, IBCTransfer, s.params, t);
    if !rr.HasClaimedAction(IBCTransfer) {
      ClaimableSplitsQuarter(rr, IBCTransfer, s.params, t);
    }
    MergeTotalAdds(rr, a, ar, b, br);
  }

  lemma MergeArithmetic(open: int, ibc: int, qs: int, qr: int)
    ensures (open - ibc) * (qs + qr) == 4 * qs + open * qr - ((4 - open) * qs + ibc * (qs + qr))
  {
  }

  /** The merged record owes what both records owed, less what the merge is due. */
  lemma MergedOwes(sr: ClaimsRecord, rr: ClaimsRecord)
    requires sr.WellFormed() && rr.WellFormed() && !HasClaimedOne(sr)
    requires QuartersExactly(sr) && QuartersExactly(rr)
    ensures Merged(sr, rr).WellFormed() && QuartersExactly(Merged(sr, rr))
    ensures Owed(Merged(sr, rr)) == Owed(sr) + Owed(rr) - MergeDue(sr, rr)
  {
    OpenActionsOfFour(sr.completed);
    OpenActionsOfFour(rr.completed);
    OpenActionsOfFour(Merged(sr, rr).completed);
    var open, left := OpenActions(rr.completed), OpenActions(Merged(sr, rr).completed);
    var ibc := Bit(!rr.HasClaimedAction(IBCTransfer));
    assert left == open - ibc && CompletedActions(rr) == NUM_ACTIONS - open;
    assert left > 0 ==> Merged(sr, rr).Quarter() == sr.Quarter() + rr.Quarter();
    assert left * Merged(sr, rr).Quarter() == left * (sr.Quarter() + rr.Quarter());
    MergeArithmetic(open, ibc, sr.Quarter(), rr.Quarter());
  }

  lemma MergeSums(records: map<Address, ClaimsRecord>, sender: Address, recipient: Address, r: ClaimsRecord)
    requires sender in records && recipient in records && sender != recipient
    ensures var merged := records[recipient := r] - {sender};
            && TotalOwed(merged) == TotalOwed(records) - Owed(records[sender]) - Owed(records[recipient]) + Owed(r)
            && TotalAllocated(merged)
               == TotalAllocated(records) - records[sender].amount - records[recipient].amount + r.amount
  {
    var placed := records[recipient := r];
    SumUpdate(records, Owed, recipient, r);
    SumUpdate(records, Allocated, recipient, r);
    SumRemove(placed, Owed, sender);
    SumRemove(placed, Allocated, sender);
  }

  lemma TwoRecordsCovered(s: Ledger, a: Address, b: Address)
    requires Solvent(s) && a in s.records && b in s.records && a != b
    ensures 0 <= Owed(s.records[a]) + Owed(s.records[b]) <= Escrow(s)
  {
    forall k | k in s.records ensures Owed(s.records[k]) >= 0 { OwedNonNegative(s.records[k]); }
    SumBoundsTwo(s.records, Owed, a, b);
  }

  /** The coins a received packet strands: a merge whose claimable part rounds
      to nothing returns before it pays the community pool. */
  function Stranded(s: Ledger, t: int, p: Packet): int
    requires s.params.Valid()
  {
    if Classify(s, t, p) != DoMerge then 0
    else
      var sr, rr := s.records[p.sender], s.records[p.recipient];
      if !HasClaimedOne(sr) && MergeShares(s, t, sr, rr).0 == 0 then MergeDue(sr, rr) else 0
  }

  lemma MergeStep(s: Ledger, t: int, p: Packet)
    requires Solvent(s) && Classify(s, t, p) == DoMerge
    ensures var (s1, success) := Recv(s, t, p);
            && (success <==> !HasClaimedOne(s.records[p.sender]))
            && (!success ==> s1 == s)
            && (success && MergeShares(s, t, s.records[p.sender], s.records[p.recipient]).0 > 0 ==>
                 var (claimed, remainder) := MergeShares(s, t, s.records[p.sender], s.records[p.recipient]);
                 PaidInFull(s, s1, p.recipient, claimed, remainder))
            && Solvent(s1)
            && Surplus(s1) == Surplus(s) + Stranded(s, t, p)
            && TotalAllocated(s1.records) == TotalAllocated(s.records)
            && TotalCoins(s1.bank) == TotalCoins(s.bank)
            && Stranded(s, t, p) >= 0
  {
    var sr, rr := s.records[p.sender], s.records[p.recipient];
    if !HasClaimedOne(sr) {
      MergeSharesAddUp(s, t, sr, rr);
      MergedOwes(sr, rr);
      OwedNonNegative(Merged(sr, rr));
      TwoRecordsCovered(s, p.sender, p.recipient);
      MergeSums(s.records, p.sender, p.recipient, Merged(sr, rr));
      var (claimed, remainder) := MergeShares(s, t, sr, rr);
      if claimed > 0 {
        PayOutInFull(s, p.recipient, claimed, remainder);
      }
      PayOutConserves(s, p.recipient, claimed, remainder);
    }
  }

  // ---------------------------------------------------------------- steps and runs

  datatype Step =
    | AfterProposalVote(time: int, voter: Address)
    | AfterDelegationModified(time: int, delegator: Address)
    | PostTxProcessing(time: int, from: Address)
    | AckPacket(time: int, packet: Packet, ack: Option<bool>)
    | RecvPacket(time: int, packet: Packet, app: Delivery)
    | BankSend(source: Address, to: Address, amount: nat)

  function Apply(s: Ledger, step: Step): Ledger
    requires s.params.Valid()
  {
    match step
    case AfterProposalVote(t, a) => HookClaim(s, t, a, Vote)
    case AfterDelegationModified(t, a) => HookClaim(s, t, a, Delegate)
    case PostTxProcessing(t, a) => HookClaim(s, t, a, EVM)
    case AckPacket(t, p, ack) => AckCommitted(s, t, p, ack)
    case RecvPacket(t, p, app) => Delivered(s, t, p, app)
    case BankSend(from, to, amount) => Sent(s, from, to, amount)
  }

  function StrandedBy(s: Ledger, step: Step): int
    requires s.params.Valid()
  {
    if step.RecvPacket? && step.app.success then Stranded(s, step.time, step.packet) else 0
  }

  /** What a step does to the totals. */
  ghost predicate Lawful(s: Ledger, s1: Ledger, stranded: int)
    requires Solvent(s)
  {
    && Solvent(s1)
    && Surplus(s1) == Surplus(s) + stranded
    && stranded >= 0
    && TotalAllocated(s1.records) == TotalAllocated(s.records)
    && TotalCoins(s1.bank) == TotalCoins(s.bank)
    && s1.params == s.params && s1.blocked == s.blocked && s1.accounts == s.accounts
  }

  lemma ClaimIsLawful(s: Ledger, t: int, a: Address, action: Action)
    requires Solvent(s) && a in s.records
    ensures Lawful(s, Claim(s, t, a, s.records[a], action).0, 0)
  {
    ClaimKeepsSurplus(s, t, a, a, action);
    ClaimConfigUnchanged(s, t, a, s.records[a], action);
  }

  lemma ClaimConfigUnchanged(s: Ledger, t: int, addr: Address, r: ClaimsRecord, action: Action)
    requires s.params.Valid()
    ensures var s1 := Claim(s, t, addr, r, action).0;
            s1.params == s.params && s1.blocked == s.blocked && s1.accounts == s.accounts
  {
  }

  lemma RecvIsLawful(s: Ledger, t: int, p: Packet)
    requires Solvent(s)
    ensures Lawful(s, RecvCommitted(s, t, p), Stranded(s, t, p))
  {
    match Classify(s, t, p)
    case Ignore =>
    case Refuse =>
    case DoMerge => MergeStep(s, t, p);
    case DoClaim => ClaimIsLawful(s, t, p.recipient, IBCTransfer);
    case DoMigrate =>
      ClaimKeepsSurplus(s, t, p.sender, p.recipient, IBCTransfer);
      ClaimConfigUnchanged(s, t, p.recipient, s.records[p.sender], IBCTransfer);
  }

  lemma SentIsLawful(s: Ledger, from: Address, to: Address, amount: nat)
    requires Solvent(s)
    ensures Lawful(s, Sent(s, from, to, amount), 0)
  {
    if Sent(s, from, to, amount) != s {
      MoveConserves(s.bank, from, to, amount);
    }
  }

  /** What the transfer application moves does not change what is stranded. */
  lemma DeliveryIsLawful(s: Ledger, t: int, p: Packet, app: Delivery)
    requires Solvent(s)
    ensures Lawful(s, Delivered(s, t, p, app), if app.success then Stranded(s, t, p) else 0)
  {
    hide PayOut, Move;
    var s0 := Sent(s, app.source, app.to, app.amount);
    SentIsLawful(s, app.source, app.to, app.amount);
    SentKeepsCase(s, t, p, app);
    RecvIsLawful(s0, t, p);
    if !Recv(s0, t, p).1 && Classify(s0, t, p) == DoMerge {
      MergeStep(s0, t, p);
    }
  }

  lemma SentKeepsCase(s: Ledger, t: int, p: Packet, app: Delivery)
    requires s.params.Valid()
    ensures var s0 := Sent(s, app.source, app.to, app.amount);
            && s0 == s.(bank := s0.bank)
            && Classify(s0, t, p) == Classify(s, t, p) && Stranded(s0, t, p) == Stranded(s, t, p)
  {
  }

  /** One step: solvency is kept, the surplus grows by exactly what the step
      strands, allocations and coins are conserved. */
  lemma StepLaw(s: Ledger, step: Step)
    requires Solvent(s)
    ensures Lawful(s, Apply(s, step), StrandedBy(s, step))
  {
    match step
    case AfterProposalVote(t, a) => if a in s.records { ClaimIsLawful(s, t, a, Vote); }
    case AfterDelegationModified(t, a) => if a in s.records { ClaimIsLawful(s, t, a, Delegate); }
    case PostTxProcessing(t, a) => if a in s.records { ClaimIsLawful(s, t, a, EVM); }
    case AckPacket(t, p, _) => if p.sender in s.records { ClaimIsLawful(s, t, p.sender, IBCTransfer); }
    case RecvPacket(t, p, app) => DeliveryIsLawful(s, t, p, app);
    case BankSend(from, to, amount) => SentIsLawful(s, from, to, amount);
  }

  ghost function Run(s: Ledger, steps: seq<Step>): Ledger
    requires Solvent(s)
    decreases |steps|
  {
    if steps == [] then s else StepLaw(s, steps[0]); Run(Apply(s, steps[0]), steps[1..])
  }

  ghost function TotalStranded(s: Ledger, steps: seq<Step>): int
    requires Solvent(s)
    decreases |steps|
  {
    if steps == [] then 0
    else StepLaw(s, steps[0]); StrandedBy(s, steps[0]) + TotalStranded(Apply(s, steps[0]), steps[1..])
  }

  /** Every run: escrow covers what the records owe, and exceeds it by exactly
      the starting surplus plus what its merges strand. Allocations and coins
      are conserved throughout. */
  lemma {:induction false} RunLaw(s: Ledger, steps: seq<Step>)
    requires Solvent(s)
    ensures var s1 := Run(s, steps);
            && Solvent(s1)
            && Escrow(s1) == TotalOwed(s1.records) + Surplus(s) + TotalStranded(s, steps)
            && TotalStranded(s, steps) >= 0
            && TotalAllocated(s1.records) == TotalAllocated(s.records)
            && TotalCoins(s1.bank) == TotalCoins(s.bank)
            && s1.params == s.params && s1.blocked == s.blocked
    decreases |steps|
  {
    if steps != [] {
      StepLaw(s, steps[0]);
      RunLaw(Apply(s, steps[0]), steps[1..]);
    }
  }

  /** Whether some step of the run is a merge that strands coins. */
  ghost predicate Strands(s: Ledger, steps: seq<Step>)
    requires Solvent(s)
    decreases |steps|
  {
    steps != [] && (StepLaw(s, steps[0]); StrandedBy(s, steps[0]) > 0 || Strands(Apply(s, steps[0]), steps[1..]))
  }

  /** The module's own invariant, escrow equal to the open quarters, survives a
      run if and only if no merge in it takes the early return owing coins. */
  lemma {:induction false} ExactIffNothingStranded(s: Ledger, steps: seq<Step>)
    requires Solvent(s) && Surplus(s) == 0
    ensures Escrow(Run(s, steps)) == TotalOwed(Run(s, steps).records) <==> !Strands(s, steps)
  {
    RunLaw(s, steps);
    StrandsIffPositive(s, steps);
  }

  lemma {:induction false} StrandsIffPositive(s: Ledger, steps: seq<Step>)
    requires Solvent(s)
    ensures Strands(s, steps) <==> TotalStranded(s, steps) > 0
    decreases |steps|
  {
    if steps != [] {
      StepLaw(s, steps[0]);
      RunLaw(Apply(s, steps[0]), steps[1..]);
      StrandsIffPositive(Apply(s, steps[0]), steps[1..]);
    }
  }

  /** A delivery that moves nothing of the claims denomination. */
  const NO_COINS: Delivery := Delivery(true, "", "", 0)

  /** The early return is reachable: at the last instant of the window nothing
      is claimable, so a merge completes the IBC action and moves no coin. */
  lemma SomeMergeStrands(s: Ledger, t: int, p: Packet)
    requires s.params == Params(true, 0, 10, 10, ["channel-0"], []) && t == 20
    requires s.records == map["sender" := NewClaimsRecord(4), "recipient" := NewClaimsRecord(4)]
    requires s.bank == map[ESCROW := 8] && s.blocked == {ESCROW}
    requires p == Packet(true, "sender", "recipient", "channel-0", Some(TRIGGER_AMOUNT))
    ensures Solvent(s) && Surplus(s) == 0
    ensures var step := RecvPacket(t, p, NO_COINS); Strands(s, [step]) && Surplus(Apply(s, step)) == 2
  {
    hide Apply, Stranded;
    TwoFreshRecords(s.records);
    MergeOfTwoFresh(s, t, p);
    StepLaw(s, RecvPacket(t, p, NO_COINS));
  }

  lemma MergeOfTwoFresh(s: Ledger, t: int, p: Packet)
    requires s.params == Params(true, 0, 10, 10, ["channel-0"], []) && t == 20
    requires s.records == map["sender" := NewClaimsRecord(4), "recipient" := NewClaimsRecord(4)] && s.blocked == {ESCROW}
    requires p == Packet(true, "sender", "recipient", "channel-0", Some(TRIGGER_AMOUNT))
    ensures Stranded(s, t, p) == 2
  {
    hide GetClaimableAmountForAction;
    assert Classify(s, t, p) == DoMerge;
    NothingClaimableAtTheEnd(NewClaimsRecord(4), s.params);
  }

  lemma TwoFreshRecords(records: map<Address, ClaimsRecord>)
    requires records == map["sender" := NewClaimsRecord(4), "recipient" := NewClaimsRecord(4)]
    ensures TotalOwed(records) == 8 && Divisible(records)
  {
    OpenActionsOfFour([false, false, false, false]);
    SumTakeOut(records, Owed, "sender");
    SumTakeOut(records - {"sender"}, Owed, "recipient");
    assert records - {"sender"} - {"recipient"} == map[];
  }

  lemma NothingClaimableAtTheEnd(r: ClaimsRecord, p: Params)
    requires p.Valid() && p.enableClaims && !r.HasClaimedAction(IBCTransfer)
    ensures GetClaimableAmountForAction(r, IBCTransfer, p, p.AirdropEndTime()).0 == 0
  {
    ClaimableWithinWindow(r, IBCTransfer, p, p.AirdropEndTime(), p.AirdropEndTime());
  }
}
