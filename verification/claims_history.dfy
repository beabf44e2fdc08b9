/** What may happen to one record over a run of hooks and IBC callbacks. */
module ClaimsHistory {
  import opened Common
  import opened ClaimsTypes
  import opened ClaimsLedger
  import opened ClaimsSolvency

  /** Even though the hooks swallow errors, under solvency each leaves either
      the state it found or a complete claim. */
  lemma HookNeverHalfDone(s: Ledger, t: int, a: Address, action: Action)
    requires Solvent(s)
    ensures var s1 := HookClaim(s, t, a, action);
            || s1 == s
            || (&& a in s.records && s1 == FullClaim(s, t, a, s.records[a], action)
                && !s.records[a].HasClaimedAction(action) && s1.records[a].HasClaimedAction(action)
                && Escrow(s1) == Escrow(s) - s.records[a].Quarter())
  {
    if a in s.records {
      var r := s.records[a];
      OwedCoversRecord(s.records, a);
      if !r.HasClaimedAction(action) && !action.Unspecified? {
        MarkTakesAQuarter(r, action);
      }
      if !action.Unspecified? {
        ClaimAllOrNothing(s, t, a, r, action);
      }
    }
  }

  /** Under solvency an error acknowledgement or a failed acknowledgement
      message has written nothing, so there is nothing to roll back. */
  lemma FailedCallbackWritesNothing(s: Ledger, t: int, p: Packet, ack: Option<bool>)
    requires Solvent(s)
    ensures !Recv(s, t, p).1 ==> Recv(s, t, p).0 == s
    ensures !Ack(s, t, p, ack).1 ==> Ack(s, t, p, ack).0 == s
  {
    var c := Classify(s, t, p);
    if c == DoMerge {
      MergeStep(s, t, p);
    }
    if c == DoClaim {
      QuarterCovered(s, p.recipient);
      ClaimAllOrNothing(s, t, p.recipient, s.records[p.recipient], IBCTransfer);
    }
    if p.sender in s.records {
      QuarterCovered(s, p.sender);
      ClaimAllOrNothing(s, t, p.sender, s.records[p.sender], IBCTransfer);
      ClaimAllOrNothing(s, t, p.recipient, s.records[p.sender], IBCTransfer);
    }
  }

  lemma QuarterCovered(s: Ledger, a: Address)
    requires Solvent(s) && a in s.records
    ensures !s.records[a].HasClaimedAction(IBCTransfer) ==> s.records[a].Quarter() <= Escrow(s)
  {
    OwedCoversRecord(s.records, a);
    if !s.records[a].HasClaimedAction(IBCTransfer) {
      MarkTakesAQuarter(s.records[a], IBCTransfer);
    }
  }

  // ---------------------------------------------------------------- frames

  function Touched(step: Step): set<Address> {
    match step
    case AfterProposalVote(_, a) => {a}
    case AfterDelegationModified(_, a) => {a}
    case PostTxProcessing(_, a) => {a}
    case AckPacket(_, p, _) => {p.sender}
    case RecvPacket(_, p, _) => {p.sender, p.recipient}
    case BankSend(_, _, _) => {}
  }

  /** Every bit of `r` is set in `r1` too. */
  predicate BitsGrow(r: ClaimsRecord, r1: ClaimsRecord) {
    && (r.HasClaimedAction(Vote) ==> r1.HasClaimedAction(Vote))
    && (r.HasClaimedAction(Delegate) ==> r1.HasClaimedAction(Delegate))
    && (r.HasClaimedAction(EVM) ==> r1.HasClaimedAction(EVM))
    && (r.HasClaimedAction(IBCTransfer) ==> r1.HasClaimedAction(IBCTransfer))
  }

  /** Only the named records change, and a surviving record only gains bits. */
  lemma StepFrame(s: Ledger, step: Step)
    requires s.Valid()
    ensures var s1 := Apply(s, step);
            && (forall x :: x !in Touched(step) ==>
                 && (x in s.records <==> x in s1.records)
                 && (x in s.records ==> s1.records[x] == s.records[x]))
            && (forall x :: x in s.records && x in s1.records ==> BitsGrow(s.records[x], s1.records[x]))
  {
    match step
    case AfterProposalVote(t, a) => if a in s.records { ClaimFrame(s, t, a, s.records[a], Vote); }
    case AfterDelegationModified(t, a) => if a in s.records { ClaimFrame(s, t, a, s.records[a], Delegate); }
    case PostTxProcessing(t, a) => if a in s.records { ClaimFrame(s, t, a, s.records[a], EVM); }
    case AckPacket(t, p, _) => if p.sender in s.records { ClaimFrame(s, t, p.sender, s.records[p.sender], IBCTransfer); }
    case BankSend(_, _, _) =>
    case RecvPacket(t, p, app) => RecvFrame(Sent(s, app.source, app.to, app.amount), t, p);
  }

  lemma ClaimFrame(s: Ledger, t: int, addr: Address, r: ClaimsRecord, action: Action)
    requires s.Valid() && r.WellFormed()
    ensures var (s1, res) := Claim(s, t, addr, r, action);
            if res.Ok? && res.value != 0
            then s1.records == s.records[addr := r.MarkClaimed(action)] && BitsGrow(r, r.MarkClaimed(action))
            else s1.records == s.records
  {
  }

  lemma RecvFrame(s: Ledger, t: int, p: Packet)
    requires s.Valid()
    ensures var s1 := RecvCommitted(s, t, p);
            && (forall x :: x != p.sender && x != p.recipient ==>
                 && (x in s.records <==> x in s1.records)
                 && (x in s.records ==> s1.records[x] == s.records[x]))
            && (forall x :: x in s.records && x in s1.records ==> BitsGrow(s.records[x], s1.records[x]))
  {
    match Classify(s, t, p)
    case Ignore =>
    case Refuse =>
    case DoClaim => ClaimFrame(s, t, p.recipient, s.records[p.recipient], IBCTransfer);
    case DoMigrate => ClaimFrame(s, t, p.recipient, s.records[p.sender], IBCTransfer);
    case DoMerge =>
      assert BitsGrow(s.records[p.recipient], Merged(s.records[p.sender], s.records[p.recipient]));
  }

  // ---------------------------------------------------------------- sources and targets

  /** The record at `x` has its IBC action completed. */
  predicate Attested(s: Ledger, x: Address) {
    x in s.records && s.records[x].HasClaimedAction(IBCTransfer)
  }

  /** The step merges or migrates the record at `x` into another address. */
  predicate MovesFrom(s: Ledger, step: Step, x: Address)
    requires s.params.Valid()
  {
    x in s.records && x !in Apply(s, step).records
  }

  /** The step merges or migrates another record into `x`. */
  predicate MovesTo(s: Ledger, step: Step, x: Address)
    requires s.params.Valid()
  {
    step.RecvPacket? && step.packet.recipient == x && MovesFrom(s, step, step.packet.sender)
  }

  lemma StepKeepsAttested(s: Ledger, step: Step, x: Address)
    requires s.Valid()
    ensures Attested(s, x) ==> Attested(Apply(s, step), x) && !MovesFrom(s, step, x)
    ensures MovesTo(s, step, x) ==> Attested(Apply(s, step), x)
  {
    StepFrame(s, step);
    match step
    case AfterProposalVote(t, a) => if a in s.records { ClaimFrame(s, t, a, s.records[a], Vote); }
    case AfterDelegationModified(t, a) => if a in s.records { ClaimFrame(s, t, a, s.records[a], Delegate); }
    case PostTxProcessing(t, a) => if a in s.records { ClaimFrame(s, t, a, s.records[a], EVM); }
    case AckPacket(t, p, _) => if p.sender in s.records { ClaimFrame(s, t, p.sender, s.records[p.sender], IBCTransfer); }
    case BankSend(_, _, _) =>
    case RecvPacket(t, p, app) => RecvKeepsAttested(Sent(s, app.source, app.to, app.amount), t, p, x);
  }

  lemma RecvKeepsAttested(s: Ledger, t: int, p: Packet, x: Address)
    requires s.Valid()
    ensures Attested(s, x) ==> Attested(RecvCommitted(s, t, p), x)
    ensures x == p.recipient && p.sender in s.records && p.sender !in RecvCommitted(s, t, p).records
            ==> Attested(RecvCommitted(s, t, p), x)
  {
    match Classify(s, t, p)
    case Ignore =>
    case Refuse =>
    case DoClaim => ClaimFrame(s, t, p.recipient, s.records[p.recipient], IBCTransfer);
    case DoMigrate => ClaimFrame(s, t, p.recipient, s.records[p.sender], IBCTransfer);
    case DoMerge =>
  }

  lemma {:induction false} RunKeepsAttested(s: Ledger, steps: seq<Step>, x: Address)
    requires Solvent(s) && Attested(s, x)
    ensures Attested(Run(s, steps), x)
    decreases |steps|
  {
    if steps != [] {
      StepLaw(s, steps[0]);
      StepKeepsAttested(s, steps[0], x);
      RunKeepsAttested(Apply(s, steps[0]), steps[1..], x);
    }
  }

  /** A record that has been the target of a merge or a migration is never,
      after any further run, the source of one. */
  lemma TargetNeverBecomesSource(s: Ledger, move: Step, steps: seq<Step>, later: Step, x: Address)
    requires Solvent(s) && MovesTo(s, move, x)
    ensures Solvent(Apply(s, move))
    ensures var s1 := Run(Apply(s, move), steps);
            Solvent(s1) && !MovesFrom(s1, later, x)
  {
    StepLaw(s, move);
    StepKeepsAttested(s, move, x);
    RunLaw(Apply(s, move), steps);
    RunKeepsAttested(Apply(s, move), steps, x);
    StepKeepsAttested(Run(Apply(s, move), steps), later, x);
  }
}
