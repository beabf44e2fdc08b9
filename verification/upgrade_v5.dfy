/** The claims part of the v5 upgrade: swapping completed actions, and moving
    one contributor's record. */
module UpgradeV5 {
  import opened Common
  import opened ClaimsTypes
  import opened ClaimsLedger
  import opened ClaimsSolvency
  import opened ClaimsDecay
  import opened ClaimsHistory
  import opened ClaimsEnd
  import opened MapSums

  /** Completes `unclaimed` at the price of reopening `claimed`. */
  function Swapped(bits: seq<bool>, unclaimed: nat, claimed: nat): seq<bool>
    requires |bits| == NUM_ACTIONS && unclaimed < NUM_ACTIONS && claimed < NUM_ACTIONS
  {
    bits[unclaimed := true][claimed := false]
  }

  /** The one swap a record gets: the EVM action takes over a completed action,
      the IBC one first; if it is completed, an open vote or delegation takes
      over a completed IBC action. */
  function Resolved(r: ClaimsRecord): ClaimsRecord {
    if !r.WellFormed() then r
    else
      var b := r.completed;
      r.(completed :=
        if !b[2] && b[3] then Swapped(b, 2, 3)
        else if !b[2] && b[0] then Swapped(b, 2, 0)
        else if !b[2] && b[1] then Swapped(b, 2, 1)
        else if b[2] && b[3] && !b[0] then Swapped(b, 0, 3)
        else if b[2] && b[3] && !b[1] then Swapped(b, 1, 3)
        else b)
  }

  method SwapUnclaimedAction(bits: array<bool>, unclaimed: Action, claimed: Action) returns (swapped: bool)
    requires !unclaimed.Unspecified? && !claimed.Unspecified? && unclaimed != claimed
    modifies bits
    ensures swapped <==> bits.Length == NUM_ACTIONS && !old(bits[..])[Slot(unclaimed)] && old(bits[..])[Slot(claimed)]
    ensures bits[..] == if swapped then Swapped(old(bits[..]), Slot(unclaimed), Slot(claimed)) else old(bits[..])
  {
    if bits.Length == NUM_ACTIONS && !bits[Slot(unclaimed)] && bits[Slot(claimed)] {
      bits[Slot(unclaimed)] := true;
      bits[Slot(claimed)] := false;
      return true;
    }
    return false;
  }

  class ClaimsStore {
    var records: map<Address, ClaimsRecord>

    constructor (records: map<Address, ClaimsRecord>)
      ensures this.records == records
    {
      this.records := records;
    }

    /** The five attempts on one decoded record; the bits are swapped in place. */
    method TrySwaps(r: ClaimsRecord) returns (overridden: bool, updated: ClaimsRecord)
      ensures updated == Resolved(r) && (!overridden ==> updated == r)
    {
      var n := |r.completed|;
      var bits := new bool[n](i requires 0 <= i < n => r.completed[i]);
      assert bits[..] == r.completed;
      overridden := SwapUnclaimedAction(bits, EVM, IBCTransfer);
      if !overridden {
        overridden := SwapUnclaimedAction(bits, EVM, Vote);
      }
      if !overridden {
        overridden := SwapUnclaimedAction(bits, EVM, Delegate);
      }
      if !overridden {
        overridden := SwapUnclaimedAction(bits, Vote, IBCTransfer);
      }
      if !overridden {
        overridden := SwapUnclaimedAction(bits, Delegate, IBCTransfer);
      }
      updated := r.(completed := bits[..]);
    }

    /** The iteration: the records that some swap overrides. */
    method CollectOverrides(order: seq<Address>) returns (overrides: map<Address, ClaimsRecord>)
      requires Enumerates(order, records)
      ensures overrides.Keys <= records.Keys
      ensures forall a :: a in records ==> Resolved(records[a]) == if a in overrides then overrides[a] else records[a]
    {
      hide Resolved;
      overrides := map[];
      for i := 0 to |order|
        invariant overrides.Keys <= records.Keys
        invariant forall a :: a in overrides ==> overrides[a] == Resolved(records[a])
        invariant forall a :: a in order[..i] && a !in overrides ==> Resolved(records[a]) == records[a]
      {
        assert forall a :: a in order[..i + 1] <==> a in order[..i] || a == order[i];
        var overridden, updated := TrySwaps(records[order[i]]);
        if overridden {
          overrides := overrides[order[i] := updated];
        }
      }
      assert order[..|order|] == order;
    }

    /** Collects the overridden records during the iteration, then writes them. */
    method ResolveAirdrop(order: seq<Address>)
      requires Enumerates(order, records)
      modifies this
      ensures records == ResolvedAll(old(records))
    {
      hide Resolved;
      var overrides := CollectOverrides(order);
      var pending := overrides.Keys;
      while pending != {}
        invariant pending <= overrides.Keys && records.Keys == old(records).Keys
        invariant forall a :: a in records ==>
          records[a] == if a in overrides && a !in pending then overrides[a] else old(records)[a]
        decreases |pending|
      {
        var a :| a in pending;
        records := records[a := overrides[a]];
        pending := pending - {a};
      }
    }

    /** The record is found at its new address only, and no other address is
        touched; without a record nothing happens. */
    method MigrateContributorClaim(from: Address, to: Address)
      modifies this
      ensures from in old(records) ==> to in records && records[to] == old(records)[from]
      ensures from in old(records) && from != to ==> from !in records
      ensures forall a :: a != from && a != to ==>
                (a in records <==> a in old(records)) && (a in records ==> records[a] == old(records)[a])
      ensures from !in old(records) ==> records == old(records)
      ensures records == Migrated(old(records), from, to)
    {
      if from !in records {
        return;
      }
      var cr := records[from];
      records := records - {from};
      records := records[to := cr];
    }
  }

  // ---------------------------------------------------------------- properties

  function Differences(b: seq<bool>, c: seq<bool>): nat
    requires |b| == NUM_ACTIONS && |c| == NUM_ACTIONS
  {
    Bit(b[0] != c[0]) + Bit(b[1] != c[1]) + Bit(b[2] != c[2]) + Bit(b[3] != c[3])
  }

  /** A record keeps its amount and its number of completed actions, takes part
      in at most one swap, and ends with the EVM action completed if any is. */
  lemma ResolvedRecord(r: ClaimsRecord)
    ensures var r1 := Resolved(r);
            && r1.amount == r.amount && |r1.completed| == |r.completed|
            && OpenActions(r1.completed) == OpenActions(r.completed)
            && (r.WellFormed() ==>
                 && (Differences(r.completed, r1.completed) == 0 || Differences(r.completed, r1.completed) == 2)
                 && (r1.HasClaimedAction(EVM) <==> HasClaimedOne(r)))
            && Resolved(r1) == r1
  {
    if r.WellFormed() {
      OpenActionsOfFour(r.completed);
      OpenActionsOfFour(Resolved(r).completed);
    }
  }

  /** The whole table. An open EVM action takes over the IBC action, else the
      vote, else the delegation; a completed one leaves the IBC action to an
      open vote, else to an open delegation. */
  lemma ResolvedTable(n: nat, v: bool, d: bool, e: bool, i: bool)
    ensures Resolved(ClaimsRecord(n, [v, d, false, true])) == ClaimsRecord(n, [v, d, true, false])
    ensures Resolved(ClaimsRecord(n, [true, d, false, false])) == ClaimsRecord(n, [false, d, true, false])
    ensures Resolved(ClaimsRecord(n, [false, true, false, false])) == ClaimsRecord(n, [false, false, true, false])
    ensures Resolved(ClaimsRecord(n, [false, d, true, true])) == ClaimsRecord(n, [true, d, true, false])
    ensures Resolved(ClaimsRecord(n, [true, false, true, true])) == ClaimsRecord(n, [true, true, true, false])
    ensures (e && !i) || (v && d && e && i) || !(v || d || e || i)
            ==> Resolved(ClaimsRecord(n, [v, d, e, i])) == ClaimsRecord(n, [v, d, e, i])
  {
  }

  function ResolvedAll(records: map<Address, ClaimsRecord>): map<Address, ClaimsRecord> {
    map a | a in records :: Resolved(records[a])
  }

  lemma UpgradeKeepsSums(records: map<Address, ClaimsRecord>)
    ensures TotalOwed(ResolvedAll(records)) == TotalOwed(records)
    ensures TotalAllocated(ResolvedAll(records)) == TotalAllocated(records)
  {
    var after := ResolvedAll(records);
    forall a | a in records
      ensures Owed(after[a]) == Owed(records[a]) && Allocated(after[a]) == Allocated(records[a])
    {
      ResolvedRecord(records[a]);
    }
    SumEqual(records, Owed, after, Owed);
    SumEqual(records, Allocated, after, Allocated);
  }

  /** The upgrade leaves the escrow equation as it was, and running it twice
      is running it once. */
  lemma UpgradeKeepsLedger(s: Ledger)
    ensures var s1 := s.(records := ResolvedAll(s.records));
            && Surplus(s1) == Surplus(s)
            && (Solvent(s) ==> Solvent(s1))
            && ResolvedAll(s1.records) == s1.records
  {
    UpgradeKeepsSums(s.records);
    var after := ResolvedAll(s.records);
    forall a | a in s.records
      ensures s.records[a].WellFormed() ==> after[a].WellFormed()
      ensures QuartersExactly(s.records[a]) ==> QuartersExactly(after[a])
      ensures Resolved(after[a]) == after[a]
    {
      ResolvedRecord(s.records[a]);
    }
  }

  // ---------------------------------------------------------------- targets of merges and migrations

  /** The step happens at `t` or later. */
  predicate NotBefore(t: int, step: Step) { step.BankSend? || t <= step.time }

  predicate AllNotBefore(t: int, steps: seq<Step>) { forall i :: 0 <= i < |steps| ==> NotBefore(t, steps[i]) }

  /** From `t` on, no run of hooks and callbacks, however long, is followed by a
      step that moves the record at `x` away. */
  ghost predicate NeverMoves(s: Ledger, x: Address, t: int)
    requires Solvent(s)
  {
    forall steps :: AllNotBefore(t, steps) ==> StaysAfter(s, steps, x, t)
  }

  ghost predicate StaysAfter(s: Ledger, steps: seq<Step>, x: Address, t: int)
    requires Solvent(s)
  {
    RunLaw(s, steps);
    forall later :: NotBefore(t, later) ==> !MovesFrom(Run(s, steps), later, x)
  }

  /** The upgrade reopens the IBC action of every record that has it completed,
      unless all four actions are. */
  lemma IbcStaysCompletedIff(r: ClaimsRecord)
    requires r.HasClaimedAction(IBCTransfer)
    ensures Resolved(r).HasClaimedAction(IBCTransfer)
            <==> r.HasClaimedAction(Vote) && r.HasClaimedAction(Delegate) && r.HasClaimedAction(EVM)
  {
  }

  /** What an open action of a record of this amount still pays at `t`. */
  function Share(p: Params, amount: nat, t: int): int
    requires p.Valid()
  {
    GetClaimableAmountForAction(NewClaimsRecord(amount), IBCTransfer, p, t).0
  }

  /** So a record that was the target of a merge or a migration can become the
      source of one after an upgrade at `t`, wherever there is a channel and a
      free address to move it to, unless all its actions were completed or an
      open action pays nothing any more. */
  lemma TargetFixedByUpgradeIff(s: Ledger, x: Address, y: Address, channel: string, t: int)
    requires Solvent(s) && Attested(s, x) && s.params.IsClaimsActive(t) && s.params.IsAuthorizedChannel(channel)
    requires x !in s.blocked && y !in s.blocked && y !in s.records
    ensures var s1, r := s.(records := ResolvedAll(s.records)), s.records[x];
            && Solvent(s1)
            && (NeverMoves(s1, x, t) <==>
                 || (r.HasClaimedAction(Vote) && r.HasClaimedAction(Delegate) && r.HasClaimedAction(EVM))
                 || Share(s.params, r.amount, t) == 0)
  {
    hide GetClaimableAmountForAction, Apply;
    UpgradeKeepsLedger(s);
    IbcStaysCompletedIff(s.records[x]);
    ResolvedRecord(s.records[x]);
    var s1 := s.(records := ResolvedAll(s.records));
    ShareBounds(s.params, s.records[x].amount, t, t);
    if Stuck(s1, x, t) {
      forall steps | AllNotBefore(t, steps) ensures StaysAfter(s1, steps, x, t) { StuckStays(s1, steps, x, t); }
    } else {
      ReopenedMoves(s1, x, y, channel, t);
      assert Run(s1, []) == s1;
      assert AllNotBefore(t, []) && !StaysAfter(s1, [], x, t);
    }
  }

  /** The record cannot move: its IBC action is completed; or it cannot merge,
      some action being completed, and a migration would pay nothing. */
  predicate Stuck(s: Ledger, x: Address, t: int)
    requires s.params.Valid()
  {
    x in s.records
    && var r := s.records[x];
       r.HasClaimedAction(IBCTransfer) || (HasClaimedOne(r) && Share(s.params, r.amount, t) == 0)
  }

  lemma ShareBounds(p: Params, amount: nat, t: int, later: int)
    requires p.Valid() && p.IsClaimsActive(t) && t <= later
    ensures 0 <= Share(p, amount, later) <= Share(p, amount, t)
  {
    if p.IsClaimsActive(later) {
      ClaimableWithinWindow(NewClaimsRecord(amount), IBCTransfer, p, t, later);
      ClaimableWithinWindow(NewClaimsRecord(amount), IBCTransfer, p, later, later);
    } else {
      ClaimableWithinWindow(NewClaimsRecord(amount), IBCTransfer, p, t, t);
    }
  }

  /** A claim that pays nothing changes nothing. */
  lemma WorthlessClaim(s: Ledger, t: int, addr: Address, r: ClaimsRecord, action: Action)
    requires s.params.Valid() && Share(s.params, r.amount, t) == 0
    ensures Claim(s, t, addr, r, action).0 == s
    ensures Claim(s, t, addr, r, action).1.Ok? ==> Claim(s, t, addr, r, action).1.value == 0
  {
  }

  lemma StuckStep(s: Ledger, step: Step, x: Address, t: int)
    requires s.Valid() && s.params.IsClaimsActive(t) && Stuck(s, x, t) && NotBefore(t, step)
    ensures !MovesFrom(s, step, x)
    ensures Apply(s, step).params == s.params ==> Stuck(Apply(s, step), x, t)
  {
    hide Share, ClaimsLedger.Claim, Merge, Move;
    StepKeepsAttested(s, step, x);
    if !Attested(s, x) {
      var r := s.records[x];
      if !step.BankSend? {
        ShareBounds(s.params, r.amount, t, step.time);
      }
      match step
      case AfterProposalVote(u, a) => WorthlessHook(s, u, a, Vote, x);
      case AfterDelegationModified(u, a) => WorthlessHook(s, u, a, Delegate, x);
      case PostTxProcessing(u, a) => WorthlessHook(s, u, a, EVM, x);
      case AckPacket(u, p, _) =>
        if p.sender in s.records { WorthlessHook(s, u, p.sender, IBCTransfer, x); }
      case BankSend(_, _, _) =>
      case RecvPacket(u, p, app) => StuckPacket(Sent(s, app.source, app.to, app.amount), u, p, x);
    }
  }

  lemma WorthlessHook(s: Ledger, u: int, a: Address, action: Action, x: Address)
    requires s.Valid() && x in s.records && Share(s.params, s.records[x].amount, u) == 0
    ensures a in s.records ==>
              var s1 := Claim(s, u, a, s.records[a], action).0; x in s1.records && s1.records[x] == s.records[x]
  {
    hide Share;
    if a == x {
      WorthlessClaim(s, u, x, s.records[x], action);
    } else if a in s.records {
      ClaimFrame(s, u, a, s.records[a], action);
    }
  }

  lemma StuckPacket(s: Ledger, u: int, p: Packet, x: Address)
    requires s.Valid() && x in s.records && HasClaimedOne(s.records[x]) && Share(s.params, s.records[x].amount, u) == 0
    ensures var s1 := RecvCommitted(s, u, p);
            x in s1.records && (s1.records[x] == s.records[x] || s1.records[x].HasClaimedAction(IBCTransfer))
  {
    hide Share, ClaimsLedger.Claim;
    match Classify(s, u, p)
    case Ignore =>
    case Refuse =>
    case DoClaim => WorthlessHook(s, u, p.recipient, IBCTransfer, x);
    case DoMigrate =>
      if p.sender == x {
        WorthlessClaim(s, u, p.recipient, s.records[x], IBCTransfer);
      } else {
        ClaimFrame(s, u, p.recipient, s.records[p.sender], IBCTransfer);
      }
    case DoMerge =>
  }

  lemma {:induction false} RunKeepsStuck(s: Ledger, steps: seq<Step>, x: Address, t: int)
    requires Solvent(s) && s.params.IsClaimsActive(t) && Stuck(s, x, t) && AllNotBefore(t, steps)
    ensures Run(s, steps).params == s.params && Stuck(Run(s, steps), x, t)
    decreases |steps|
  {
    hide Share, Apply;
    if steps != [] {
      StepLaw(s, steps[0]);
      StuckStep(s, steps[0], x, t);
      RunKeepsStuck(Apply(s, steps[0]), steps[1..], x, t);
    }
  }

  lemma StuckStays(s: Ledger, steps: seq<Step>, x: Address, t: int)
    requires Solvent(s) && s.params.IsClaimsActive(t) && Stuck(s, x, t) && AllNotBefore(t, steps)
    ensures StaysAfter(s, steps, x, t)
  {
    hide Share, Apply;
    RunLaw(s, steps);
    RunKeepsStuck(s, steps, x, t);
    forall later | NotBefore(t, later) ensures !MovesFrom(Run(s, steps), later, x) {
      StuckStep(Run(s, steps), later, x, t);
    }
  }

  /** With its IBC action open and worth something, a record can be migrated. */
  lemma ReopenedMoves(s: Ledger, x: Address, y: Address, channel: string, t: int)
    requires Solvent(s) && x in s.records && !Attested(s, x) && s.params.IsClaimsActive(t)
    requires s.params.IsAuthorizedChannel(channel) && Share(s.params, s.records[x].amount, t) > 0
    requires x !in s.blocked && y !in s.blocked && y !in s.records
    ensures var step := RecvPacket(t, Packet(true, x, y, channel, Some(TRIGGER_AMOUNT)), NO_COINS);
            NotBefore(t, step) && MovesFrom(s, step, x)
  {
    hide GetClaimableAmountForAction;
    var r := s.records[x];
    var p := Packet(true, x, y, channel, Some(TRIGGER_AMOUNT));
    assert Classify(s, t, p) == DoMigrate;
    QuarterCovered(s, x);
    ShareOfOpenIbc(s.params, r, t);
    ClaimableSplitsQuarter(r, IBCTransfer, s.params, t);
    var (claimable, remainder) := GetClaimableAmountForAction(r, IBCTransfer, s.params, t);
    PayOutInFull(s, y, claimable, remainder);
    assert Claim(s, t, y, r, IBCTransfer).1 == Ok(claimable);
    assert Delivered(s, t, p, NO_COINS) == Recv(s, t, p).0;
  }

  lemma ShareOfOpenIbc(p: Params, r: ClaimsRecord, t: int)
    requires p.Valid() && !r.HasClaimedAction(IBCTransfer)
    ensures GetClaimableAmountForAction(r, IBCTransfer, p, t).0 == Share(p, r.amount, t)
  {
  }

  function Migrated(records: map<Address, ClaimsRecord>, from: Address, to: Address): map<Address, ClaimsRecord> {
    if from !in records then records else (records - {from})[to := records[from]]
  }

  /** Moving a record strands exactly what the record it overwrites was owed. */
  lemma MigrationStrandsTarget(s: Ledger, from: Address, to: Address)
    ensures var s1 := s.(records := Migrated(s.records, from, to));
            Surplus(s1) == Surplus(s)
                           + (if from in s.records && from != to && to in s.records then Owed(s.records[to]) else 0)
  {
    if from in s.records {
      SumRemove(s.records, Owed, from);
      SumUpdate(s.records - {from}, Owed, to, s.records[from]);
    }
  }
}
