/** The genesis check, the registered invariant and genesis export. */
module ClaimsGenesis {
  import opened Common
  import opened ClaimsTypes
  import opened ClaimsLedger
  import opened ClaimsSolvency
  import opened ClaimsEnd
  import opened MapSums
  import Dec = FixedPoint

  datatype RecordAddress = RecordAddress(address: Address, record: ClaimsRecord)

  // ---------------------------------------------------------------- InitGenesis

  /** The genesis check's sum: whole quarters over the open actions of every entry. */
  function SumUnclaimed(entries: seq<RecordAddress>): int {
    if entries == [] then 0
    else
      var last := |entries| - 1;
      SumUnclaimed(entries[..last]) + Owed(entries[last].record)
  }

  /** The records an entry list writes; a later entry overwrites an earlier one. */
  function RecordsOf(entries: seq<RecordAddress>): map<Address, ClaimsRecord> {
    if entries == [] then map[]
    else
      var last := |entries| - 1;
      RecordsOf(entries[..last])[entries[last].address := entries[last].record]
  }

  /** The parameters and the list of records. */
  datatype Genesis = Genesis(params: Params, entries: seq<RecordAddress>)

  /** What genesis writes. */
  datatype Initial = Initial(params: Params, records: map<Address, ClaimsRecord>)

  /** The zero value of a time, midnight on 1 January of the year 1. */
  const ZERO_TIME: int := -62_135_596_800_000_000_000

  function StartTime(g: Genesis, blockTime: int): int {
    if g.params.airdropStartTime == ZERO_TIME then blockTime else g.params.airdropStartTime
  }

  predicate Accepted(g: Genesis, totalEscrowed: nat) {
    (forall i :: 0 <= i < |g.entries| ==> g.entries[i].record.WellFormed()) && SumUnclaimed(g.entries) == totalEscrowed
  }

  /** The inner loop: one quarter for every open action. */
  method AddUnclaimed(sumUnclaimed: int, cr: ClaimsRecord) returns (sum: int)
    ensures sum == sumUnclaimed + Owed(cr)
  {
    var perAction := cr.amount / NUM_ACTIONS;
    sum := sumUnclaimed;
    for k := 0 to |cr.completed|
      invariant sum == sumUnclaimed + OpenActions(cr.completed[..k]) * perAction
    {
      OpenActionsSnoc(cr.completed, k);
      var n := OpenActions(cr.completed[..k]);
      assert (n + 1) * perAction == n * perAction + perAction;
      if !cr.completed[k] {
        sum := sum + perAction;
      }
    }
    assert cr.completed[..|cr.completed|] == cr.completed;
  }

  /** Absent when the source panics. */
  method InitGenesis(g: Genesis, blockTime: int, moduleAccountSet: bool, totalEscrowed: nat) returns (r: Option<Initial>)
    ensures r == if moduleAccountSet && Accepted(g, totalEscrowed)
                 then Some(Initial(g.params.(airdropStartTime := StartTime(g, blockTime)), RecordsOf(g.entries))) else None
  {
    if !moduleAccountSet {
      return None;
    }
    var params := g.params;
    if params.airdropStartTime == ZERO_TIME {
      params := params.(airdropStartTime := blockTime);
    }
    var entries := g.entries;
    var sumUnclaimed := 0;
    var records: map<Address, ClaimsRecord> := map[];
    for i := 0 to |entries|
      invariant forall j :: 0 <= j < i ==> entries[j].record.WellFormed()
      invariant sumUnclaimed == SumUnclaimed(entries[..i])
      invariant records == RecordsOf(entries[..i])
    {
      var cr := entries[i].record;
      if |cr.completed| != NUM_ACTIONS {
        return None;
      }
      sumUnclaimed := AddUnclaimed(sumUnclaimed, cr);
      assert entries[..i + 1][..i] == entries[..i];
      records := records[entries[i].address := cr];
    }
    assert entries[..|entries|] == entries;
    if sumUnclaimed != totalEscrowed {
      return None;
    }
    return Some(Initial(params, records));
  }

  lemma {:induction false} OpenActionsSnoc(bits: seq<bool>, k: nat)
    requires k < |bits|
    ensures OpenActions(bits[..k + 1]) == OpenActions(bits[..k]) + Bit(!bits[k])
    decreases k
  {
    if k == 0 {
      assert bits[..1][1..] == [];
    } else {
      OpenActionsSnoc(bits[1..], k - 1);
      assert bits[..k + 1][1..] == bits[1..][..k];
      assert bits[..k][1..] == bits[1..][..k - 1];
    }
  }

  /** What overwritten entries were counted for. */
  function Overwritten(entries: seq<RecordAddress>): int {
    if entries == [] then 0
    else
      var last := |entries| - 1;
      var earlier := RecordsOf(entries[..last]);
      Overwritten(entries[..last])
      + (if entries[last].address in earlier then Owed(earlier[entries[last].address]) else 0)
  }

  predicate NoDuplicates(entries: seq<RecordAddress>) {
    forall i, j :: 0 <= i < j < |entries| ==> entries[i].address != entries[j].address
  }

  /** An address is written exactly when some entry names it. */
  lemma {:induction false} WrittenAddresses(entries: seq<RecordAddress>, a: Address)
    ensures a in RecordsOf(entries) <==> exists i :: 0 <= i < |entries| && entries[i].address == a
  {
    if entries != [] {
      var last := |entries| - 1;
      WrittenAddresses(entries[..last], a);
      assert forall i :: 0 <= i < last ==> entries[..last][i] == entries[i];
    }
  }

  /** The check's sum is what the written records owe plus what was overwritten. */
  lemma {:induction false} SumUnclaimedLaw(entries: seq<RecordAddress>)
    ensures SumUnclaimed(entries) == TotalOwed(RecordsOf(entries)) + Overwritten(entries)
    ensures Overwritten(entries) >= 0
    ensures NoDuplicates(entries) ==> Overwritten(entries) == 0
  {
    if entries != [] {
      var last := |entries| - 1;
      var init := entries[..last];
      SumUnclaimedLaw(init);
      SumUpdate(RecordsOf(init), Owed, entries[last].address, entries[last].record);
      WrittenAddresses(init, entries[last].address);
      if entries[last].address in RecordsOf(init) {
        OwedNonNegative(RecordsOf(init)[entries[last].address]);
      }
    }
  }

  /** An accepted genesis starts with escrow exactly equal to what is owed if
      and only if its overwritten entries owed nothing; a list that passes the
      duplicate check always does. */
  lemma GenesisEstablishesInvariant(entries: seq<RecordAddress>, escrow: nat)
    requires SumUnclaimed(entries) == escrow
    ensures escrow >= TotalOwed(RecordsOf(entries))
    ensures escrow == TotalOwed(RecordsOf(entries)) <==> Overwritten(entries) == 0
    ensures NoDuplicates(entries) ==> escrow == TotalOwed(RecordsOf(entries))
  {
    SumUnclaimedLaw(entries);
  }

  lemma {:induction false} RecordsWellFormed(entries: seq<RecordAddress>)
    requires forall i :: 0 <= i < |entries| ==> entries[i].record.WellFormed()
    ensures forall a :: a in RecordsOf(entries) ==> RecordsOf(entries)[a].WellFormed()
  {
    if entries != [] {
      RecordsWellFormed(entries[..|entries| - 1]);
    }
  }

  /** A ledger that genesis writes, accepted, without duplicates and divisible,
      is solvent and has no surplus: the runs may begin. */
  lemma GenesisIsSolvent(g: Genesis, s: Ledger)
    requires Accepted(g, Escrow(s)) && NoDuplicates(g.entries) && s.records == RecordsOf(g.entries)
    requires s.params.Valid() && ESCROW in s.blocked && Divisible(s.records)
    ensures Solvent(s) && Surplus(s) == 0
  {
    RecordsWellFormed(g.entries);
    GenesisEstablishesInvariant(g.entries, Escrow(s));
  }

  /** A list that names an address twice is accepted with escrow for both. */
  lemma DuplicateLeavesSurplus(params: Params)
    ensures var entries := [RecordAddress("a", NewClaimsRecord(4)), RecordAddress("a", NewClaimsRecord(8))];
            Accepted(Genesis(params, entries), 12) && TotalOwed(RecordsOf(entries)) == 8
  {
    var first, second := RecordAddress("a", NewClaimsRecord(4)), RecordAddress("a", NewClaimsRecord(8));
    var entries := [first, second];
    OpenActionsOfFour([false, false, false, false]);
    assert entries[..1] == [first] && [first][..0] == [];
    assert SumUnclaimed([first]) == 4 && SumUnclaimed(entries) == SumUnclaimed(entries[..1]) + 8;
    assert RecordsOf([first]) == map["a" := first.record];
    assert Overwritten([first]) == 0 && Overwritten(entries) == Overwritten(entries[..1]) + 4;
    SumUnclaimedLaw(entries);
  }

  // ---------------------------------------------------------------- ClaimsInvariant

  /** Open actions times the amount: four times the exact unclaimed coins. */
  function OpenAmount(r: ClaimsRecord): int { OpenActions(r.completed) * r.amount }

  ghost function TotalOpenAmount(records: map<Address, ClaimsRecord>): int { SumBy(records, OpenAmount) }

  /** The registered invariant sums quarters as decimals. It reports a break
      exactly when claims are active and the exact unclaimed sum differs from escrow. */
  method ClaimsInvariant(params: Params, t: int, records: map<Address, ClaimsRecord>, order: seq<Address>, escrow: nat)
    returns (broken: bool)
    requires Enumerates(order, records)
    ensures broken <==> params.IsClaimsActive(t) && TotalOpenAmount(records) != NUM_ACTIONS * escrow
  {
    if !params.IsClaimsActive(t) {
      return false;
    }
    var expectedUnclaimed := 0;
    ghost var seen: map<Address, ClaimsRecord> := map[];
    for i := 0 to |order|
      invariant seen.Keys == set a | a in order[..i]
      invariant forall a :: a in seen ==> a in records && seen[a] == records[a]
      invariant NUM_ACTIONS * expectedUnclaimed == Dec.FromInt(TotalOpenAmount(seen))
    {
      var cr := records[order[i]];
      assert order[..i + 1] == order[..i] + [order[i]];
      SumUpdate(seen, OpenAmount, order[i], cr);
      var added := UnclaimedOf(cr);
      expectedUnclaimed := expectedUnclaimed + added;
      seen := seen[order[i] := cr];
    }
    assert order[..|order|] == order;
    assert seen == records;
    return expectedUnclaimed != Dec.FromInt(escrow);
  }

  /** One record's contribution, accumulated bit by bit in decimals. */
  method UnclaimedOf(cr: ClaimsRecord) returns (d: int)
    ensures NUM_ACTIONS * d == Dec.FromInt(OpenAmount(cr))
  {
    var perAction := Dec.Quo(Dec.FromInt(cr.amount), Dec.FromInt(4));
    Dec.QuarterIsExact(cr.amount);
    d := 0;
    for k := 0 to |cr.completed|
      invariant NUM_ACTIONS * d == Dec.FromInt(OpenActions(cr.completed[..k]) * cr.amount)
    {
      OpenActionsSnoc(cr.completed, k);
      var n := OpenActions(cr.completed[..k]);
      assert (n + 1) * cr.amount == n * cr.amount + cr.amount;
      if !cr.completed[k] {
        d := d + perAction;
      }
    }
    assert cr.completed[..|cr.completed|] == cr.completed;
  }

  function FourOwed(r: ClaimsRecord): int { NUM_ACTIONS * Owed(r) }

  lemma {:induction false} FourOwedTotal(records: map<Address, ClaimsRecord>)
    ensures SumBy(records, FourOwed) == NUM_ACTIONS * TotalOwed(records)
    decreases |records|
  {
    if records != map[] {
      var a :| a in records;
      SumTakeOut(records, FourOwed, a);
      SumTakeOut(records, Owed, a);
      FourOwedTotal(records - {a});
    }
  }

  /** Rounding each quarter down loses nothing exactly when the amount divides. */
  lemma QuarterLoss(r: ClaimsRecord)
    ensures FourOwed(r) <= OpenAmount(r)
    ensures FourOwed(r) == OpenAmount(r) <==> QuartersExactly(r)
  {
  }

  lemma {:induction false} IntegerSumLoses(records: map<Address, ClaimsRecord>)
    ensures NUM_ACTIONS * TotalOwed(records) <= TotalOpenAmount(records)
    ensures NUM_ACTIONS * TotalOwed(records) == TotalOpenAmount(records) <==> Divisible(records)
    decreases |records|
  {
    if records != map[] {
      var a :| a in records;
      IntegerSumLoses(records - {a});
      SumTakeOut(records, Owed, a);
      SumTakeOut(records, OpenAmount, a);
      QuarterLoss(records[a]);
      assert forall k :: k in records ==> k == a || (k in records - {a} && (records - {a})[k] == records[k]);
      assert forall k :: k in records - {a} ==> records[k] == (records - {a})[k];
    } else {
      assert TotalOwed(records) == 0 && TotalOpenAmount(records) == 0;
    }
  }

  predicate GenesisPasses(owed: int, escrow: nat) { owed == escrow }

  /** The genesis check and the registered invariant give the same verdict on a
      record set, whatever the escrow, exactly when every record with an open
      action divides by four. */
  lemma ChecksAgreeIffDivisible(records: map<Address, ClaimsRecord>)
    ensures (forall escrow: nat ::
               GenesisPasses(TotalOwed(records), escrow) <==> TotalOpenAmount(records) == NUM_ACTIONS * escrow)
            <==> Divisible(records)
  {
    IntegerSumLoses(records);
    TotalOwedNonNegative(records);
    assert GenesisPasses(TotalOwed(records), TotalOwed(records));
  }

  /** After any run that starts in balance, the registered invariant holds if
      and only if no merge of the run stranded coins. */
  lemma RegisteredInvariantHoldsIff(s: Ledger, steps: seq<Step>)
    requires Solvent(s) && Surplus(s) == 0
    ensures TotalOpenAmount(Run(s, steps).records) == NUM_ACTIONS * Escrow(Run(s, steps)) <==> !Strands(s, steps)
  {
    RunLaw(s, steps);
    IntegerSumLoses(Run(s, steps).records);
    ExactIffNothingStranded(s, steps);
  }

  // ---------------------------------------------------------------- export

  function ExportRecords(records: map<Address, ClaimsRecord>, order: seq<Address>): (entries: seq<RecordAddress>)
    requires forall i :: 0 <= i < |order| ==> order[i] in records
  {
    seq(|order|, i requires 0 <= i < |order| => RecordAddress(order[i], records[order[i]]))
  }

  lemma {:induction false} RecordsOfPrefix(records: map<Address, ClaimsRecord>, order: seq<Address>, n: nat)
    requires (forall i :: 0 <= i < |order| ==> order[i] in records) && n <= |order|
    ensures var written := RecordsOf(ExportRecords(records, order)[..n]);
            && written.Keys == (set a | a in order[..n])
            && forall a :: a in written ==> a in records && written[a] == records[a]
    decreases n
  {
    if n > 0 {
      RecordsOfPrefix(records, order, n - 1);
      var entries := ExportRecords(records, order);
      assert entries[..n][..n - 1] == entries[..n - 1];
      assert entries[..n][n - 1] == RecordAddress(order[n - 1], records[order[n - 1]]);
      assert order[..n] == order[..n - 1] + [order[n - 1]];
      assert RecordsOf(entries[..n]) == RecordsOf(entries[..n - 1])[order[n - 1] := records[order[n - 1]]];
    }
  }

  lemma ExportWritesBack(records: map<Address, ClaimsRecord>, order: seq<Address>)
    requires Enumerates(order, records)
    ensures RecordsOf(ExportRecords(records, order)) == records
  {
    var entries := ExportRecords(records, order);
    assert entries[..|order|] == entries && order[..|order|] == order;
    RecordsOfPrefix(records, order, |order|);
    assert RecordsOf(entries).Keys == records.Keys;
  }

  lemma ExportIsClean(s: Ledger, order: seq<Address>)
    requires s.Valid() && Enumerates(order, s.records)
    ensures NoDuplicates(ExportRecords(s.records, order))
    ensures forall i :: 0 <= i < |order| ==> ExportRecords(s.records, order)[i].record.WellFormed()
  {
  }

  function Export(s: Ledger, order: seq<Address>): Genesis
    requires Enumerates(order, s.records)
  {
    Genesis(s.params, ExportRecords(s.records, order))
  }

  /** A state in which escrow equals what is owed exports to a genesis that the
      check accepts, without duplicates, and that writes the same records
      back; and the same parameters, if and only if the airdrop has a start
      time or the new chain starts at the zero time too. */
  lemma ExportRoundTrip(s: Ledger, order: seq<Address>, blockTime: int)
    requires s.Valid() && Enumerates(order, s.records) && Escrow(s) == TotalOwed(s.records)
    ensures var g := Export(s, order);
            && Accepted(g, Escrow(s)) && NoDuplicates(g.entries)
            && RecordsOf(g.entries) == s.records
            && (g.params.(airdropStartTime := StartTime(g, blockTime)) == s.params
                <==> s.params.airdropStartTime != ZERO_TIME || blockTime == ZERO_TIME)
  {
    ExportIsClean(s, order);
    ExportWritesBack(s.records, order);
    SumUnclaimedLaw(ExportRecords(s.records, order));
  }
}
