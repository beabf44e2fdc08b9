/** The end of the airdrop: when it happens, what is clawed back, what remains. */
module ClaimsEnd {
  import opened Common
  import opened ClaimsTypes
  import opened ClaimsLedger
  import opened ClaimsSolvency
  import opened MapSums

  // ---------------------------------------------------------------- when

  /** The end-blocker's test, in int64 durations. */
  predicate AirdropOver(p: Params, t: int) {
    p.enableClaims
    && TimeSub(t, p.airdropStartTime) > DurationAdd(p.durationUntilDecay, p.durationOfDecay)
  }

  /** The durations leave room for the end-blocker's int64 arithmetic. */
  predicate WindowFits(p: Params) {
    p.durationUntilDecay + p.durationOfDecay < MAX_DURATION
  }

  /** The test fires exactly when the block is past the active window, at every
      time, if and only if the window fits. */
  lemma EndsExactlyPastWindow(p: Params)
    requires p.Valid() && p.enableClaims
    ensures (forall t :: AirdropOver(p, t) <==> t > p.AirdropEndTime()) <==> WindowFits(p)
  {
    var sum := p.durationUntilDecay + p.durationOfDecay;
    if WindowFits(p) {
      assert DurationAdd(p.durationUntilDecay, p.durationOfDecay) == sum;
    } else if sum == MAX_DURATION {
      assert !AirdropOver(p, p.AirdropEndTime() + 1);
    } else {
      assert AirdropOver(p, p.airdropStartTime);
    }
  }

  /** Two durations of some 146 years each make the sum wrap, and a block at
      the very start of the airdrop ends it. */
  lemma WrappedWindowEndsAtOnce(start: int)
    ensures var p := Params(true, start, MAX_DURATION / 2 + 1, MAX_DURATION / 2 + 1, [], []);
            p.Valid() && p.IsClaimsActive(start) && AirdropOver(p, start)
  {
  }

  // ---------------------------------------------------------------- what

  function ClawbackEscrow(s: Ledger): Ledger {
    if Escrow(s) == 0 then s else FundPool(s, ESCROW, Escrow(s))
  }

  /** An account that never sent a transaction and locks nothing. */
  predicate Dormant(s: Ledger, a: Address) {
    a in s.accounts && !s.accounts[a].vesting && s.accounts[a].sequence == 0
  }

  function ClawbackOne(s: Ledger, a: Address): Ledger {
    if !Dormant(s, a) then s
    else if Balance(s.bank, a) == 0 then s.(accounts := s.accounts - {a})
    else FundPool(s, a, Balance(s.bank, a))
  }

  /** Claws back the accounts in the order the store iterates over them. */
  function ClawbackAll(s: Ledger, order: seq<Address>): Ledger {
    if order == [] then s
    else
      var last := |order| - 1;
      ClawbackOne(ClawbackAll(s, order[..last]), order[last])
  }

  predicate Enumerates(order: seq<Address>, records: map<Address, ClaimsRecord>) {
    && (forall i, j :: 0 <= i < j < |order| ==> order[i] != order[j])
    && (set a | a in order) == records.Keys
  }

  function EndAirdrop(s: Ledger, order: seq<Address>): Ledger {
    ClawbackAll(ClawbackEscrow(s), order).(records := map[], params := s.params.(enableClaims := false))
  }

  function EndBlock(s: Ledger, t: int, order: seq<Address>): Ledger {
    if AirdropOver(s.params, t) then EndAirdrop(s, order) else s
  }

  // ---------------------------------------------------------------- effect

  /** The balance an account other than the pool's own is left with. */
  function BalanceAfterClawback(s: Ledger, order: seq<Address>, a: Address): nat {
    if a in order && Dormant(s, a) then 0 else Balance(s.bank, a)
  }

  predicate PrunedAccount(s: Ledger, order: seq<Address>, a: Address) {
    a in order && Dormant(s, a) && Balance(s.bank, a) == 0
  }

  /** Coins the pool counts beyond what its account received. */
  function PoolExcess(s: Ledger, s1: Ledger): int {
    (s1.pool - s.pool) - (Balance(s1.bank, DISTRIBUTION) - Balance(s.bank, DISTRIBUTION))
  }

  /** What the dormant accounts that come before the distribution account hold. */
  function ClawedBefore(s: Ledger, order: seq<Address>): nat {
    if order == [] then 0
    else
      var last := |order| - 1;
      ClawedBefore(s, order[..last])
      + (if DISTRIBUTION !in order && Dormant(s, order[last]) then Balance(s.bank, order[last]) else 0)
  }

  /** What the distribution account is made to pay to itself: all it holds when
      its turn comes. */
  function SelfPaid(s: Ledger, order: seq<Address>): nat {
    if DISTRIBUTION in order && Dormant(s, DISTRIBUTION) then Balance(s.bank, DISTRIBUTION) + ClawedBefore(s, order) else 0
  }

  /** The effect of the account-by-account clawback, whatever the order. */
  lemma {:induction false} ClawbackEffect(s: Ledger, order: seq<Address>)
    requires forall i, j :: 0 <= i < j < |order| ==> order[i] != order[j]
    ensures var s1 := ClawbackAll(s, order);
            && s1 == s.(bank := s1.bank, pool := s1.pool, accounts := s1.accounts)
            && TotalCoins(s1.bank) == TotalCoins(s.bank)
            && (forall a :: a != DISTRIBUTION ==> Balance(s1.bank, a) == BalanceAfterClawback(s, order, a))
            && (forall a :: a != DISTRIBUTION ==> (a in s1.accounts <==> a in s.accounts && !PrunedAccount(s, order, a)))
            && (forall a :: a in s1.accounts ==> a in s.accounts && s1.accounts[a] == s.accounts[a])
            && (DISTRIBUTION !in order ==> (DISTRIBUTION in s1.accounts <==> DISTRIBUTION in s.accounts))
            && (DISTRIBUTION !in order ==> Balance(s1.bank, DISTRIBUTION) == Balance(s.bank, DISTRIBUTION) + ClawedBefore(s, order))
            && Balance(s1.bank, DISTRIBUTION) >= Balance(s.bank, DISTRIBUTION)
            && PoolExcess(s, s1) == SelfPaid(s, order)
    decreases |order|
  {
    if order != [] {
      var last := |order| - 1;
      var init, a := order[..last], order[last];
      ClawbackEffect(s, init);
      var s0 := ClawbackAll(s, init);
      assert a !in init;
      assert forall x :: x in order <==> x in init || x == a;
      assert Dormant(s0, a) <==> Dormant(s, a);
      forall x | x != DISTRIBUTION
        ensures Balance(ClawbackOne(s0, a).bank, x) == BalanceAfterClawback(s, order, x)
      {
        assert Balance(s0.bank, x) == BalanceAfterClawback(s, init, x);
        assert x in order <==> x in init || x == a;
      }
      if Dormant(s0, a) && Balance(s0.bank, a) != 0 {
        MoveConserves(s0.bank, a, DISTRIBUTION, Balance(s0.bank, a));
      }
    }
  }

  lemma ClawbackEscrowEffect(s: Ledger)
    ensures var s1 := ClawbackEscrow(s);
            && s1 == s.(bank := s1.bank, pool := s1.pool)
            && Escrow(s1) == 0
            && TotalCoins(s1.bank) == TotalCoins(s.bank)
            && Balance(s1.bank, DISTRIBUTION) == Balance(s.bank, DISTRIBUTION) + Escrow(s)
            && PoolExcess(s, s1) == 0
            && forall a :: a != ESCROW && a != DISTRIBUTION ==> Balance(s1.bank, a) == Balance(s.bank, a)
  {
    if Escrow(s) != 0 {
      MoveConserves(s.bank, ESCROW, DISTRIBUTION, Escrow(s));
    }
  }

  /** After the airdrop: escrow is empty, no record remains, claims are off, no
      coin is lost; exactly the dormant airdrop accounts are emptied, and those
      already empty are removed; everyone else is untouched. */
  lemma AirdropEndEffect(s: Ledger, order: seq<Address>)
    requires s.Valid() && Enumerates(order, s.records)
    ensures var s1 := EndAirdrop(s, order);
            && Escrow(s1) == 0 && s1.records == map[] && !s1.params.enableClaims
            && Solvent(s1) && Surplus(s1) == 0
            && TotalCoins(s1.bank) == TotalCoins(s.bank)
            && (forall a :: a != DISTRIBUTION && a != ESCROW ==>
                 && Balance(s1.bank, a) == (if a in s.records && Dormant(s, a) then 0 else Balance(s.bank, a))
                 && (a in s1.accounts <==> a in s.accounts && !PrunedAccount(s, order, a)))
            && (forall a :: a in s1.accounts ==> a in s.accounts && s1.accounts[a] == s.accounts[a])
  {
    ClawbackEscrowEffect(s);
    ClawbackEffect(ClawbackEscrow(s), order);
  }

  /** The distribution account itself is clawed back, which happens only if a
      claims record was moved onto it. */
  predicate ClawsBackPool(s: Ledger) { DISTRIBUTION in s.records && Dormant(s, DISTRIBUTION) }

  /** What the distribution account then holds: its own coins, escrow, and the
      coins of the dormant accounts before it. */
  function HeldAtItsTurn(s: Ledger, order: seq<Address>): nat {
    Balance(s.bank, DISTRIBUTION) + Escrow(s) + ClawedBefore(s.(bank := s.bank[ESCROW := 0]), order)
  }

  /** The pool counts, beyond what reaches its account, exactly what that
      account holds at its own turn. So every coin counted has arrived, if and
      only if the account is not clawed back or holds nothing by then. */
  lemma PoolMatchedIffNotItself(s: Ledger, order: seq<Address>)
    requires Enumerates(order, s.records)
    ensures PoolExcess(s, EndAirdrop(s, order)) == if ClawsBackPool(s) then HeldAtItsTurn(s, order) else 0
    ensures PoolExcess(s, EndAirdrop(s, order)) == 0 <==> !ClawsBackPool(s) || HeldAtItsTurn(s, order) == 0
  {
    ClawbackEscrowEffect(s);
    ClawbackEffect(ClawbackEscrow(s), order);
    SameClawedBefore(ClawbackEscrow(s), s.(bank := s.bank[ESCROW := 0]), order);
  }

  lemma {:induction false} SameClawedBefore(s: Ledger, s1: Ledger, order: seq<Address>)
    requires s1.accounts == s.accounts && forall a :: a != DISTRIBUTION ==> Balance(s1.bank, a) == Balance(s.bank, a)
    ensures ClawedBefore(s1, order) == ClawedBefore(s, order)
  {
    if order != [] {
      var last := |order| - 1;
      SameClawedBefore(s, s1, order[..last]);
      assert order[last] in order;
    }
  }

  /** The failing family is reachable: a packet moves a record onto the
      distribution account, which is allowed to receive coins, and the end of
      the airdrop counts that account's nine coins and the three in escrow twice. */
  lemma PoolCountsItsOwnCoins(s: Ledger, p: Packet)
    requires s.params == Params(true, 0, 10, 10, ["channel-0"], []) && s.blocked == {ESCROW}
    requires s.records == map["sender" := NewClaimsRecord(4)] && s.bank == map[ESCROW := 4, DISTRIBUTION := 8]
    requires s.accounts == map[DISTRIBUTION := Account(false, 0)]
    requires p == Packet(true, "sender", DISTRIBUTION, "channel-0", Some(TRIGGER_AMOUNT))
    ensures Solvent(s) && Surplus(s) == 0
    ensures var s1 := Apply(s, RecvPacket(0, p, NO_COINS));
            && Enumerates([DISTRIBUTION], s1.records) && AirdropOver(s1.params, 21)
            && PoolExcess(s1, EndBlock(s1, 21, [DISTRIBUTION])) == 12
  {
    hide Apply, SumBy, ClawedBefore, EndAirdrop;
    OneFreshRecord(s.records);
    MovedToPool(s, p);
    var s1 := Apply(s, RecvPacket(0, p, NO_COINS));
    PoolMatchedIffNotItself(s1, [DISTRIBUTION]);
    NobodyBeforePool(s1.(bank := s1.bank[ESCROW := 0]));
  }

  lemma OneFreshRecord(records: map<Address, ClaimsRecord>)
    requires records == map["sender" := NewClaimsRecord(4)]
    ensures TotalOwed(records) == 4 && Divisible(records)
  {
    OpenActionsOfFour([false, false, false, false]);
    SumTakeOut(records, Owed, "sender");
    assert records - {"sender"} == map[];
  }

  lemma NobodyBeforePool(s: Ledger)
    ensures ClawedBefore(s, [DISTRIBUTION]) == 0
  {
    assert [DISTRIBUTION][..0] == [];
  }

  /** The state after the packet. */
  lemma MovedToPool(s: Ledger, p: Packet)
    requires s.params == Params(true, 0, 10, 10, ["channel-0"], []) && s.blocked == {ESCROW}
    requires s.records == map["sender" := NewClaimsRecord(4)] && s.bank == map[ESCROW := 4, DISTRIBUTION := 8]
    requires p == Packet(true, "sender", DISTRIBUTION, "channel-0", Some(TRIGGER_AMOUNT))
    ensures var s1 := Apply(s, RecvPacket(0, p, NO_COINS));
            && s1.params == s.params && s1.accounts == s.accounts && s1.records.Keys == {DISTRIBUTION}
            && Balance(s1.bank, DISTRIBUTION) == 9 && Escrow(s1) == 3
  {
    var r := NewClaimsRecord(4);
    assert Classify(s, 0, p) == DoMigrate;
    assert PayOut(s, DISTRIBUTION, 1, 0) == (s.(bank := Move(s.bank, ESCROW, DISTRIBUTION, 1)), true);
    assert Claim(s, 0, DISTRIBUTION, r, IBCTransfer).1 == Ok(1);
    assert Apply(s, RecvPacket(0, p, NO_COINS)) == Recv(s, 0, p).0;
  }

  // ---------------------------------------------------------------- runs with blocks

  datatype Event = Tx(step: Step) | BlockEnd(time: int, order: seq<Address>)

  /** A block end carries the order in which the store iterates over the records. */
  function Handle(s: Ledger, e: Event): Ledger
    requires s.params.Valid()
  {
    match e
    case Tx(step) => Apply(s, step)
    case BlockEnd(t, order) => if Enumerates(order, s.records) then EndBlock(s, t, order) else s
  }

  lemma HandleKeepsSolvent(s: Ledger, e: Event)
    requires Solvent(s)
    ensures Solvent(Handle(s, e)) && TotalCoins(Handle(s, e).bank) == TotalCoins(s.bank)
  {
    match e
    case Tx(step) => StepLaw(s, step);
    case BlockEnd(t, order) => if Enumerates(order, s.records) { AirdropEndEffect(s, order); }
  }

  ghost function History(s: Ledger, events: seq<Event>): Ledger
    requires Solvent(s)
    decreases |events|
  {
    if events == [] then s else HandleKeepsSolvent(s, events[0]); History(Handle(s, events[0]), events[1..])
  }

  /** Over every history, the end of the airdrop included, escrow covers the
      open quarters and coins are conserved. */
  lemma {:induction false} HistoryKeepsSolvent(s: Ledger, events: seq<Event>)
    requires Solvent(s)
    ensures Solvent(History(s, events)) && TotalCoins(History(s, events).bank) == TotalCoins(s.bank)
    decreases |events|
  {
    if events != [] {
      HandleKeepsSolvent(s, events[0]);
      HistoryKeepsSolvent(Handle(s, events[0]), events[1..]);
    }
  }

  /** The event is a transfer, by message or by packet. */
  predicate IsTransfer(e: Event) {
    e.Tx? && (e.step.BankSend? || (e.step.RecvPacket? && e.step.app.success && e.step.app.amount > 0))
  }

  /** Once claims are off, no hook, callback or block end changes the records,
      the pool, the accounts or the parameters, and only transfers move coins. */
  lemma {:induction false} NothingAfterTheEnd(s: Ledger, events: seq<Event>)
    requires Solvent(s) && !s.params.enableClaims
    ensures var s1 := History(s, events);
            && s1 == s.(bank := s1.bank)
            && ((forall i :: 0 <= i < |events| ==> !IsTransfer(events[i])) ==> s1 == s)
    decreases |events|
  {
    if events != [] {
      var s0 := Handle(s, events[0]);
      assert s0 == s.(bank := s0.bank);
      HandleKeepsSolvent(s, events[0]);
      NothingAfterTheEnd(s0, events[1..]);
    }
  }
}
