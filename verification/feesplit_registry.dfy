/** The fee split registry: a primary map, two sets of index keys scanned by
    prefix, and the proof of ownership by contract address derivation. */
module FeeSplitRegistry {
  import opened Common
  import opened Wire

  /** An EVM address has twenty bytes, an account address any number. */
  type Contract = a: seq<Byte> | |a| == 20 witness seq(20, _ => 0)
  type Account = seq<Byte>

  /** `withdrawer` is empty when fees go to the deployer. */
  datatype FeeSplit = FeeSplit(contract: Contract, deployer: Account, withdrawer: Account)

  datatype Store = Store(
    feeSplits: map<Contract, FeeSplit>,
    deployerKeys: set<seq<Byte>>,
    withdrawerKeys: set<seq<Byte>>)

  const EMPTY: Store := Store(map[], {}, {})

  /** The EVM form of account bytes: the last twenty, padded in front with zeros. */
  function ToEvm(a: seq<Byte>): (c: Contract)
    ensures |a| == 20 ==> c == a
  {
    if |a| >= 20 then a[|a| - 20..] else seq(20 - |a|, _ => 0) + a
  }

  // ---------------------------------------------------------------- address derivation

  /** The address of the contract an account creates with a nonce. */
  type Creation = (Contract, nat) -> Contract

  /** The chain of creations from a deployer through factories. */
  function Derive(create: Creation, start: Contract, nonces: seq<nat>): Contract {
    if nonces == [] then start
    else
      var last := |nonces| - 1;
      create(Derive(create, start, nonces[..last]), nonces[last])
  }

  ghost predicate CollisionFree(create: Creation) {
    forall a, m, b, n :: create(a, m) == create(b, n) ==> a == b && m == n
  }

  ghost predicate Created(create: Creation, a: Contract) {
    exists b, n :: create(b, n) == a
  }

  /** Two accounts that no contract creation yields cannot both lead to the
      same contract, nor one of them in two ways. */
  lemma {:induction false} DerivationIsUnique(create: Creation, a: Contract, ms: seq<nat>, b: Contract, ns: seq<nat>)
    requires CollisionFree(create) && !Created(create, a) && !Created(create, b)
    requires Derive(create, a, ms) == Derive(create, b, ns)
    ensures a == b && ms == ns
    decreases |ms|
  {
    if ms != [] && ns != [] {
      var i, j := |ms| - 1, |ns| - 1;
      DerivationIsUnique(create, a, ms[..i], b, ns[..j]);
      assert ms == ms[..i] + [ms[i]] && ns == ns[..j] + [ns[j]];
    }
  }

  // ---------------------------------------------------------------- messages

  /** Absent or the deployer itself means no withdrawer is stored. */
  function StoredWithdrawer(deployer: Account, withdrawer: Account): Account {
    if withdrawer == deployer then [] else withdrawer
  }

  function WithdrawerKey(f: FeeSplit): set<seq<Byte>> {
    if f.withdrawer == [] then {} else {f.withdrawer + f.contract}
  }

  function Added(s: Store, f: FeeSplit): Store {
    Store(s.feeSplits[f.contract := f],
          s.deployerKeys + {f.deployer + f.contract},
          s.withdrawerKeys + WithdrawerKey(f))
  }

  function Removed(s: Store, f: FeeSplit): Store {
    Store(s.feeSplits - {f.contract},
          s.deployerKeys - {f.deployer + f.contract},
          s.withdrawerKeys - WithdrawerKey(f))
  }

  /** `evm` says which EVM accounts exist and whether they carry code. */
  function Register(s: Store, enabled: bool, evm: map<Contract, bool>, create: Creation,
                    contract: Contract, deployer: Account, withdrawer: Account, nonces: seq<nat>): Option<Store>
  {
    var owner := ToEvm(deployer);
    if || !enabled || contract in s.feeSplits
       || owner !in evm || evm[owner]
       || contract !in evm || !evm[contract]
       || Derive(create, owner, nonces) != contract
    then None
    else Some(Added(s, FeeSplit(contract, deployer, StoredWithdrawer(deployer, withdrawer))))
  }

  function Update(s: Store, enabled: bool, contract: Contract, deployer: Account, withdrawer: Account): Option<Store> {
    if !enabled || contract !in s.feeSplits then None
    else
      var f := s.feeSplits[contract];
      var w := StoredWithdrawer(f.deployer, withdrawer);
      if deployer != f.deployer || w == f.withdrawer then None
      else
        var g := f.(withdrawer := w);
        Some(s.(feeSplits := s.feeSplits[contract := g],
                withdrawerKeys := s.withdrawerKeys - WithdrawerKey(f) + WithdrawerKey(g)))
  }

  function Cancel(s: Store, enabled: bool, contract: Contract, deployer: Account): Option<Store> {
    if !enabled || contract !in s.feeSplits || deployer != s.feeSplits[contract].deployer then None
    else Some(Removed(s, s.feeSplits[contract]))
  }

  // ---------------------------------------------------------------- the indexes

  /** The keys derivable from the primary map. */
  ghost predicate IndexesExact(s: Store) {
    && (forall c :: c in s.feeSplits ==> s.feeSplits[c].contract == c)
    && s.deployerKeys == (set c | c in s.feeSplits :: s.feeSplits[c].deployer + c)
    && s.withdrawerKeys == (set c | c in s.feeSplits && s.feeSplits[c].withdrawer != [] :: s.feeSplits[c].withdrawer + c)
  }

  /** A key determines its account and its contract, which has fixed length. */
  lemma KeyDetermines(a: Account, c: Contract, b: Account, d: Contract)
    requires a + c == b + d
    ensures a == b && c == d
  {
    assert |a| == |b|;
    assert a == (a + c)[..|a|] && b == (b + d)[..|b|];
    assert c == (a + c)[|a|..] && d == (b + d)[|b|..];
  }

  lemma AddedExact(s: Store, f: FeeSplit)
    requires IndexesExact(s) && f.contract !in s.feeSplits
    ensures IndexesExact(Added(s, f))
  {
    var s1 := Added(s, f);
    assert f.contract in s1.feeSplits && s1.feeSplits[f.contract] == f;
    forall k | k in s1.deployerKeys ensures exists c :: c in s1.feeSplits && k == s1.feeSplits[c].deployer + c {
      if k in s.deployerKeys {
        var c :| c in s.feeSplits && k == s.feeSplits[c].deployer + c;
        assert s1.feeSplits[c] == s.feeSplits[c];
      }
    }
    forall k | k in s1.withdrawerKeys
      ensures exists c :: c in s1.feeSplits && s1.feeSplits[c].withdrawer != [] && k == s1.feeSplits[c].withdrawer + c
    {
      if k in s.withdrawerKeys {
        var c :| c in s.feeSplits && s.feeSplits[c].withdrawer != [] && k == s.feeSplits[c].withdrawer + c;
        assert s1.feeSplits[c] == s.feeSplits[c];
      } else {
        assert f.withdrawer != [] && k == f.withdrawer + f.contract;
      }
    }
  }

  lemma RemovedExact(s: Store, c0: Contract)
    requires IndexesExact(s) && c0 in s.feeSplits
    ensures IndexesExact(Removed(s, s.feeSplits[c0]))
  {
    var f := s.feeSplits[c0];
    var s1 := Removed(s, f);
    forall c | c in s1.feeSplits
      ensures s.feeSplits[c].deployer + c != f.deployer + c0
      ensures s.feeSplits[c].withdrawer + c != f.withdrawer + c0
    {
      if s.feeSplits[c].deployer + c == f.deployer + c0 {
        KeyDetermines(s.feeSplits[c].deployer, c, f.deployer, c0);
        assert false;
      }
      if s.feeSplits[c].withdrawer + c == f.withdrawer + c0 {
        KeyDetermines(s.feeSplits[c].withdrawer, c, f.withdrawer, c0);
        assert false;
      }
    }
    assert s1.deployerKeys == (set c | c in s1.feeSplits :: s1.feeSplits[c].deployer + c);
    assert s1.withdrawerKeys
        == (set c | c in s1.feeSplits && s1.feeSplits[c].withdrawer != [] :: s1.feeSplits[c].withdrawer + c);
  }

  /** Updating is removing and adding back with the new withdrawer. */
  lemma UpdateIsReplace(s: Store, enabled: bool, contract: Contract, deployer: Account, withdrawer: Account)
    requires IndexesExact(s) && Update(s, enabled, contract, deployer, withdrawer).Some?
    ensures var f := s.feeSplits[contract];
            Update(s, enabled, contract, deployer, withdrawer).value
            == Added(Removed(s, f), f.(withdrawer := StoredWithdrawer(f.deployer, withdrawer)))
  {
  }

  // ---------------------------------------------------------------- prefix scans

  /** What a scan of a key set below a prefix collects. */
  ghost function Scan(keys: set<seq<Byte>>, prefix: Account): set<Contract> {
    set k | k in keys && prefix <= k :: ToEvm(k[|prefix|..])
  }

  /** A full scan of the primary map. */
  ghost function SelectByDeployer(s: Store, deployer: Account): set<Contract> {
    set c | c in s.feeSplits && s.feeSplits[c].deployer == deployer
  }

  ghost function SelectByWithdrawer(s: Store, withdrawer: Account): set<Contract> {
    set c | c in s.feeSplits && s.feeSplits[c].withdrawer == withdrawer
  }

  lemma KeyUnderOwnPrefix(a: Account, c: Contract)
    ensures a <= a + c && ToEvm((a + c)[|a|..]) == c
  {
  }

  /** A key whose account strictly extends the prefix yields its contract too. */
  lemma KeyUnderShorterPrefix(prefix: Account, a: Account, c: Contract)
    requires |prefix| <= |a| && prefix <= a + c
    ensures prefix <= a && ToEvm((a + c)[|prefix|..]) == c
  {
  }

  /** Who a stored contract is indexed under, for either index. */
  function Deployers(s: Store): map<Contract, Account> { map c | c in s.feeSplits :: s.feeSplits[c].deployer }

  function Withdrawers(s: Store): map<Contract, Account> {
    map c | c in s.feeSplits && s.feeSplits[c].withdrawer != [] :: s.feeSplits[c].withdrawer
  }

  ghost function KeysOf(index: map<Contract, Account>): set<seq<Byte>> { set c | c in index :: index[c] + c }

  ghost function Select(index: map<Contract, Account>, a: Account): set<Contract> { set c | c in index && index[c] == a }

  lemma IndexKeys(s: Store)
    requires IndexesExact(s)
    ensures KeysOf(Deployers(s)) == s.deployerKeys && KeysOf(Withdrawers(s)) == s.withdrawerKeys
    ensures forall a :: Select(Deployers(s), a) == SelectByDeployer(s, a)
    ensures forall a :: a != [] ==> Select(Withdrawers(s), a) == SelectByWithdrawer(s, a)
  {
    DeployerIndexKeys(s);
    WithdrawerIndexKeys(s);
  }

  lemma DeployerIndexKeys(s: Store)
    requires IndexesExact(s)
    ensures KeysOf(Deployers(s)) == s.deployerKeys
  {
    var index := Deployers(s);
    forall k | k in s.deployerKeys ensures k in KeysOf(index) {
      var c :| c in s.feeSplits && k == s.feeSplits[c].deployer + c;
      assert index[c] + c == k;
    }
    forall k | k in KeysOf(index) ensures k in s.deployerKeys {
      var c :| c in index && k == index[c] + c;
      assert s.feeSplits[c].deployer + c == k;
    }
  }

  lemma WithdrawerIndexKeys(s: Store)
    requires IndexesExact(s)
    ensures KeysOf(Withdrawers(s)) == s.withdrawerKeys
  {
    var index := Withdrawers(s);
    forall k | k in s.withdrawerKeys ensures k in KeysOf(index) {
      var c :| c in s.feeSplits && s.feeSplits[c].withdrawer != [] && k == s.feeSplits[c].withdrawer + c;
      assert index[c] + c == k;
    }
    forall k | k in KeysOf(index) ensures k in s.withdrawerKeys {
      var c :| c in index && k == index[c] + c;
      assert s.feeSplits[c].withdrawer + c == k;
    }
  }

  /** The account of `c` strictly extends the prefix; or it is strictly shorter,
      the rest of the prefix is how `c` begins, and the rest of `c`, filled up
      with zeros in front, is not one of the prefix's own contracts. */
  predicate Pollutes(index: map<Contract, Account>, prefix: Account, c: Contract) {
    c in index
    && var d := index[c];
       if |d| >= |prefix| then prefix < d
       else && d <= prefix && prefix[|d|..] <= c
            && var n := |prefix| - |d|;
               var x: Contract := seq(n, _ => 0) + c[n..];
               !(x in index && index[x] == prefix)
  }

  /** In terms of the scan: the key lies below the prefix, and what is read off
      behind the prefix is not a contract indexed under it. */
  lemma PollutesIsReadOff(index: map<Contract, Account>, prefix: Account, c: Contract)
    requires c in index
    ensures Pollutes(index, prefix, c) <==>
              && prefix <= index[c] + c
              && var x := ToEvm((index[c] + c)[|prefix|..]);
                 !(x in index && index[x] == prefix)
  {
    var d := index[c];
    if |d| >= |prefix| {
      if prefix <= d + c {
        KeyUnderShorterPrefix(prefix, d, c);
      } else {
        assert !(prefix <= d);
      }
    } else {
      ShorterUnderPrefix(prefix, d, c);
    }
  }

  /** A key whose account is shorter than the prefix. */
  lemma ShorterUnderPrefix(prefix: Account, d: Account, c: Contract)
    requires |d| < |prefix|
    ensures prefix <= d + c <==> d <= prefix && prefix[|d|..] <= c
    ensures prefix <= d + c ==> var n := |prefix| - |d|; ToEvm((d + c)[|prefix|..]) == seq(n, _ => 0) + c[n..]
  {
    if prefix <= d + c {
      assert d == (d + c)[..|d|] == prefix[..|d|];
      assert prefix[|d|..] == (d + c)[..|prefix|][|d|..] == c[..|prefix| - |d|];
      assert (d + c)[|prefix|..] == c[|prefix| - |d|..];
    }
  }

  /** A scan returns exactly the account's contracts if and only if no stored
      key pollutes it, whatever the lengths of the stored accounts. */
  lemma ScanExactIff(index: map<Contract, Account>, a: Account)
    ensures Select(index, a) <= Scan(KeysOf(index), a)
    ensures Scan(KeysOf(index), a) == Select(index, a) <==> forall c :: !Pollutes(index, a, c)
  {
    forall c | c in index && a <= index[c] + c ensures ToEvm((index[c] + c)[|a|..]) in Scan(KeysOf(index), a) {
      assert index[c] + c in KeysOf(index);
    }
    forall c | c in Select(index, a) ensures c in Scan(KeysOf(index), a) {
      KeyUnderOwnPrefix(a, c);
    }
    forall x | x in Scan(KeysOf(index), a) ensures (forall c :: !Pollutes(index, a, c)) ==> x in Select(index, a) {
      var k :| k in KeysOf(index) && a <= k && x == ToEvm(k[|a|..]);
      var c :| c in index && k == index[c] + c;
      PollutesIsReadOff(index, a, c);
      assert !Pollutes(index, a, c) ==> x in Select(index, a);
    }
    if c :| Pollutes(index, a, c) {
      PollutesIsReadOff(index, a, c);
      assert ToEvm((index[c] + c)[|a|..]) !in Select(index, a);
    }
  }

  /** The query by deployer is exact if and only if no stored key pollutes it;
      when no stored deployer is shorter than the one asked for, that is, if
      and only if none strictly extends it. */
  lemma DeployerScanExact(s: Store, deployer: Account)
    requires IndexesExact(s)
    ensures Scan(s.deployerKeys, deployer) == SelectByDeployer(s, deployer)
            <==> forall c :: !Pollutes(Deployers(s), deployer, c)
    ensures (forall c :: c in s.feeSplits ==> |s.feeSplits[c].deployer| >= |deployer|) ==>
              (Scan(s.deployerKeys, deployer) == SelectByDeployer(s, deployer)
               <==> forall c :: c in s.feeSplits ==> !(deployer < s.feeSplits[c].deployer))
  {
    IndexKeys(s);
    ScanExactIff(Deployers(s), deployer);
    if forall c :: c in s.feeSplits ==> |s.feeSplits[c].deployer| >= |deployer| {
      forall c | c in s.feeSplits
        ensures Pollutes(Deployers(s), deployer, c) <==> deployer < s.feeSplits[c].deployer
      {}
    }
  }

  /** The same for the query by withdrawer. */
  lemma WithdrawerScanExact(s: Store, withdrawer: Account)
    requires IndexesExact(s) && withdrawer != []
    ensures Scan(s.withdrawerKeys, withdrawer) == SelectByWithdrawer(s, withdrawer)
            <==> forall c :: !Pollutes(Withdrawers(s), withdrawer, c)
    ensures (forall c :: c in Withdrawers(s) ==> |s.feeSplits[c].withdrawer| >= |withdrawer|) ==>
              (Scan(s.withdrawerKeys, withdrawer) == SelectByWithdrawer(s, withdrawer)
               <==> forall c :: c in Withdrawers(s) ==> !(withdrawer < s.feeSplits[c].withdrawer))
  {
    IndexKeys(s);
    ScanExactIff(Withdrawers(s), withdrawer);
    if forall c :: c in Withdrawers(s) ==> |s.feeSplits[c].withdrawer| >= |withdrawer| {
      forall c | c in Withdrawers(s)
        ensures Pollutes(Withdrawers(s), withdrawer, c) <==> withdrawer < s.feeSplits[c].withdrawer
      {}
    }
  }

  /** With twenty-byte accounts both scans are exact. */
  lemma ScansExactForTwentyBytes(s: Store, a: Account)
    requires IndexesExact(s) && |a| == 20
    requires forall c :: c in s.feeSplits ==>
      |s.feeSplits[c].deployer| == 20 && (s.feeSplits[c].withdrawer == [] || |s.feeSplits[c].withdrawer| == 20)
    ensures Scan(s.deployerKeys, a) == SelectByDeployer(s, a)
    ensures Scan(s.withdrawerKeys, a) == SelectByWithdrawer(s, a)
  {
    DeployerScanExact(s, a);
    WithdrawerScanExact(s, a);
  }

  /** The withdrawer of a registration is free: one that strictly extends an
      account puts the contract among the results for that account. */
  lemma LongerWithdrawerShowsUp(s: Store, enabled: bool, evm: map<Contract, bool>, create: Creation,
                                contract: Contract, deployer: Account, w: Account, nonces: seq<nat>, extra: Account)
    requires IndexesExact(s) && w != [] && extra != [] && w + extra != deployer
    requires Register(s, enabled, evm, create, contract, deployer, w + extra, nonces).Some?
    ensures var s1 := Register(s, enabled, evm, create, contract, deployer, w + extra, nonces).value;
            contract in Scan(s1.withdrawerKeys, w) && contract !in SelectByWithdrawer(s1, w)
  {
    var s1 := Register(s, enabled, evm, create, contract, deployer, w + extra, nonces).value;
    var key := w + extra + contract;
    assert key in s1.withdrawerKeys;
    assert w <= w + extra <= key;
    KeyUnderShorterPrefix(w, w + extra, contract);
    assert w + extra != w;
  }

  // ---------------------------------------------------------------- ownership

  /** The stored deployer is outside the image of contract creation and leads
      to the contract by some chain of nonces. */
  ghost predicate Owns(create: Creation, deployer: Account, c: Contract) {
    !Created(create, ToEvm(deployer)) && exists nonces :: Derive(create, ToEvm(deployer), nonces) == c
  }

  ghost predicate OwnersGenuine(create: Creation, s: Store) {
    forall c :: c in s.feeSplits ==> Owns(create, s.feeSplits[c].deployer, c)
  }

  lemma OwnerIsUnique(create: Creation, a: Account, b: Account, c: Contract)
    requires CollisionFree(create) && Owns(create, a, c) && Owns(create, b, c)
    ensures ToEvm(a) == ToEvm(b)
    ensures |a| == 20 && |b| == 20 ==> a == b
  {
    var ms :| Derive(create, ToEvm(a), ms) == c;
    var ns :| Derive(create, ToEvm(b), ns) == c;
    DerivationIsUnique(create, ToEvm(a), ms, ToEvm(b), ns);
  }

  // ---------------------------------------------------------------- runs

  datatype Msg =
    | RegisterMsg(evm: map<Contract, bool>, contract: Contract, deployer: Account, withdrawer: Account, nonces: seq<nat>)
    | UpdateMsg(contract: Contract, deployer: Account, withdrawer: Account)
    | CancelMsg(contract: Contract, deployer: Account)

  function Handle(s: Store, enabled: bool, create: Creation, msg: Msg): Option<Store> {
    match msg
    case RegisterMsg(evm, c, d, w, nonces) => Register(s, enabled, evm, create, c, d, w, nonces)
    case UpdateMsg(c, d, w) => Update(s, enabled, c, d, w)
    case CancelMsg(c, d) => Cancel(s, enabled, c, d)
  }

  function Deliver(s: Store, enabled: bool, create: Creation, msg: Msg): Store {
    var r := Handle(s, enabled, create, msg);
    if r.Some? then r.value else s
  }

  /** Accounts without code are externally owned: no creation yields them. */
  ghost predicate EvmHonest(create: Creation, msg: Msg) {
    msg.RegisterMsg? ==> forall a :: a in msg.evm && !msg.evm[a] ==> !Created(create, a)
  }

  lemma DeliverLaw(s: Store, enabled: bool, create: Creation, msg: Msg)
    requires IndexesExact(s)
    ensures IndexesExact(Deliver(s, enabled, create, msg))
    ensures EvmHonest(create, msg) && OwnersGenuine(create, s) ==> OwnersGenuine(create, Deliver(s, enabled, create, msg))
  {
    if Handle(s, enabled, create, msg).Some? {
      match msg
      case RegisterMsg(evm, c, d, w, nonces) =>
        AddedExact(s, FeeSplit(c, d, StoredWithdrawer(d, w)));
        assert Derive(create, ToEvm(d), nonces) == c;
      case UpdateMsg(c, d, w) =>
        UpdateIsReplace(s, enabled, c, d, w);
        RemovedExact(s, c);
        AddedExact(Removed(s, s.feeSplits[c]), s.feeSplits[c].(withdrawer := StoredWithdrawer(s.feeSplits[c].deployer, w)));
      case CancelMsg(c, d) =>
        RemovedExact(s, c);
    }
  }

  /** What each message does to the fee splits, and when. A registration needs
      a contract that is not registered, has code and is derived from a
      deployer that exists and has none; an update needs the stored deployer
      and another withdrawer than the stored one; a cancellation the stored
      deployer. A withdrawer that is the deployer is stored as none. */
  lemma DeliverEffect(s: Store, enabled: bool, create: Creation, msg: Msg)
    requires IndexesExact(s)
    ensures var s1 := Deliver(s, enabled, create, msg);
            var c := msg.contract;
            match msg
            case RegisterMsg(evm, _, d, w, nonces) =>
              if && enabled && c !in s.feeSplits && ToEvm(d) in evm && !evm[ToEvm(d)] && c in evm && evm[c]
                 && Derive(create, ToEvm(d), nonces) == c
              then Handle(s, enabled, create, msg).Some? && s1.feeSplits == s.feeSplits[c := FeeSplit(c, d, if w == d then [] else w)]
              else Handle(s, enabled, create, msg).None? && s1 == s
            case UpdateMsg(_, d, w) =>
              if && enabled && c in s.feeSplits && d == s.feeSplits[c].deployer
                 && (if w == d then [] else w) != s.feeSplits[c].withdrawer
              then Handle(s, enabled, create, msg).Some? && s1.feeSplits == s.feeSplits[c := FeeSplit(c, d, if w == d then [] else w)]
              else Handle(s, enabled, create, msg).None? && s1 == s
            case CancelMsg(_, d) =>
              if enabled && c in s.feeSplits && d == s.feeSplits[c].deployer
              then Handle(s, enabled, create, msg).Some? && s1.feeSplits == s.feeSplits - {c}
              else Handle(s, enabled, create, msg).None? && s1 == s
  {
  }

  /** The message is an update or a cancellation of `c` by its stored deployer. */
  predicate ByDeployer(s: Store, msg: Msg, c: Contract) {
    c in s.feeSplits && !msg.RegisterMsg? && msg.contract == c && msg.deployer == s.feeSplits[c].deployer
  }

  /** Nobody but its deployer changes or removes a registered fee split. */
  lemma OnlyDeployerChanges(s: Store, enabled: bool, create: Creation, msg: Msg, c: Contract)
    requires IndexesExact(s) && c in s.feeSplits && !ByDeployer(s, msg, c)
    ensures var s1 := Deliver(s, enabled, create, msg);
            c in s1.feeSplits && s1.feeSplits[c] == s.feeSplits[c]
  {
    DeliverEffect(s, enabled, create, msg);
  }

  function Run(s: Store, create: Creation, msgs: seq<(bool, Msg)>): Store {
    if msgs == [] then s
    else
      var last := |msgs| - 1;
      Deliver(Run(s, create, msgs[..last]), msgs[last].0, create, msgs[last].1)
  }

  /** In every reachable state the key sets are exactly those derivable from
      the primary map, and every stored deployer owns its contract. */
  lemma {:induction false} RunLaw(s: Store, create: Creation, msgs: seq<(bool, Msg)>)
    requires IndexesExact(s)
    ensures IndexesExact(Run(s, create, msgs))
    ensures OwnersGenuine(create, s) && (forall i :: 0 <= i < |msgs| ==> EvmHonest(create, msgs[i].1))
            ==> OwnersGenuine(create, Run(s, create, msgs))
  {
    if msgs != [] {
      var last := |msgs| - 1;
      RunLaw(s, create, msgs[..last]);
      DeliverLaw(Run(s, create, msgs[..last]), msgs[last].0, create, msgs[last].1);
    }
  }

  /** Over every run in which its deployer sends no update or cancellation of
      it, a fee split stays as it is. */
  lemma {:induction false} OnlyDeployerChangesOverRun(s: Store, create: Creation, msgs: seq<(bool, Msg)>, c: Contract)
    requires IndexesExact(s) && c in s.feeSplits
    requires forall i :: 0 <= i < |msgs| ==> !ByDeployer(s, msgs[i].1, c)
    ensures var s1 := Run(s, create, msgs);
            c in s1.feeSplits && s1.feeSplits[c] == s.feeSplits[c]
  {
    if msgs != [] {
      var last := |msgs| - 1;
      OnlyDeployerChangesOverRun(s, create, msgs[..last], c);
      RunLaw(s, create, msgs[..last]);
      OnlyDeployerChanges(Run(s, create, msgs[..last]), msgs[last].0, create, msgs[last].1, c);
    }
  }

  /** Across registering, updating, cancelling and registering again, a
      contract's stored deployer never differs. */
  lemma DeployerNeverChanges(s: Store, create: Creation, msgs: seq<(bool, Msg)>, more: seq<(bool, Msg)>, c: Contract)
    requires IndexesExact(s) && OwnersGenuine(create, s) && CollisionFree(create)
    requires forall i :: 0 <= i < |msgs| ==> EvmHonest(create, msgs[i].1)
    requires forall i :: 0 <= i < |more| ==> EvmHonest(create, more[i].1)
    requires c in Run(s, create, msgs).feeSplits
    requires c in Run(Run(s, create, msgs), create, more).feeSplits
    ensures var before, after := Run(s, create, msgs), Run(Run(s, create, msgs), create, more);
            && ToEvm(before.feeSplits[c].deployer) == ToEvm(after.feeSplits[c].deployer)
            && (|before.feeSplits[c].deployer| == 20 && |after.feeSplits[c].deployer| == 20
                ==> before.feeSplits[c].deployer == after.feeSplits[c].deployer)
  {
    RunLaw(s, create, msgs);
    RunLaw(Run(s, create, msgs), create, more);
    OwnerIsUnique(create, Run(s, create, msgs).feeSplits[c].deployer,
                  Run(Run(s, create, msgs), create, more).feeSplits[c].deployer, c);
  }

  /** Registration reads only the last twenty bytes of an account. So longer
      accounts that agree on them pass for the same contract, and take it over
      from each other once a registration is cancelled: the stored deployer is
      constant only up to those bytes. */
  lemma RegistrationSeesTwentyBytes(s: Store, enabled: bool, evm: map<Contract, bool>, create: Creation,
                                    c: Contract, a: Account, b: Account, w: Account, nonces: seq<nat>)
    requires ToEvm(a) == ToEvm(b)
    ensures Register(s, enabled, evm, create, c, a, w, nonces).Some? <==> Register(s, enabled, evm, create, c, b, w, nonces).Some?
    ensures Register(s, enabled, evm, create, c, a, w, nonces).Some? ==>
            var first := [(true, RegisterMsg(evm, c, a, w, nonces))];
            var more := [(true, CancelMsg(c, a)), (true, RegisterMsg(evm, c, b, w, nonces))];
            var before, after := Run(s, create, first), Run(Run(s, create, first), create, more);
            && c in before.feeSplits && before.feeSplits[c].deployer == a
            && c in after.feeSplits && after.feeSplits[c].deployer == b
    ensures |a| == 20 ==> ToEvm([0] + a) == ToEvm(a) && [0] + a != a
  {
    if Register(s, enabled, evm, create, c, a, w, nonces).Some? {
      var first := [(true, RegisterMsg(evm, c, a, w, nonces))];
      var more := [(true, CancelMsg(c, a)), (true, RegisterMsg(evm, c, b, w, nonces))];
      assert first[..0] == [];
      var s1 := Register(s, true, evm, create, c, a, w, nonces).value;
      assert Run(s, create, first) == s1;
      assert more[..1][..0] == [] && more[..1][0] == more[0];
      var s2 := Cancel(s1, true, c, a).value;
      assert Run(s1, create, more[..1]) == s2;
      assert Register(s2, true, evm, create, c, b, w, nonces).Some?;
    }
  }
}
