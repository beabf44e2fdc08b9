/** The registry of token pairs: one store and two indexes. */
module Erc20Registry {
  import opened Common
  import opened Erc20Assets

  type Denom = string
  type Contract = Address

  datatype Owner = OwnerUnspecified | OwnerModule | OwnerExternal

  /** The store key: a collision-free digest of the contract and the denomination. */
  datatype PairId = PairId(erc20: Contract, denom: Denom)

  datatype TokenPair = TokenPair(erc20: Contract, denom: Denom, enabled: bool, owner: Owner)
  {
    function Id(): PairId { PairId(erc20, denom) }
  }

  datatype Registry = Registry(
    pairs: map<PairId, TokenPair>,
    byErc20: map<Contract, PairId>,
    byDenom: map<Denom, PairId>)

  const EMPTY_REGISTRY: Registry := Registry(map[], map[], map[])

  // ---------------------------------------------------------------- operations

  /** Writes a pair and both index entries. */
  function Registered(r: Registry, p: TokenPair): Registry {
    Registry(r.pairs[p.Id() := p], r.byErc20[p.erc20 := p.Id()], r.byDenom[p.denom := p.Id()])
  }

  /** Removes a pair and both index entries. */
  function Deleted(r: Registry, p: TokenPair): Registry {
    Registry(r.pairs - {p.Id()}, r.byErc20 - {p.erc20}, r.byDenom - {p.denom})
  }

  function Toggled(r: Registry, id: PairId): Registry
    requires id in r.pairs
  {
    var p := r.pairs[id];
    r.(pairs := r.pairs[p.Id() := p.(enabled := !p.enabled)])
  }

  /** Either of the two names a pair is known by. */
  datatype TokenKey = ByContract(contract: Contract) | ByDenom(denom: Denom)

  // Names: what the source takes for an address is looked up as a contract.

  predicate IsHexDigit(c: char) { '0' <= c <= '9' || 'a' <= c <= 'f' || 'A' <= c <= 'F' }

  function LowerDigit(c: char): char { if 'A' <= c <= 'F' then (c as int - 'A' as int + 'a' as int) as char else c }

  /** The digits of a name, without the prefix an address may have. */
  function Digits(name: string): string {
    if |name| >= 2 && name[0] == '0' && (name[1] == 'x' || name[1] == 'X') then name[2..] else name
  }

  /** The contract that a name of forty hexadecimal digits stands for. */
  function ReadsAs(name: string): Option<Contract> {
    var d := Digits(name);
    if |d| == 40 && forall i :: 0 <= i < |d| ==> IsHexDigit(d[i])
    then Some("0x" + seq(|d|, i requires 0 <= i < |d| => LowerDigit(d[i]))) else None
  }

  function Resolve(name: string): TokenKey {
    var c := ReadsAs(name);
    if c.Some? then ByContract(c.value) else ByDenom(name)
  }

  function Lookup(r: Registry, key: TokenKey): Option<TokenPair> {
    var id := match key
      case ByContract(c) => if c in r.byErc20 then Some(r.byErc20[c]) else None
      case ByDenom(d) => if d in r.byDenom then Some(r.byDenom[d]) else None;
    if id.None? || id.value !in r.pairs then None else Some(r.pairs[id.value])
  }

  // ---------------------------------------------------------------- invariants

  /** The contract index and the store are inverse to each other. */
  predicate ContractBijection(r: Registry) {
    && (forall c :: c in r.byErc20 ==> r.byErc20[c] in r.pairs && r.pairs[r.byErc20[c]].erc20 == c)
    && (forall id :: id in r.pairs ==>
         r.pairs[id].Id() == id && r.pairs[id].erc20 in r.byErc20 && r.byErc20[r.pairs[id].erc20] == id)
  }

  /** No denomination entry dangles. */
  predicate DenomsResolve(r: Registry) {
    forall d :: d in r.byDenom ==> r.byDenom[d] in r.pairs && r.pairs[r.byDenom[d]].denom == d
  }

  /** Every stored pair is found by its denomination. */
  predicate DenomsComplete(r: Registry) {
    forall id :: id in r.pairs ==> r.pairs[id].denom in r.byDenom && r.byDenom[r.pairs[id].denom] == id
  }

  predicate Sound(r: Registry) { ContractBijection(r) && DenomsResolve(r) }

  /** The pair is the one its denomination leads to. */
  predicate Named(r: Registry, id: PairId) {
    id in r.pairs && r.pairs[id].denom in r.byDenom && r.byDenom[r.pairs[id].denom] == id
  }

  /** The lookups of a sound registry return the pair that bears the name. */
  lemma LookupFindsNamedPair(r: Registry, key: TokenKey)
    requires Sound(r)
    ensures match Lookup(r, key)
            case None => (key.ByContract? ==> key.contract !in r.byErc20) && (key.ByDenom? ==> key.denom !in r.byDenom)
            case Some(p) => && p.Id() in r.pairs && r.pairs[p.Id()] == p
                            && (key.ByContract? ==> p.erc20 == key.contract)
                            && (key.ByDenom? ==> p.denom == key.denom)
  {
  }

  const HEX_DIGITS: string := "0123456789abcdefABCDEF"

  /** A name reads as a contract if and only if it is forty hexadecimal digits,
      alone or after "0x" or "0X"; case does not matter. */
  lemma ReadsAsIff(name: string)
    ensures ReadsAs(name).Some? <==> exists digits :: ReadsDigits(name, digits)
    ensures forall digits :: ReadsDigits(name, digits) ==>
              ReadsAs(name).Some? && |ReadsAs(name).value| == 42 && ReadsAs(name).value[..2] == "0x"
              && forall i :: 0 <= i < 40 ==> SameDigit(digits[i], ReadsAs(name).value[i + 2])
  {
    hide ReadsDigits, Digits, IsHexDigit, LowerDigit, SameDigit;
    if ReadsAs(name).Some? {
      DigitsRead(name);
    }
    forall digits | ReadsDigits(name, digits)
      ensures |digits| == 40 && ReadsAs(name).Some? && |ReadsAs(name).value| == 42 && ReadsAs(name).value[..2] == "0x"
      ensures forall i :: 0 <= i < 40 ==> SameDigit(digits[i], ReadsAs(name).value[i + 2])
    {
      ReadDigits(name, digits);
      forall i | 0 <= i < 40 ensures SameDigit(digits[i], LowerDigit(digits[i])) { LowerDigitIsSame(digits[i]); }
    }
  }

  lemma DigitsRead(name: string)
    requires |Digits(name)| == 40 && forall i :: 0 <= i < 40 ==> IsHexDigit(Digits(name)[i])
    ensures ReadsDigits(name, Digits(name))
  {
    hide IsHexDigit;
    forall i | 0 <= i < 40 ensures Digits(name)[i] in HEX_DIGITS { HexDigitIff(Digits(name)[i]); }
    if Digits(name) != name {
      assert name[..2] == "0x" || name[..2] == "0X";
      assert name == name[..2] + name[2..];
    }
  }

  lemma ReadDigits(name: string, digits: string)
    requires ReadsDigits(name, digits)
    ensures Digits(name) == digits && |digits| == 40 && forall i :: 0 <= i < 40 ==> IsHexDigit(digits[i])
  {
    hide IsHexDigit;
    forall i | 0 <= i < 40 ensures IsHexDigit(digits[i]) { HexDigitIff(digits[i]); }
    if name == digits {
      HexDigitIff(name[1]);
      assert !IsHexDigit('x') && !IsHexDigit('X') by { HexDigitIff('x'); HexDigitIff('X'); }
    }
  }

  ghost predicate ReadsDigits(name: string, digits: string) {
    && (name == digits || name == "0x" + digits || name == "0X" + digits)
    && |digits| == 40 && forall i :: 0 <= i < 40 ==> digits[i] in HEX_DIGITS
  }

  /** The second is the digit itself, or the lower-case letter of a capital. */
  predicate SameDigit(c: char, d: char) {
    d == match c
         case 'A' => 'a' case 'B' => 'b' case 'C' => 'c' case 'D' => 'd' case 'E' => 'e' case 'F' => 'f'
         case _ => c
  }

  lemma HexDigitIff(c: char)
    ensures IsHexDigit(c) <==> c in HEX_DIGITS
  {
    assert HEX_DIGITS[10..16] == "abcdef" && HEX_DIGITS[16..] == "ABCDEF" && HEX_DIGITS[..10] == "0123456789";
    if '0' <= c <= '9' {
      assert HEX_DIGITS[c as int - '0' as int] == c;
    } else if 'a' <= c <= 'f' {
      assert HEX_DIGITS[10 + c as int - 'a' as int] == c;
    } else if 'A' <= c <= 'F' {
      assert HEX_DIGITS[16 + c as int - 'A' as int] == c;
    }
  }

  lemma LowerDigitIsSame(c: char)
    ensures SameDigit(c, LowerDigit(c))
  {
  }

  /** By a name as users write it, a pair is found under its own denomination
      if and only if that does not read as another contract and leads to it. */
  lemma FoundUnderOwnName(r: Registry, p: TokenPair)
    requires Sound(r) && p.Id() in r.pairs && r.pairs[p.Id()] == p
    ensures Lookup(r, Resolve(p.denom)) == Some(p)
            <==> ReadsAs(p.denom) == Some(p.erc20) || (ReadsAs(p.denom).None? && Named(r, p.Id()))
  {
    LookupFindsNamedPair(r, Resolve(p.denom));
  }

  // ---------------------------------------------------------------- every operation

  /** Registering a pair whose contract is new keeps the contract index a
      bijection and every denomination entry resolved; it keeps the
      denomination index complete if and only if the denomination is new. */
  lemma RegisterLaw(r: Registry, p: TokenPair)
    requires Sound(r) && p.erc20 !in r.byErc20
    ensures Sound(Registered(r, p))
    ensures DenomsComplete(r) ==> (DenomsComplete(Registered(r, p)) <==> p.denom !in r.byDenom)
  {
    assert p.Id() !in r.pairs;
    if DenomsComplete(r) && p.denom in r.byDenom {
      var earlier := r.byDenom[p.denom];
      assert earlier in Registered(r, p).pairs && Registered(r, p).pairs[earlier].denom == p.denom;
    }
  }

  lemma DeleteLaw(r: Registry, p: TokenPair)
    requires Sound(r) && p.Id() in r.pairs && r.pairs[p.Id()] == p
    ensures Sound(Deleted(r, p))
    ensures DenomsComplete(r) ==> DenomsComplete(Deleted(r, p))
  {
  }

  predicate SameButEnabled(p: TokenPair, q: TokenPair) { q == p.(enabled := q.enabled) }

  lemma ToggleLaw(r: Registry, id: PairId)
    requires Sound(r) && id in r.pairs
    ensures Sound(Toggled(r, id))
    ensures DenomsComplete(r) ==> DenomsComplete(Toggled(r, id))
    ensures Toggled(r, id).pairs.Keys == r.pairs.Keys
    ensures forall i :: i in r.pairs ==> SameButEnabled(r.pairs[i], Toggled(r, id).pairs[i])
    ensures Toggled(Toggled(r, id), id) == r
  {
    assert r.pairs[id].Id() == id;
  }

  /** A registration gives the pair its two names and takes no other name away. */
  lemma RegisteredNames(r: Registry, p: TokenPair)
    requires Sound(r) && p.erc20 !in r.byErc20
    ensures forall key :: Lookup(Registered(r, p), key)
                          == if key == ByContract(p.erc20) || key == ByDenom(p.denom) then Some(p) else Lookup(r, key)
  {
    assert p.Id() !in r.pairs;
  }

  /** A deletion takes away the contract's name and the denomination's, even if
      the latter led to another pair, and no other name. */
  lemma DeletedNames(r: Registry, p: TokenPair)
    requires Sound(r) && p.Id() in r.pairs && r.pairs[p.Id()] == p
    ensures forall key :: Lookup(Deleted(r, p), key)
                          == if key == ByContract(p.erc20) || key == ByDenom(p.denom) then None else Lookup(r, key)
    ensures Deleted(r, p).pairs.Keys == r.pairs.Keys - {p.Id()}
  {
  }

  /** Toggling is seen under every name of the pair and under no other. */
  lemma ToggledNames(r: Registry, key: TokenKey)
    requires Sound(r) && Lookup(r, key).Some?
    ensures var p := Lookup(r, key).value;
            && p.Id() in r.pairs
            && forall k :: Lookup(Toggled(r, p.Id()), k)
                           == if Lookup(r, k) == Some(p) then Some(p.(enabled := !p.enabled)) else Lookup(r, k)
  {
    LookupFindsNamedPair(r, key);
  }

  // ---------------------------------------------------------------- runs

  datatype RegistryStep = Register(pair: TokenPair) | Toggle(key: TokenKey) | Delete(key: TokenKey)

  function ApplyRegistry(r: Registry, step: RegistryStep): Registry {
    match step
    case Register(p) => if p.erc20 in r.byErc20 then r else Registered(r, p)
    case Toggle(key) =>
      var p := Lookup(r, key);
      if p.Some? && p.value.Id() in r.pairs then Toggled(r, p.value.Id()) else r
    case Delete(key) =>
      var p := Lookup(r, key);
      if p.Some? then Deleted(r, p.value) else r
  }

  function RunRegistry(r: Registry, steps: seq<RegistryStep>): Registry {
    if steps == [] then r
    else
      var last := |steps| - 1;
      ApplyRegistry(RunRegistry(r, steps[..last]), steps[last])
  }

  /** The pair a step writes or removes, if it does either. */
  function Rewrites(r: Registry, step: RegistryStep): Option<TokenPair> {
    match step
    case Register(p) => if p.erc20 in r.byErc20 then None else Some(p)
    case Toggle(_) => None
    case Delete(key) => Lookup(r, key)
  }

  /** Whether, since the pair was last written, another pair of its
      denomination was registered or deleted. */
  predicate Displaced(r: Registry, steps: seq<RegistryStep>, id: PairId) {
    if steps == [] then !Named(r, id)
    else
      var last := |steps| - 1;
      var q := Rewrites(RunRegistry(r, steps[..last]), steps[last]);
      if q.Some? && q.value.denom == id.denom then q.value.Id() != id else Displaced(r, steps[..last], id)
  }

  lemma RegistryStepLaw(r: Registry, step: RegistryStep)
    requires Sound(r)
    ensures Sound(ApplyRegistry(r, step))
    ensures forall id :: id in ApplyRegistry(r, step).pairs ==>
              var q := Rewrites(r, step);
              (Named(ApplyRegistry(r, step), id)
               <==> if q.Some? && q.value.denom == id.denom then q.value.Id() == id else Named(r, id))
  {
    match step
    case Register(p) =>
      if p.erc20 !in r.byErc20 {
        assert p.Id() !in r.pairs;
        RegisterLaw(r, p);
      }
    case Toggle(key) =>
      LookupFindsNamedPair(r, key);
      if Lookup(r, key).Some? { ToggleLaw(r, Lookup(r, key).value.Id()); }
    case Delete(key) =>
      LookupFindsNamedPair(r, key);
      if Lookup(r, key).Some? { DeleteLaw(r, Lookup(r, key).value); }
  }

  /** Every register/toggle/delete sequence keeps the contract index a
      bijection and leaves no dangling denomination entry. A stored pair is
      found by its denomination if and only if no other pair of that
      denomination was registered or deleted since it was. */
  lemma {:induction false} RegistryRunLaw(r: Registry, steps: seq<RegistryStep>)
    requires Sound(r)
    ensures Sound(RunRegistry(r, steps))
    ensures forall id :: id in RunRegistry(r, steps).pairs ==> (Named(RunRegistry(r, steps), id) <==> !Displaced(r, steps, id))
    ensures DenomsComplete(RunRegistry(r, steps)) <==> forall id :: id in RunRegistry(r, steps).pairs ==> !Displaced(r, steps, id)
  {
    if steps != [] {
      var last := |steps| - 1;
      RegistryRunLaw(r, steps[..last]);
      RegistryStepLaw(RunRegistry(r, steps[..last]), steps[last]);
    }
  }
}
