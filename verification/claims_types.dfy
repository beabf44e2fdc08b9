/** Claims records, actions and the time window of the airdrop. */
module ClaimsTypes {
  import opened Common

  datatype Action = Unspecified | Vote | Delegate | EVM | IBCTransfer

  /** The position of an action in a record's list of bits. */
  function Slot(action: Action): nat
    requires !action.Unspecified?
  {
    match action
    case Vote => 0
    case Delegate => 1
    case EVM => 2
    case IBCTransfer => 3
  }

  const NUM_ACTIONS: nat := 4

  datatype ClaimsRecord = ClaimsRecord(amount: nat, completed: seq<bool>)
  {
    predicate WellFormed() { |completed| == NUM_ACTIONS }

    predicate HasClaimedAction(action: Action) {
      WellFormed() && !action.Unspecified? && completed[Slot(action)]
    }

    function MarkClaimed(action: Action): ClaimsRecord {
      if !WellFormed() || action.Unspecified? then this
      else this.(completed := completed[Slot(action) := true])
    }

    predicate HasClaimedAny() { exists i :: 0 <= i < |completed| && completed[i] }

    /** What one action is worth, in whole coins. */
    function Quarter(): nat { amount / NUM_ACTIONS }
  }

  function NewClaimsRecord(amount: nat): ClaimsRecord {
    ClaimsRecord(amount, [false, false, false, false])
  }

  /** How many actions are still open. */
  function OpenActions(bits: seq<bool>): nat {
    if bits == [] then 0 else (if bits[0] then 0 else 1) + OpenActions(bits[1..])
  }

  function Bit(open: bool): nat { if open then 1 else 0 }

  lemma OpenActionsOfFour(bits: seq<bool>)
    requires |bits| == NUM_ACTIONS
    ensures OpenActions(bits) == Bit(!bits[0]) + Bit(!bits[1]) + Bit(!bits[2]) + Bit(!bits[3])
  {
    assert OpenActions(bits) == Bit(!bits[0]) + OpenActions(bits[1..]);
    assert OpenActions(bits[1..]) == Bit(!bits[1]) + OpenActions(bits[1..][1..]);
    assert OpenActions(bits[1..][1..]) == Bit(!bits[2]) + OpenActions(bits[1..][1..][1..]);
  }

  // ---------------------------------------------------------------- time

  /** Times and durations are counted in nanoseconds; a duration is an int64. */
  const MAX_DURATION: int := 0x7FFF_FFFF_FFFF_FFFF

  /** The difference of two times saturates at the ends of the int64 range. */
  function TimeSub(t: int, u: int): int {
    if t - u > MAX_DURATION then MAX_DURATION
    else if t - u < -MAX_DURATION - 1 then -MAX_DURATION - 1
    else t - u
  }

  /** The sum of two durations wraps around. */
  function DurationAdd(a: int, b: int): int {
    var sum := (a + b) % TWO_64;
    if sum > MAX_DURATION then sum - TWO_64 else sum
  }

  /** A difference of times is the int64 nearest to the exact one; a sum of
      durations is the int64 that equals the exact one modulo 2^64. */
  lemma DurationArithmetic(t: int, u: int)
    ensures var (lo, hi) := (-0x8000_0000_0000_0000, 0x7FFF_FFFF_FFFF_FFFF);
            && lo <= TimeSub(t, u) <= hi
            && (lo <= t - u <= hi ==> TimeSub(t, u) == t - u)
            && (t - u > hi ==> TimeSub(t, u) == hi) && (t - u < lo ==> TimeSub(t, u) == lo)
            && lo <= DurationAdd(t, u) <= hi && (DurationAdd(t, u) - (t + u)) % TWO_64 == 0
  {
  }

  datatype Params = Params(
    enableClaims: bool,
    airdropStartTime: int,
    durationUntilDecay: int,
    durationOfDecay: int,
    authorizedChannels: seq<string>,
    evmChannels: seq<string>)
  {
    predicate Valid() {
      0 < durationUntilDecay <= MAX_DURATION && 0 < durationOfDecay <= MAX_DURATION
    }

    function DecayStartTime(): int { airdropStartTime + durationUntilDecay }

    function AirdropEndTime(): int { airdropStartTime + durationUntilDecay + durationOfDecay }

    predicate IsClaimsActive(blockTime: int) {
      enableClaims && airdropStartTime <= blockTime <= AirdropEndTime()
    }

    predicate IsAuthorizedChannel(channel: string) { channel in authorizedChannels }

    predicate IsEVMChannel(channel: string) { channel in evmChannels }
  }
}
