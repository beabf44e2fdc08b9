/** The epoch clock: a counter that each block advances by at most one, and the
    hooks it fires. */
module Epochs {

  /** One epoch series; the identifier is its key in the store. Times and
      durations are in nanoseconds. */
  datatype EpochInfo = EpochInfo(
    startTime: int,
    duration: int,
    currentEpoch: int,
    currentEpochStartTime: int,
    currentEpochStartHeight: int,
    epochCountingStarted: bool)

  datatype Hook = AfterEpochEnd(number: int) | BeforeEpochStart(number: int)

  function StartInitialEpoch(e: EpochInfo): EpochInfo {
    e.(epochCountingStarted := true, currentEpoch := 1, currentEpochStartTime := e.startTime)
  }

  function EndEpoch(e: EpochInfo): EpochInfo {
    e.(currentEpoch := e.currentEpoch + 1, currentEpochStartTime := e.currentEpochStartTime + e.duration)
  }

  /** What one block at time `t` does to one series: the new state and the hooks. */
  function Tick(e: EpochInfo, t: int, height: int): (EpochInfo, seq<Hook>) {
    if t < e.startTime then (e, [])
    else if !e.epochCountingStarted then
      (StartInitialEpoch(e).(currentEpochStartHeight := height), [BeforeEpochStart(1)])
    else if t > e.currentEpochStartTime + e.duration then
      var e1 := EndEpoch(e).(currentEpochStartHeight := height);
      (e1, [AfterEpochEnd(e1.currentEpoch), BeforeEpochStart(e1.currentEpoch)])
    else (e, [])
  }

  // ---------------------------------------------------------------- the block loop

  class Keeper {
    var epochs: map<string, EpochInfo>
    var fired: seq<(string, Hook)>

    constructor (epochs: map<string, EpochInfo>)
      ensures this.epochs == epochs && fired == []
    {
      this.epochs, fired := epochs, [];
    }

    /** `order` is the store's iteration order. */
    method BeginBlocker(t: int, height: int, order: seq<string>)
      requires (forall i, j :: 0 <= i < j < |order| ==> order[i] != order[j]) && (set id | id in order) == epochs.Keys
      modifies this
      ensures epochs == map id | id in old(epochs) :: Tick(old(epochs)[id], t, height).0
      ensures forall id :: HooksOf(fired, id)
                == HooksOf(old(fired), id) + (if id in old(epochs) then Tick(old(epochs)[id], t, height).1 else [])
    {
      hide HooksOf, Tick;
      ghost var before := epochs;
      for i := 0 to |order|
        invariant epochs.Keys == before.Keys
        invariant forall x :: x in before ==>
          epochs[x] == if x in order[..i] then Tick(before[x], t, height).0 else before[x]
        invariant forall x :: HooksOf(fired, x) == HooksOf(old(fired), x) + HooksIn(before, order[..i], x, t, height)
      {
        var id := order[i];
        assert forall x :: x in order[..i + 1] <==> x in order[..i] || x == id;
        assert id !in order[..i];
        ghost var earlier := fired;
        ProcessEpoch(id, t, height);
        forall x ensures HooksOf(fired, x) == HooksOf(old(fired), x) + HooksIn(before, order[..i + 1], x, t, height) {
          assert HooksOf(earlier, x) == HooksOf(old(fired), x) + HooksIn(before, order[..i], x, t, height);
        }
      }
      assert order[..|order|] == order;
      forall x | x in before ensures x in order { assert x in epochs.Keys; }
    }

    /** The callback for one series. */
    method ProcessEpoch(id: string, t: int, height: int)
      requires id in epochs
      modifies this
      ensures epochs == old(epochs)[id := Tick(old(epochs)[id], t, height).0]
      ensures forall x :: HooksOf(fired, x)
                == HooksOf(old(fired), x) + (if x == id then Tick(old(epochs)[id], t, height).1 else [])
    {
      var info := epochs[id];
      var shouldInitialEpochStart := !info.epochCountingStarted && !(info.startTime > t);
      var epochEndTime := info.currentEpochStartTime + info.duration;
      var shouldEpochEnd := t > epochEndTime && !shouldInitialEpochStart && !(info.startTime > t);
      info := info.(currentEpochStartHeight := height);
      if shouldInitialEpochStart {
        info := StartInitialEpoch(info);
      } else if shouldEpochEnd {
        info := EndEpoch(info);
        Append(fired, (id, AfterEpochEnd(info.currentEpoch)));
        fired := fired + [(id, AfterEpochEnd(info.currentEpoch))];
      } else {
        assert epochs == old(epochs)[id := old(epochs)[id]];
        return;
      }
      epochs := epochs[id := info];
      Append(fired, (id, BeforeEpochStart(info.currentEpoch)));
      fired := fired + [(id, BeforeEpochStart(info.currentEpoch))];
    }
  }

  /** What a block fires for `id` once the series in `done` are processed. */
  function HooksIn(epochs: map<string, EpochInfo>, done: seq<string>, id: string, t: int, height: int): seq<Hook> {
    if id in done && id in epochs then Tick(epochs[id], t, height).1 else []
  }

  /** The hooks fired for one identifier, in order. */
  function HooksOf(fired: seq<(string, Hook)>, id: string): seq<Hook> {
    if fired == [] then []
    else
      var last := |fired| - 1;
      HooksOf(fired[..last], id) + (if fired[last].0 == id then [fired[last].1] else [])
  }

  lemma Append(fired: seq<(string, Hook)>, h: (string, Hook))
    ensures forall id :: HooksOf(fired + [h], id) == HooksOf(fired, id) + (if h.0 == id then [h.1] else [])
  {
  }

  // ---------------------------------------------------------------- runs of one series

  /** A block's time and height. */
  type Block = (int, int)

  function After(e: EpochInfo, blocks: seq<Block>): EpochInfo {
    if blocks == [] then e
    else
      var last := |blocks| - 1;
      Tick(After(e, blocks[..last]), blocks[last].0, blocks[last].1).0
  }

  function HooksFired(e: EpochInfo, blocks: seq<Block>): seq<Hook> {
    if blocks == [] then []
    else
      var last := |blocks| - 1;
      HooksFired(e, blocks[..last]) + Tick(After(e, blocks[..last]), blocks[last].0, blocks[last].1).1
  }

  /** The complete trace up to epoch `n`: no gap, no repeat. The end hook of an
      epoch carries the number of the epoch that begins. */
  function Trace(n: nat): seq<Hook> {
    if n == 0 then []
    else if n == 1 then [BeforeEpochStart(1)]
    else Trace(n - 1) + [AfterEpochEnd(n), BeforeEpochStart(n)]
  }

  /** From an unstarted series, whatever the blocks, the hooks fired are the
      complete trace up to the current epoch. */
  lemma {:induction false} HooksAreTrace(e: EpochInfo, blocks: seq<Block>)
    requires !e.epochCountingStarted
    ensures var e1 := After(e, blocks);
            if e1.epochCountingStarted
            then e1.currentEpoch >= 1 && HooksFired(e, blocks) == Trace(e1.currentEpoch)
            else e1 == e && HooksFired(e, blocks) == []
  {
    if blocks != [] {
      HooksAreTrace(e, blocks[..|blocks| - 1]);
    }
  }

  /** A block starts the count of a series whose start time has come, at epoch
      one; ends an epoch that is strictly past its duration, and starts the
      next where it ended; and otherwise changes nothing. An epoch remembers the
      height of the block that began it. */
  lemma TickEffect(e: EpochInfo, t: int, height: int)
    ensures var (e1, hooks) := Tick(e, t, height);
            && e1.startTime == e.startTime && e1.duration == e.duration
            && (e.startTime > t ==> e1 == e && hooks == [])
            && (e.startTime <= t && !e.epochCountingStarted ==>
                 && e1.epochCountingStarted && e1.currentEpoch == 1 && e1.currentEpochStartTime == e.startTime
                 && e1.currentEpochStartHeight == height && hooks == [BeforeEpochStart(1)])
            && (e.startTime <= t && e.epochCountingStarted && t - e.currentEpochStartTime > e.duration ==>
                 && e1.epochCountingStarted && e1.currentEpoch == e.currentEpoch + 1
                 && e1.currentEpochStartTime - e.currentEpochStartTime == e.duration
                 && e1.currentEpochStartHeight == height
                 && hooks == [AfterEpochEnd(e.currentEpoch + 1), BeforeEpochStart(e.currentEpoch + 1)])
            && (e.startTime <= t && e.epochCountingStarted && t - e.currentEpochStartTime <= e.duration ==> e1 == e && hooks == [])
  {
  }

  /** After every run the start height is that of the block that began the
      current epoch: the last one that changed the counter. */
  lemma {:induction false} StartHeightIsOfLastChange(e: EpochInfo, blocks: seq<Block>, k: nat)
    requires k < |blocks| && After(e, blocks[..k + 1]).currentEpoch != After(e, blocks[..k]).currentEpoch
    requires forall i :: k < i <= |blocks| ==> After(e, blocks[..i]).currentEpoch == After(e, blocks[..k + 1]).currentEpoch
    requires After(e, blocks[..k]).epochCountingStarted
    ensures After(e, blocks).currentEpochStartHeight == blocks[k].1
    decreases |blocks|
  {
    assert blocks[..|blocks|] == blocks;
    if k + 1 == |blocks| {
    } else {
      var last := |blocks| - 1;
      var init := blocks[..last];
      assert init[..k + 1] == blocks[..k + 1] && init[..k] == blocks[..k];
      forall i | k < i <= last ensures After(e, init[..i]).currentEpoch == After(e, init[..k + 1]).currentEpoch {
        assert init[..i] == blocks[..i];
      }
      StartHeightIsOfLastChange(e, init, k);
      StaysStarted(e, init, k);
    }
  }

  lemma {:induction false} StaysStarted(e: EpochInfo, blocks: seq<Block>, k: nat)
    requires k <= |blocks| && After(e, blocks[..k]).epochCountingStarted
    ensures After(e, blocks).epochCountingStarted
    decreases |blocks|
  {
    if k == |blocks| {
      assert blocks[..k] == blocks;
    } else {
      var init := blocks[..|blocks| - 1];
      assert init[..k] == blocks[..k];
      StaysStarted(e, init, k);
    }
  }

  // ---------------------------------------------------------------- the clock

  /** The quotient rounded up. */
  function CeilDiv(x: int, d: int): int
    requires d > 0
  {
    -((-x) / d)
  }

  /** The epoch that a clock without lag would be in. */
  function Ideal(e: EpochInfo, t: int): int
    requires e.duration > 0
  {
    var c := CeilDiv(t - e.startTime, e.duration);
    if c < 1 then 1 else c
  }

  /** The counter is behind or on time, and the current epoch's start is where
      the series puts it. */
  predicate OnGrid(e: EpochInfo, t: int) {
    && e.duration > 0
    && (e.epochCountingStarted ==>
         && e.startTime <= t
         && 1 <= e.currentEpoch <= Ideal(e, t)
         && e.currentEpochStartTime == e.startTime + (e.currentEpoch - 1) * e.duration)
  }

  lemma CeilAbove(x: int, d: int, n: int)
    requires d > 0
    ensures x > n * d <==> CeilDiv(x, d) > n
  {
    var q := (-x) / d;
    assert q * d <= -x < q * d + d;
    if x > n * d {
      assert q * d < -n * d;
      assert q < -n by { Cancel(q, -n, d); }
    } else {
      assert (q + 1) * d > -n * d;
      assert q + 1 > -n by { Cancel(-n, q + 1, d); }
    }
  }

  lemma Cancel(a: int, b: int, d: int)
    requires d > 0 && a * d < b * d
    ensures a < b
  {
  }

  lemma IdealMonotone(e: EpochInfo, t: int, u: int)
    requires e.duration > 0 && t <= u
    ensures Ideal(e, t) <= Ideal(e, u)
  {
    CeilAbove(t - e.startTime, e.duration, CeilDiv(t - e.startTime, e.duration) - 1);
    CeilAbove(u - e.startTime, e.duration, CeilDiv(t - e.startTime, e.duration) - 1);
  }

  /** A block at time `t` takes epoch n to min(n + 1, ideal epoch). */
  lemma TickClosedForm(e: EpochInfo, t0: int, t: int, height: int)
    requires OnGrid(e, t0) && t0 <= t
    ensures OnGrid(Tick(e, t, height).0, t)
    ensures e.epochCountingStarted ==>
              Tick(e, t, height).0.currentEpoch
              == (if Ideal(e, t) > e.currentEpoch then e.currentEpoch + 1 else Ideal(e, t))
    ensures !e.epochCountingStarted ==>
              (Tick(e, t, height).0.epochCountingStarted <==> e.startTime <= t)
    ensures Tick(e, t, height).0.startTime == e.startTime && Tick(e, t, height).0.duration == e.duration
  {
    if e.epochCountingStarted {
      var n, d := e.currentEpoch, e.duration;
      IdealMonotone(e, t0, t);
      CeilAbove(t - e.startTime, d, n);
      assert (n - 1) * d + d == n * d;
      assert Ideal(Tick(e, t, height).0, t) == Ideal(e, t);
    }
  }

  /** How far the counter is behind. */
  function Lag(e: EpochInfo, t: int): int
    requires e.duration > 0
  {
    Ideal(e, t) - e.currentEpoch
  }

  /** While blocks are at most one duration apart the lag never grows. */
  lemma LagNeverGrows(e: EpochInfo, t0: int, t: int, height: int)
    requires OnGrid(e, t0) && e.epochCountingStarted && t0 <= t <= t0 + e.duration
    ensures 0 <= Lag(Tick(e, t, height).0, t) <= Lag(e, t0)
  {
    hide CeilDiv;
    TickClosedForm(e, t0, t, height);
    IdealMonotone(e, t0, t);
    IdealGainsAtMostOne(e, t0, t);
    assert Ideal(Tick(e, t, height).0, t) == Ideal(e, t);
  }

  /** Consecutive blocks are at most `d` apart, the first at most `d` after `t0`. */
  predicate Regular(t0: int, blocks: seq<Block>, d: int) {
    && (blocks != [] ==> blocks[0].0 <= t0 + d)
    && (forall i :: 0 < i < |blocks| ==> blocks[i].0 <= blocks[i - 1].0 + d)
  }

  /** The same over every run: a clock on time stays on time. */
  lemma {:induction false} LagNeverGrowsOverRun(e: EpochInfo, t0: int, blocks: seq<Block>)
    requires OnGrid(e, t0) && e.epochCountingStarted && NonDecreasing(t0, blocks) && Regular(t0, blocks, e.duration)
    ensures var t := if blocks == [] then t0 else blocks[|blocks| - 1].0;
            After(e, blocks).duration > 0 && 0 <= Lag(After(e, blocks), t) <= Lag(e, t0)
  {
    hide Tick;
    if blocks != [] {
      var last := |blocks| - 1;
      var init := blocks[..last];
      LagNeverGrowsOverRun(e, t0, init);
      CatchUp(e, t0, init);
      LagNeverGrows(After(e, init), if init == [] then t0 else init[last - 1].0, blocks[last].0, blocks[last].1);
      TickClosedForm(After(e, init), if init == [] then t0 else init[last - 1].0, blocks[last].0, blocks[last].1);
    }
  }

  lemma IdealGainsAtMostOne(e: EpochInfo, t0: int, t: int)
    requires e.duration > 0 && t <= t0 + e.duration
    ensures Ideal(e, t) <= Ideal(e, t0) + 1
  {
    hide CeilDiv;
    var d, c := e.duration, CeilDiv(t0 - e.startTime, e.duration);
    CeilAbove(t0 - e.startTime, d, c);
    CeilAbove(t - e.startTime, d, c + 1);
    assert (c + 1) * d == c * d + d;
  }

  predicate NonDecreasing(t0: int, blocks: seq<Block>) {
    && (forall i :: 0 <= i < |blocks| ==> t0 <= blocks[i].0)
    && (forall i, j :: 0 <= i < j < |blocks| ==> blocks[i].0 <= blocks[j].0)
  }

  /** After a halt the counter catches up one epoch a block: after k blocks it
      has gained k epochs or reached the ideal of the first of them, and it
      never passes the ideal of the last. */
  lemma {:induction false} CatchUp(e: EpochInfo, t0: int, blocks: seq<Block>)
    requires OnGrid(e, t0) && e.epochCountingStarted && NonDecreasing(t0, blocks)
    ensures var e1 := After(e, blocks);
            && e1.epochCountingStarted && e1.startTime == e.startTime && e1.duration == e.duration
            && OnGrid(e1, if blocks == [] then t0 else blocks[|blocks| - 1].0)
            && e1.currentEpoch <= e.currentEpoch + |blocks|
            && (blocks != [] ==>
                 && e1.currentEpoch <= Ideal(e, blocks[|blocks| - 1].0)
                 && (e1.currentEpoch == e.currentEpoch + |blocks| || e1.currentEpoch >= Ideal(e, blocks[0].0)))
  {
    if blocks != [] {
      var last := |blocks| - 1;
      var init := blocks[..last];
      CatchUp(e, t0, init);
      var before := After(e, init);
      var at := if init == [] then t0 else init[last - 1].0;
      TickClosedForm(before, at, blocks[last].0, blocks[last].1);
      IdealMonotone(e, blocks[0].0, blocks[last].0);
      assert Ideal(before, blocks[last].0) == Ideal(e, blocks[last].0);
    }
  }

  /** From an unstarted series every run stays on the grid. */
  lemma {:induction false} RunOnGrid(e: EpochInfo, t0: int, blocks: seq<Block>)
    requires OnGrid(e, t0) && NonDecreasing(t0, blocks)
    ensures var e1 := After(e, blocks);
            OnGrid(e1, if blocks == [] then t0 else blocks[|blocks| - 1].0)
  {
    if blocks != [] {
      var last := |blocks| - 1;
      var init := blocks[..last];
      RunOnGrid(e, t0, init);
      TickClosedForm(After(e, init), if init == [] then t0 else init[last - 1].0, blocks[last].0, blocks[last].1);
    }
  }

  /** After every run a started epoch began on the grid and not in the future. */
  lemma EpochStartsInThePast(e: EpochInfo, t0: int, blocks: seq<Block>)
    requires OnGrid(e, t0) && NonDecreasing(t0, blocks)
    ensures var e1 := After(e, blocks);
            e1.epochCountingStarted ==>
              && e1.currentEpoch >= 1
              && e1.currentEpochStartTime == e1.startTime + (e1.currentEpoch - 1) * e1.duration
              && e1.currentEpochStartTime <= if blocks == [] then t0 else blocks[|blocks| - 1].0
  {
    hide Tick, Ideal;
    RunOnGrid(e, t0, blocks);
    var e1, t := After(e, blocks), if blocks == [] then t0 else blocks[|blocks| - 1].0;
    if e1.epochCountingStarted {
      StartNotAfter(e1, t);
    }
  }

  lemma StartNotAfter(e: EpochInfo, t: int)
    requires OnGrid(e, t) && e.epochCountingStarted
    ensures e.currentEpochStartTime <= t
  {
    CeilAbove(t - e.startTime, e.duration, e.currentEpoch - 1);
  }
}
