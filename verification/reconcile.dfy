/** The reconciliation pass of the main loop: drive every channel whose desired
    level differs from the level last applied to it. */
module Reconcile {
  import opened Types
  import opened Trace
  import opened Driver

  /** Outcome of one pass: the applied levels afterwards, the driver calls in the
      order issued, and every pin write and delay of the pass. */
  datatype Pass = Pass(previous: Levels, calls: seq<Call>, trace: seq<Event>)

  /** Idle delay at the end of every loop iteration, in microseconds (`delay(10)`). */
  const LoopDelayUs: nat := 10000

  function Abs(x: int): nat
  {
    if x < 0 then -x else x
  }

  /** Conversion to `int16_t`: wraps modulo 2^16 into [-32768, 32767]. */
  function ToInt16(x: int): (r: int)
    ensures -32768 <= r < 32768
    ensures -32768 <= x < 32768 ==> r == x
    ensures (r - x) % 0x1_0000 == 0
  {
    (x + 32768) % 0x1_0000 - 32768
  }

  /** Conversion to `uint8_t`: wraps modulo 2^8. */
  function ToUint8(x: int): (r: uint8)
    ensures 0 <= x < 256 ==> r == x
    ensures (r - x) % 0x100 == 0
  {
    x % 0x100
  }

  /** The driver call issued for channel `i` when its levels differ: the signed
      difference `previous - desired`, taken as `int16_t`, selects `UP` when positive
      and `DOWN` otherwise, and its magnitude, taken as `uint8_t`, is the step count.
      Both conversions are lossless, so the step is the exact distance. */
  function CallFor(i: uint8, previous: uint8, desired: uint8): (c: Call)
    requires previous != desired
    ensures c.light == i
    ensures c.step == Abs(previous as int - desired) && c.step > 0
    ensures c.upDown == UP <==> previous > desired
  {
    var diff := ToInt16(previous as int - desired);
    if diff > 0 then
      Call(i, UP, ToUint8(diff))
    else
      Call(i, DOWN, ToUint8(diff * -1))
  }

  /** Call `c` is the one due for its channel. */
  ghost predicate Due(desired: Levels, previous: Levels, c: Call)
  {
    && c.light < N
    && previous[c.light] != desired[c.light]
    && c.step == Abs(previous[c.light] as int - desired[c.light])
    && (c.upDown == UP <==> previous[c.light] > desired[c.light])
  }

  /** Every call is due. */
  ghost predicate AllDue(desired: Levels, previous: Levels, calls: seq<Call>)
  {
    forall k :: 0 <= k < |calls| ==> Due(desired, previous, calls[k])
  }

  /** Channels come in strictly ascending order, so each at most once. */
  ghost predicate Ascending(calls: seq<Call>)
  {
    forall k, k' :: 0 <= k < k' < |calls| ==> calls[k].light < calls[k'].light
  }

  /** Every call is for a channel at or above `i`. */
  ghost predicate LightsFrom(i: nat, calls: seq<Call>)
  {
    forall k :: 0 <= k < |calls| ==> i <= calls[k].light
  }

  /** Every channel in `i .. N-1` whose levels differ is addressed by some call. */
  ghost predicate CoversFrom(desired: Levels, previous: Levels, i: nat, calls: seq<Call>)
  {
    forall c :: i <= c < N && previous[c] != desired[c] ==>
      exists k :: 0 <= k < |calls| && calls[k].light == c
  }

  /** Reference description of the calls of one pass: each is due, channels come in
      strictly ascending order, and every channel whose levels differ is among them. */
  ghost predicate CallsSpec(desired: Levels, previous: Levels, calls: seq<Call>)
  {
    AllDue(desired, previous, calls) && Ascending(calls) && CoversFrom(desired, previous, 0, calls)
  }

  /** What iterations `i .. N-1` promise about their calls. */
  ghost predicate SpecFrom(desired: Levels, previous: Levels, i: nat, calls: seq<Call>)
  {
    LightsFrom(i, calls) && AllDue(desired, previous, calls) && Ascending(calls)
    && CoversFrom(desired, previous, i, calls)
  }

  /** Pin writes of a sequence of driver calls, one complete call after the other. */
  function Drives(calls: seq<Call>): seq<Event>
  {
    if |calls| == 0 then []
    else LightControl(calls[0].light, calls[0].upDown, calls[0].step) + Drives(calls[1..])
  }

  /** Iterations `i .. N-1` of the reconciliation loop. */
  function ReconcileFrom(desired: Levels, previous: Levels, i: nat): (r: Pass)
    requires i <= N
    ensures forall c :: 0 <= c < i ==> r.previous[c] == previous[c]
    ensures forall c :: i <= c < N ==> r.previous[c] == desired[c]
    ensures r.trace == Drives(r.calls)
    decreases N - i
  {
    if i == N then
      Pass(previous, [], [])
    else if desired[i] != previous[i] then
      var call := CallFor(i, previous[i], desired[i]);
      var rest := ReconcileFrom(desired, previous[i := desired[i]], i + 1);
      var calls := [call] + rest.calls;
      assert calls[1..] == rest.calls;
      Pass(rest.previous, calls, LightControl(call.light, call.upDown, call.step) + rest.trace)
    else
      ReconcileFrom(desired, previous, i + 1)
  }

  /** Issuing the due call for channel `i` ahead of the calls for `i+1 .. N-1`,
      which were computed with channel `i` already settled. */
  lemma ConsSpec(desired: Levels, previous: Levels, i: nat, rest: seq<Call>)
    requires i < N && previous[i] != desired[i]
    requires SpecFrom(desired, previous[i := desired[i]], i + 1, rest)
    ensures SpecFrom(desired, previous, i, [CallFor(i, previous[i], desired[i])] + rest)
  {
    var prev' := previous[i := desired[i]];
    var calls := [CallFor(i, previous[i], desired[i])] + rest;
    forall k | 0 < k < |calls|
      ensures i + 1 <= calls[k].light && Due(desired, previous, calls[k])
    {
      assert calls[k] == rest[k - 1];
      assert prev'[calls[k].light] == previous[calls[k].light];
    }
    forall k, k' | 0 <= k < k' < |calls|
      ensures calls[k].light < calls[k'].light
    {
      assert calls[k'] == rest[k' - 1];
    }
    forall c | i <= c < N && previous[c] != desired[c]
      ensures exists k :: 0 <= k < |calls| && calls[k].light == c
    {
      if c == i {
        assert calls[0].light == c;
      } else {
        assert prev'[c] == previous[c];
        var k :| 0 <= k < |rest| && rest[k].light == c;
        assert calls[k + 1] == rest[k];
      }
    }
  }

  /** Skipping a settled channel `i`. */
  lemma SkipSpec(desired: Levels, previous: Levels, i: nat, calls: seq<Call>)
    requires i < N && previous[i] == desired[i]
    requires SpecFrom(desired, previous, i + 1, calls)
    ensures SpecFrom(desired, previous, i, calls)
  {
  }

  /** The calls of iterations `i .. N-1` are the due calls for the channels in
      `i .. N-1` whose levels differ, in ascending channel order. */
  lemma {:induction false} ReconcileFromSpec(desired: Levels, previous: Levels, i: nat)
    requires i <= N
    ensures SpecFrom(desired, previous, i, ReconcileFrom(desired, previous, i).calls)
    decreases N - i
  {
    if i < N {
      if desired[i] != previous[i] {
        var prev' := previous[i := desired[i]];
        ReconcileFromSpec(desired, prev', i + 1);
        ConsSpec(desired, previous, i, ReconcileFrom(desired, prev', i + 1).calls);
      } else {
        ReconcileFromSpec(desired, previous, i + 1);
        SkipSpec(desired, previous, i, ReconcileFrom(desired, previous, i + 1).calls);
      }
    }
  }

  /** One iteration of the main loop, given the desired levels it reads:
      a full reconciliation pass followed by the idle delay. */
  function Loop(desired: Levels, previous: Levels): (r: Pass)
    ensures r.previous == desired
    ensures CallsSpec(desired, previous, r.calls)
    ensures r.trace == Drives(r.calls) + [Delay(LoopDelayUs)]
  {
    var p := ReconcileFrom(desired, previous, 0);
    ReconcileFromSpec(desired, previous, 0);
    Pass(p.previous, p.calls, p.trace + [Delay(LoopDelayUs)])
  }

  /** Channels whose desired and applied levels differ. */
  ghost function Pending(desired: Levels, previous: Levels): set<int>
  {
    set c | 0 <= c < N && previous[c] != desired[c]
  }

  /** Channels addressed by a sequence of calls. */
  ghost function Lights(calls: seq<Call>): set<int>
  {
    set k | 0 <= k < |calls| :: calls[k].light as int
  }

  lemma LightsCons(calls: seq<Call>)
    requires |calls| > 0
    ensures Lights(calls) == {calls[0].light as int} + Lights(calls[1..])
  {
    var tail := calls[1..];
    forall x | x in Lights(calls)
      ensures x in {calls[0].light as int} + Lights(tail)
    {
      var k :| 0 <= k < |calls| && calls[k].light == x;
      if k > 0 {
        assert tail[k - 1] == calls[k];
      }
    }
    forall x | x in Lights(tail)
      ensures x in Lights(calls)
    {
      var k :| 0 <= k < |tail| && tail[k].light == x;
      assert calls[k + 1] == tail[k];
    }
  }

  /** Calls in strictly ascending channel order address pairwise distinct channels. */
  lemma {:induction false} AscendingLights(calls: seq<Call>)
    requires Ascending(calls)
    ensures |Lights(calls)| == |calls|
  {
    if |calls| > 0 {
      var tail := calls[1..];
      assert Ascending(tail) by {
        forall k, k' | 0 <= k < k' < |tail|
          ensures tail[k].light < tail[k'].light
        {
          assert tail[k] == calls[k + 1] && tail[k'] == calls[k' + 1];
        }
      }
      AscendingLights(tail);
      LightsCons(calls);
      assert calls[0].light as int !in Lights(tail) by {
        forall k | 0 <= k < |tail|
          ensures tail[k].light != calls[0].light
        {
          assert tail[k] == calls[k + 1];
        }
      }
    }
  }

  /** Exactly one call per channel whose levels differ: any calls meeting the
      reference description address precisely the pending channels, one each. */
  lemma CallsPerPending(desired: Levels, previous: Levels, calls: seq<Call>)
    requires CallsSpec(desired, previous, calls)
    ensures Lights(calls) == Pending(desired, previous)
    ensures |calls| == |Pending(desired, previous)|
  {
    forall x | x in Lights(calls)
      ensures x in Pending(desired, previous)
    {
      var k :| 0 <= k < |calls| && calls[k].light == x;
      assert Due(desired, previous, calls[k]);
    }
    forall c | c in Pending(desired, previous)
      ensures c in Lights(calls)
    {
      var k :| 0 <= k < |calls| && calls[k].light == c;
    }
    AscendingLights(calls);
  }

  /** Idempotence: a second pass with no new set-point issues no call and
      writes no pin; only the idle delay remains. */
  lemma LoopIdempotent(desired: Levels, previous: Levels)
    ensures Loop(desired, Loop(desired, previous).previous).calls == []
    ensures Loop(desired, Loop(desired, previous).previous).trace == [Delay(LoopDelayUs)]
  {
    var second := Loop(desired, Loop(desired, previous).previous);
    CallsPerPending(desired, desired, second.calls);
    assert Pending(desired, desired) == {};
  }

  /** Each call addresses exactly one channel: across a pass the chip-select line
      goes low once per call, and the clock is pulsed 2N times per call. */
  lemma {:induction false} DrivesSelections(calls: seq<Call>)
    requires forall k :: 0 <= k < |calls| ==> calls[k].light < N
    ensures Count(Drives(calls), CS(false)) == |calls|
    ensures Count(Drives(calls), Clk(true)) == 2 * N * |calls|
  {
    if |calls| > 0 {
      var c := calls[0];
      DrivesSelections(calls[1..]);
      CountConcat(LightControl(c.light, c.upDown, c.step), Drives(calls[1..]), CS(false));
      CountConcat(LightControl(c.light, c.upDown, c.step), Drives(calls[1..]), Clk(true));
      SelectionCount(c.light, c.upDown, c.step);
      ClockCount(c.light, c.upDown, c.step);
    }
  }

  /** Over a whole loop iteration chip-select goes low once per pending channel and
      the clock rises 2N times per pending channel. */
  lemma LoopSelections(desired: Levels, previous: Levels)
    ensures Count(Loop(desired, previous).trace, CS(false)) == |Pending(desired, previous)|
    ensures Count(Loop(desired, previous).trace, Clk(true)) == 2 * N * |Pending(desired, previous)|
  {
    var r := Loop(desired, previous);
    CallsPerPending(desired, previous, r.calls);
    assert forall k :: 0 <= k < |r.calls| ==> Due(desired, previous, r.calls[k]);
    DrivesSelections(r.calls);
    CountConcat(Drives(r.calls), [Delay(LoopDelayUs)], CS(false));
    CountConcat(Drives(r.calls), [Delay(LoopDelayUs)], Clk(true));
    CountSingle(Delay(LoopDelayUs), CS(false));
    CountSingle(Delay(LoopDelayUs), Clk(true));
  }
}
