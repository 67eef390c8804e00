/** The wiper driver: the pin-write sequence emitted by `LightControl`. */
module Driver {
  import opened Types
  import opened Trace

  /** One invocation of the wiper driver: `LightControl(light, upDown, step)`. */
  datatype Call = Call(light: uint8, upDown: bool, step: uint8)

  /** `unsigned int` arithmetic wraps modulo 2^32. */
  const UintModulus: int := 0x1_0000_0000

  /** One shift-register clock cycle: write chip-select, then pulse the clock,
      each write followed by the settle delay. */
  function Group(cs: bool): (g: seq<Event>)
    ensures |g| == GroupWidth
  {
    [CS(cs), Delay(SettleUs), Clk(true), Delay(SettleUs), Clk(false), Delay(SettleUs)]
  }

  const GroupWidth: nat := 6

  /** Occurrences of each event in one clock cycle. */
  lemma GroupCount(cs: bool, e: Event)
    ensures Count(Group(cs), e) ==
      (if e == CS(cs) then 1 else 0) + (if e == Clk(true) || e == Clk(false) then 1 else 0)
      + (if e == Delay(SettleUs) then 3 else 0)
  {
    var d := Delay(SettleUs);
    assert Group(cs) == [CS(cs)] + [d] + [Clk(true)] + [d] + [Clk(false)] + [d];
    CountConcat([CS(cs)] + [d] + [Clk(true)] + [d] + [Clk(false)], [d], e);
    CountConcat([CS(cs)] + [d] + [Clk(true)] + [d], [Clk(false)], e);
    CountConcat([CS(cs)] + [d] + [Clk(true)], [d], e);
    CountConcat([CS(cs)] + [d], [Clk(true)], e);
    CountConcat([CS(cs)], [d], e);
    CountSingle(CS(cs), e);
    CountSingle(d, e);
    CountSingle(Clk(true), e);
    CountSingle(Clk(false), e);
  }

  /** One wiper step: the up/down line driven to `upDown` and back. */
  function Pulse(upDown: bool): (p: seq<Event>)
    ensures |p| == PulseWidth
  {
    [UD(upDown), Delay(SettleUs), UD(!upDown), Delay(SettleUs)]
  }

  const PulseWidth: nat := 4

  /** Occurrences of each event in one wiper step. */
  lemma PulseCount(upDown: bool, e: Event)
    ensures Count(Pulse(upDown), e) ==
      (if e == UD(upDown) || e == UD(!upDown) then 1 else 0) + (if e == Delay(SettleUs) then 2 else 0)
  {
    var d := Delay(SettleUs);
    assert Pulse(upDown) == [UD(upDown)] + [d] + [UD(!upDown)] + [d];
    CountConcat([UD(upDown)] + [d] + [UD(!upDown)], [d], e);
    CountConcat([UD(upDown)] + [d], [UD(!upDown)], e);
    CountConcat([UD(upDown)], [d], e);
    CountSingle(UD(upDown), e);
    CountSingle(d, e);
    CountSingle(UD(!upDown), e);
  }

  /** Position in the addressing pass whose chip-select is driven low:
      `(NUMBER_OF_LIGHTS - 1) - light` evaluated in `unsigned int`. */
  function SelectIndex(light: uint8): (s: int)
    ensures light < N ==> s == N - 1 - light
    ensures light >= N ==> s >= N
  {
    (N - 1 - light) % UintModulus
  }

  /** Body of the clear loop: every position deselected. */
  function ClearBody(i: nat): seq<Event>
  {
    Group(true)
  }

  /** Body of the addressing loop: chip-select low only at the selected position. */
  function AddressBody(light: uint8): (body: nat -> seq<Event>)
    ensures forall i :: body(i) == Group(!(SelectIndex(light) == i))
  {
    i => Group(!(SelectIndex(light) == i))
  }

  /** Body of the stepping loop. */
  function PulseBody(upDown: bool): (body: nat -> seq<Event>)
    ensures forall i :: body(i) == Pulse(upDown)
  {
    i => Pulse(upDown)
  }

  /** Offsets of the four phases of the sequence. */
  const ClearLen: nat := N * GroupWidth
  const DirectionAt: nat := ClearLen
  const AddressStart: nat := ClearLen + 2
  const PulseStart: nat := AddressStart + N * GroupWidth

  /** The complete pin-write trace of `LightControl(light, upDown, step)`:
      clear pass, direction line to `!upDown`, addressing pass, `step` pulses. */
  function LightControl(light: uint8, upDown: bool, step: uint8): (t: seq<Event>)
    ensures |t| == PulseStart + PulseWidth * step
  {
    RepeatLength(N, ClearBody, GroupWidth);
    RepeatLength(N, AddressBody(light), GroupWidth);
    RepeatLength(step, PulseBody(upDown), PulseWidth);
    Repeat(N, ClearBody)
    + [UD(!upDown), Delay(SettleUs)]
    + Repeat(N, AddressBody(light))
    + Repeat(step, PulseBody(upDown))
  }

  /** The trace split into its four phases. */
  lemma Phases(light: uint8, upDown: bool, step: uint8)
    ensures LightControl(light, upDown, step)[..ClearLen] == Repeat(N, ClearBody)
    ensures LightControl(light, upDown, step)[AddressStart .. PulseStart] == Repeat(N, AddressBody(light))
    ensures LightControl(light, upDown, step)[PulseStart ..] == Repeat(step, PulseBody(upDown))
  {
    var a, b, c, d := Repeat(N, ClearBody), [UD(!upDown), Delay(SettleUs)],
      Repeat(N, AddressBody(light)), Repeat(step, PulseBody(upDown));
    RepeatLength(N, ClearBody, GroupWidth);
    RepeatLength(N, AddressBody(light), GroupWidth);
    var t := LightControl(light, upDown, step);
    assert t == a + b + c + d;
    assert t[..ClearLen] == a;
    assert t[AddressStart .. PulseStart] == c;
    assert t[PulseStart ..] == d;
  }

  /** Occurrences of `e` in the trace, phase by phase. */
  lemma PhaseCount(light: uint8, upDown: bool, step: uint8, e: Event)
    ensures Count(LightControl(light, upDown, step), e) == PhaseSum(light, upDown, step, e)
  {
    var a, b, c, d := Repeat(N, ClearBody), [UD(!upDown), Delay(SettleUs)],
      Repeat(N, AddressBody(light)), Repeat(step, PulseBody(upDown));
    assert LightControl(light, upDown, step) == a + b + c + d;
    CountConcat(a + b + c, d, e);
    CountConcat(a + b, c, e);
    CountConcat(a, b, e);
  }

  /** Occurrences of each event in the direction setup. */
  lemma SetupCount(upDown: bool, e: Event)
    ensures Count([UD(!upDown), Delay(SettleUs)], e) ==
      (if e == UD(!upDown) then 1 else 0) + (if e == Delay(SettleUs) then 1 else 0)
  {
    assert [UD(!upDown), Delay(SettleUs)] == [UD(!upDown)] + [Delay(SettleUs)];
    CountConcat([UD(!upDown)], [Delay(SettleUs)], e);
    CountSingle(UD(!upDown), e);
    CountSingle(Delay(SettleUs), e);
  }

  function PhaseSum(light: uint8, upDown: bool, step: uint8, e: Event): nat
  {
    Count(Repeat(N, ClearBody), e) + Count([UD(!upDown), Delay(SettleUs)], e)
    + Count(Repeat(N, AddressBody(light)), e) + Count(Repeat(step, PulseBody(upDown)), e)
  }

  /** Clear pass: the trace opens with exactly N deselect-and-clock groups. */
  lemma ClearPassShape(light: uint8, upDown: bool, step: uint8)
    ensures forall i :: 0 <= i < N ==>
      LightControl(light, upDown, step)[i * GroupWidth .. i * GroupWidth + GroupWidth]
        == [CS(true), Delay(SettleUs), Clk(true), Delay(SettleUs), Clk(false), Delay(SettleUs)]
    ensures forall k :: 0 <= k < ClearLen ==> !LightControl(light, upDown, step)[k].UD?
  {
    var t := LightControl(light, upDown, step);
    var clear := Repeat(N, ClearBody);
    Phases(light, upDown, step);
    forall i | 0 <= i < N
      ensures t[i * GroupWidth .. i * GroupWidth + GroupWidth] == Group(true)
    {
      RepeatBlock(N, ClearBody, GroupWidth, i);
      assert t[i * GroupWidth .. i * GroupWidth + GroupWidth] == clear[i * GroupWidth .. i * GroupWidth + GroupWidth];
    }
    RepeatOnly(N, ClearBody, (e: Event) => !e.UD?);
    forall k | 0 <= k < ClearLen
      ensures !t[k].UD?
    {
      assert t[k] == clear[k];
    }
  }

  /** After the clear pass the up/down line is written once, to `!upDown`, followed by
      the settle delay, and it is not touched again before the stepping pass. */
  lemma DirectionSetup(light: uint8, upDown: bool, step: uint8)
    ensures LightControl(light, upDown, step)[DirectionAt] == UD(!upDown)
    ensures LightControl(light, upDown, step)[DirectionAt + 1] == Delay(SettleUs)
    ensures forall k :: 0 <= k < PulseStart && k != DirectionAt ==> !LightControl(light, upDown, step)[k].UD?
  {
    var t := LightControl(light, upDown, step);
    ClearPassShape(light, upDown, step);
    var addr := Repeat(N, AddressBody(light));
    forall i, k | 0 <= i < N && 0 <= k < |AddressBody(light)(i)|
      ensures !AddressBody(light)(i)[k].UD?
    {
      assert AddressBody(light)(i) == Group(SelectIndex(light) != i);
    }
    RepeatOnly(N, AddressBody(light), (e: Event) => !e.UD?);
    Phases(light, upDown, step);
    forall k | AddressStart <= k < PulseStart
      ensures !t[k].UD?
    {
      assert t[k] == addr[k - AddressStart];
    }
    assert t[DirectionAt + 1] == Delay(SettleUs);
  }

  /** Addressing pass: position `i` writes chip-select, then clock 1, then clock 0;
      chip-select is low exactly where `i` equals the reversed index of `light`. */
  lemma AddressingShape(light: uint8, upDown: bool, step: uint8)
    ensures forall i :: 0 <= i < N ==>
      LightControl(light, upDown, step)[AddressStart + i * GroupWidth .. AddressStart + i * GroupWidth + GroupWidth]
        == [CS(SelectIndex(light) != i), Delay(SettleUs), Clk(true), Delay(SettleUs), Clk(false), Delay(SettleUs)]
  {
    var t := LightControl(light, upDown, step);
    var addr := Repeat(N, AddressBody(light));
    Phases(light, upDown, step);
    forall i | 0 <= i < N
      ensures t[AddressStart + i * GroupWidth .. AddressStart + i * GroupWidth + GroupWidth]
        == Group(SelectIndex(light) != i)
    {
      RepeatBlock(N, AddressBody(light), GroupWidth, i);
      assert t[AddressStart + i * GroupWidth .. AddressStart + i * GroupWidth + GroupWidth]
        == addr[i * GroupWidth .. i * GroupWidth + GroupWidth];
    }
  }

  /** Exactly one channel is addressed when `light < N`, at the reversed daisy-chain
      position `(N-1) - light`; every other position, and every position when `light`
      is out of range, is deselected. */
  lemma Selection(light: uint8, upDown: bool, step: uint8)
    ensures light < N ==>
      LightControl(light, upDown, step)[AddressStart + (N - 1 - light) * GroupWidth] == CS(false)
    ensures forall i :: 0 <= i < N && i != N - 1 - light ==>
      LightControl(light, upDown, step)[AddressStart + i * GroupWidth] == CS(true)
  {
    var t := LightControl(light, upDown, step);
    AddressingShape(light, upDown, step);
    forall i | 0 <= i < N
      ensures t[AddressStart + i * GroupWidth] == CS(SelectIndex(light) != i)
    {
      assert t[AddressStart + i * GroupWidth] ==
        t[AddressStart + i * GroupWidth .. AddressStart + i * GroupWidth + GroupWidth][0];
    }
  }

  /** Over the whole sequence chip-select goes low once if `light < N` and never otherwise. */
  lemma SelectionCount(light: uint8, upDown: bool, step: uint8)
    ensures Count(LightControl(light, upDown, step), CS(false)) == (if light < N then 1 else 0)
  {
    PhaseCount(light, upDown, step, CS(false));
    SelectionPhases(light, upDown, step);
  }

  lemma SelectionPhases(light: uint8, upDown: bool, step: uint8)
    ensures PhaseSum(light, upDown, step, CS(false)) == (if light < N then 1 else 0)
  {
    SetupCount(upDown, CS(false));
    var e := CS(false);
    GroupCount(true, e);
    RepeatCount(N, ClearBody, e, 0);
    var j := SelectIndex(light);
    forall i | 0 <= i < N
      ensures Count(AddressBody(light)(i), e) == (if i == j then 1 else 0)
    {
      GroupCount(j != i, e);
    }
    RepeatCountSingle(N, AddressBody(light), e, j);
    PulseCount(upDown, e);
    RepeatCount(step, PulseBody(upDown), e, 0);
  }

  /** Stepping pass: after addressing come exactly `step` pulses
      `(UD := upDown, UD := !upDown)`, with no clock or chip-select write. */
  lemma PulseShape(light: uint8, upDown: bool, step: uint8)
    ensures forall j :: 0 <= j < step ==>
      LightControl(light, upDown, step)[PulseStart + j * PulseWidth .. PulseStart + j * PulseWidth + PulseWidth]
        == [UD(upDown), Delay(SettleUs), UD(!upDown), Delay(SettleUs)]
    ensures forall k :: PulseStart <= k < |LightControl(light, upDown, step)| ==>
      LightControl(light, upDown, step)[k].UD? || LightControl(light, upDown, step)[k].Delay?
  {
    var t := LightControl(light, upDown, step);
    var pulses := Repeat(step, PulseBody(upDown));
    Phases(light, upDown, step);
    forall j | 0 <= j < step
      ensures t[PulseStart + j * PulseWidth .. PulseStart + j * PulseWidth + PulseWidth] == Pulse(upDown)
    {
      RepeatBlock(step, PulseBody(upDown), PulseWidth, j);
      assert t[PulseStart + j * PulseWidth .. PulseStart + j * PulseWidth + PulseWidth]
        == pulses[j * PulseWidth .. j * PulseWidth + PulseWidth];
    }
    RepeatOnly(step, PulseBody(upDown), (e: Event) => e.UD? || e.Delay?);
    forall k | PulseStart <= k < |t|
      ensures t[k].UD? || t[k].Delay?
    {
      assert t[k] == pulses[k - PulseStart];
    }
  }

  /** Whatever `step` is, the clock is pulsed exactly 2N times. */
  lemma ClockCount(light: uint8, upDown: bool, step: uint8)
    ensures Count(LightControl(light, upDown, step), Clk(true)) == 2 * N
    ensures Count(LightControl(light, upDown, step), Clk(false)) == 2 * N
  {
    PhaseCount(light, upDown, step, Clk(true));
    PhaseCount(light, upDown, step, Clk(false));
    ClockPhases(light, upDown, step, true);
    ClockPhases(light, upDown, step, false);
  }

  lemma ClockPhases(light: uint8, upDown: bool, step: uint8, level: bool)
    ensures PhaseSum(light, upDown, step, Clk(level)) == 2 * N
  {
    SetupCount(upDown, Clk(level));
    var e := Clk(level);
    GroupCount(true, e);
    RepeatCount(N, ClearBody, e, 1);
    GroupCount(true, e);
    GroupCount(false, e);
    RepeatCount(N, AddressBody(light), e, 1);
    PulseCount(upDown, e);
    RepeatCount(step, PulseBody(upDown), e, 0);
  }

  /** The up/down line is driven to `upDown` exactly `step` times,
      and to `!upDown` once more than that (the direction setup). */
  lemma StepCount(light: uint8, upDown: bool, step: uint8)
    ensures Count(LightControl(light, upDown, step), UD(upDown)) == step
    ensures Count(LightControl(light, upDown, step), UD(!upDown)) == step + 1
  {
    PhaseCount(light, upDown, step, UD(upDown));
    PhaseCount(light, upDown, step, UD(!upDown));
    StepPhases(light, upDown, step, upDown);
    StepPhases(light, upDown, step, !upDown);
  }

  lemma StepPhases(light: uint8, upDown: bool, step: uint8, level: bool)
    ensures PhaseSum(light, upDown, step, UD(level)) == step + (if level == upDown then 0 else 1)
  {
    SetupCount(upDown, UD(level));
    var e := UD(level);
    GroupCount(true, e);
    RepeatCount(N, ClearBody, e, 0);
    GroupCount(true, e);
    GroupCount(false, e);
    RepeatCount(N, AddressBody(light), e, 0);
    PulseCount(upDown, e);
    RepeatCount(step, PulseBody(upDown), e, 1);
  }

  /** First position `p >= i` of the addressing pass whose chip-select is low. */
  function FindSelected(t: seq<Event>, i: nat): (r: Option<nat>)
    requires |t| >= PulseStart
    ensures r.Some? ==> i <= r.value < N && t[AddressStart + r.value * GroupWidth] == CS(false)
    decreases N - i
  {
    if i >= N then None
    else if t[AddressStart + i * GroupWidth] == CS(false) then Some(i)
    else FindSelected(t, i + 1)
  }

  /** Reads back the call that produced a trace: the direction from the setup write,
      the channel from the low chip-select of the addressing pass, the step count
      from the length of the stepping pass. */
  function Decode(t: seq<Event>): (r: Option<Call>)
  {
    if |t| < PulseStart || (|t| - PulseStart) % PulseWidth != 0 then None
    else if (|t| - PulseStart) / PulseWidth >= 256 || !t[DirectionAt].UD? then None
    else match FindSelected(t, 0)
      case None => None
      case Some(p) => Some(Call(N - 1 - p, !t[DirectionAt].high, (|t| - PulseStart) / PulseWidth))
  }

  lemma {:induction false} FindSelectedIn(light: uint8, upDown: bool, step: uint8, i: nat)
    requires i <= N
    ensures FindSelected(LightControl(light, upDown, step), i)
      == (if light < N && i <= N - 1 - light then Some(N - 1 - light) else None)
    decreases N - i
  {
    Selection(light, upDown, step);
    if i < N {
      FindSelectedIn(light, upDown, step, i + 1);
    }
  }

  /** Round trip: the trace of an in-range call decodes to that very call, and the
      trace of an out-of-range call, which addresses no channel, decodes to nothing. */
  lemma DecodeLightControl(light: uint8, upDown: bool, step: uint8)
    ensures light < N ==> Decode(LightControl(light, upDown, step)) == Some(Call(light, upDown, step))
    ensures light >= N ==> Decode(LightControl(light, upDown, step)) == None
  {
    var t := LightControl(light, upDown, step);
    DirectionSetup(light, upDown, step);
    FindSelectedIn(light, upDown, step, 0);
    assert (|t| - PulseStart) / PulseWidth == step;
  }
}
