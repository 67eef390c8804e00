/** The whole controller: desired levels written by the event handler,
    applied levels owned by the main loop. */
module Controller {
  import opened Types
  import opened Trace
  import opened Driver
  import opened WebSocket
  import opened Reconcile

  /** `lightLevel` (desired) and the loop's static `lightLevelPrevious` (applied). */
  datatype State = State(lightLevel: Levels, lightLevelPrevious: Levels)

  /** Both arrays start at zero. */
  const Init: State := State(Zero, Zero)

  /** A transport event: only the desired levels may change. */
  function Receive(s: State, ev: WsEvent): (r: State)
    requires EventReadable(ev)
    ensures r.lightLevelPrevious == s.lightLevelPrevious
  {
    s.(lightLevel := OnWebSocketEvent(s.lightLevel, ev))
  }

  /** One iteration of `loop`: the applied levels catch up with the desired ones. */
  function Tick(s: State): (r: (State, Pass))
    ensures r.0.lightLevel == s.lightLevel
    ensures r.0.lightLevelPrevious == s.lightLevel
    ensures CallsSpec(s.lightLevel, s.lightLevelPrevious, r.1.calls)
  {
    var p := Loop(s.lightLevel, s.lightLevelPrevious);
    (s.(lightLevelPrevious := p.previous), p)
  }

  /** A set-point frame `[c, v]` as the control surface sends it. */
  function SetPoint(c: uint8, v: uint8): WsEvent
  {
    Data(FrameInfo(true, 0, 2, Binary), [c, v])
  }

  /** Convergence: after any events and one loop iteration, every channel's applied
      level equals its desired level, and a further iteration without events issues
      no driver call and writes no pin. */
  lemma Convergence(s: State, evs: seq<WsEvent>)
    requires forall k :: 0 <= k < |evs| ==> EventReadable(evs[k])
    ensures Tick(ReceiveAll(s, evs)).0.lightLevelPrevious == ReceiveAll(s, evs).lightLevel
    ensures Tick(Tick(ReceiveAll(s, evs)).0).1.calls == []
    ensures Tick(Tick(ReceiveAll(s, evs)).0).1.trace == [Delay(LoopDelayUs)]
  {
    LoopIdempotent(ReceiveAll(s, evs).lightLevel, ReceiveAll(s, evs).lightLevelPrevious);
  }

  /** Events applied in order. */
  function ReceiveAll(s: State, evs: seq<WsEvent>): (r: State)
    requires forall k :: 0 <= k < |evs| ==> EventReadable(evs[k])
    ensures r.lightLevelPrevious == s.lightLevelPrevious
    decreases |evs|
  {
    if |evs| == 0 then s else ReceiveAll(Receive(s, evs[0]), evs[1..])
  }

  /** Repeating the current set-point of a settled channel produces no drive for
      that channel, whatever the other channels are doing. */
  lemma RepeatedSetPoint(s: State, c: uint8)
    requires c < N
    requires s.lightLevelPrevious[c] == s.lightLevel[c]
    ensures forall k :: 0 <= k < |Tick(Receive(s, SetPoint(c, s.lightLevel[c]))).1.calls| ==>
      Tick(Receive(s, SetPoint(c, s.lightLevel[c]))).1.calls[k].light != c
  {
    var s' := Receive(s, SetPoint(c, s.lightLevel[c]));
    assert s'.lightLevel == s.lightLevel;
  }

  /** When every channel is settled, repeating any channel's set-point produces no drive at all. */
  lemma RepeatedSetPointSettled(s: State, c: uint8)
    requires c < N
    requires s.lightLevelPrevious == s.lightLevel
    ensures Tick(Receive(s, SetPoint(c, s.lightLevel[c]))).1.calls == []
  {
    var s' := Receive(s, SetPoint(c, s.lightLevel[c]));
    assert s'.lightLevel == s.lightLevel;
    CallsPerPending(s.lightLevel, s.lightLevel, Tick(s').1.calls);
    assert Pending(s.lightLevel, s.lightLevel) == {};
  }

  /** When exactly one channel is pending, the pass issues exactly one call, for
      that channel, with the exact distance as step and `UP` iff the level drops. */
  lemma SinglePending(s: State, c: uint8)
    requires c < N
    requires forall x :: 0 <= x < N ==> (s.lightLevel[x] != s.lightLevelPrevious[x] <==> x == c)
    ensures |Tick(s).1.calls| == 1
    ensures Tick(s).1.calls[0].light == c
    ensures Tick(s).1.calls[0].step == Abs(s.lightLevelPrevious[c] as int - s.lightLevel[c])
    ensures Tick(s).1.calls[0].upDown == UP <==> s.lightLevelPrevious[c] > s.lightLevel[c]
  {
    var calls := Tick(s).1.calls;
    CallsPerPending(s.lightLevel, s.lightLevelPrevious, calls);
    assert Pending(s.lightLevel, s.lightLevelPrevious) == {c as int};
    assert Due(s.lightLevel, s.lightLevelPrevious, calls[0]);
    assert calls[0].light in Lights(calls);
  }

  /** From power-up, the frame `[0, 32]` drives channel 0 by 32 steps with the
      `DOWN` flag (the level rises). */
  lemma ScenarioRaise()
    ensures Tick(Receive(Init, SetPoint(0, 32))).1.calls == [Call(0, DOWN, 32)]
    ensures Tick(Receive(Init, SetPoint(0, 32))).0 == State([32, 0], [32, 0])
  {
    var s := Receive(Init, SetPoint(0, 32));
    assert s.lightLevel == [32, 0];
    SinglePending(s, 0);
  }

  /** Then `[0, 10]` drives channel 0 by 22 steps with the `UP` flag (the level falls). */
  lemma ScenarioLower()
    ensures Tick(Receive(State([32, 0], [32, 0]), SetPoint(0, 10))).1.calls == [Call(0, UP, 22)]
    ensures Tick(Receive(State([32, 0], [32, 0]), SetPoint(0, 10))).0 == State([10, 0], [10, 0])
  {
    var s := Receive(State([32, 0], [32, 0]), SetPoint(0, 10));
    assert s.lightLevel == [10, 0];
    SinglePending(s, 0);
  }

  /** Then `[1, 5]` and a repeated `[0, 10]` drive only channel 1, by 5 steps. */
  lemma ScenarioOther()
    ensures Tick(Receive(Receive(State([10, 0], [10, 0]), SetPoint(1, 5)), SetPoint(0, 10))).1.calls
      == [Call(1, DOWN, 5)]
    ensures Tick(Receive(Receive(State([10, 0], [10, 0]), SetPoint(1, 5)), SetPoint(0, 10))).0
      == State([10, 5], [10, 5])
  {
    var s := Receive(Receive(State([10, 0], [10, 0]), SetPoint(1, 5)), SetPoint(0, 10));
    assert s.lightLevel == [10, 5];
    SinglePending(s, 1);
  }
}
