# Two-channel dimmer controller: Dafny model

This project models the control logic of a small ESP8266 firmware. The firmware drives
two daisy-chained digital potentiometers (light dimmers) over three bit-banged lines:
chip-select, clock and up/down. It receives a desired level per channel over a WebSocket.
The model covers three parts of `src/main.cpp`:

- **Wiper driver** (`LightControl`, module `Driver`). Every pin write and every
  microsecond busy-wait becomes an event in a trace (`seq<Event>`):
  `CS(high)`, `Clk(high)`, `UD(high)` and `Delay(us)`. `Driver.LightControl` builds
  the trace from the source's four phases:
  - a clear pass of `NUMBER_OF_LIGHTS` clock cycles with chip-select high;
  - the up/down line set to `!upDown`;
  - an addressing pass that drives chip-select low only at position
    `(NUMBER_OF_LIGHTS - 1) - light`;
  - `step` up/down pulses.

  The position is computed exactly as the C expression does it, in `unsigned int`
  (modulo 2^32). So an out-of-range `light` is modelled too: it addresses no channel.
- **Set-point channel** (the `WS_EVT_DATA` branch of `onWebSocketEvent`, module
  `WebSocket`). A pure update of the desired-level array `lightLevel`.
- **Reconciliation pass** (the body of `loop`, module `Reconcile`). For each channel,
  in ascending order, it compares the desired level with the static
  `lightLevelPrevious`. It computes the `int16_t` difference, issues one driver call
  and records the new applied level. The `int16_t` and `uint8_t` conversions are
  written out as modular wrap-arounds, and the model proves that both are lossless here.
  The direction flag is the one the code passes: `UP` (1) when the level falls
  (`previous > desired`), and `DOWN` (0) otherwise.

Module `Controller` puts the two arrays into one state. It applies events and loop
iterations to that state and proves convergence, idempotence and the power-up scenario.
`Trace` holds the event type, an occurrence count and a generic `for`-loop combinator
(`Repeat`) with its block-position and counting lemmas. `Types` holds `uint8`, the
channel count `N = 2` and the level arrays.

Two places where the code differs from what its own text suggests. The model follows
the code in both:

- The doc comment of `LightControl` says "0 for down 1 for up" (`src/main.cpp:27`), and
  `UP` is `1u` (`src/main.cpp:13`). Yet `loop` passes `UP` when `previous > desired`,
  that is, when the level falls, and `DOWN` when it rises (`src/main.cpp:128-134`).
- The control page sends two-byte frames `[lightId, value]` (`src/main.cpp:230`). But the
  handler only checks that the frame length matches the buffer length
  (`info->len == len`, `src/main.cpp:83`). It then reads `data[0]` and `data[1]`
  without checking the length. `WebSocket.OnData` therefore requires those bytes to be
  present on the paths where they are read (`WebSocket.Readable`), and adds no length
  check of its own.

The code has no clamp on the step count; `Reconcile.CallFor` proves the step is the
exact distance.

## Model

| member | source | states |
|---|---|---|
| Driver.LightControl | src/main.cpp:30-67 | the trace has 6 events per clock cycle for 2N cycles, 2 for the direction setup, and 4 per step, so its length grows by exactly 4 per requested step |
| Driver.SelectIndex | src/main.cpp:51 | the chip-select index `(N-1) - light`, taken in unsigned int, is the reversed channel for `light < N` and lies outside `0..N-1` for every out-of-range 8-bit `light` |
| Driver.ClearPassShape | src/main.cpp:33-43 | the trace opens with exactly N groups (CS high, delay, clock 1, delay, clock 0, delay), and the up/down line is not written during them |
| Driver.DirectionSetup | src/main.cpp:45-46 | right after the clear pass the up/down line is written to `!upDown`, followed by the settle delay; no other up/down write happens before the stepping pass |
| Driver.AddressingShape | src/main.cpp:48-58 | addressing position `i` writes chip-select low exactly when `i` equals the reversed index, then clock 1, then clock 0 |
| Driver.Selection | src/main.cpp:48-58 | for `light < N` the chip-select write at position `(N-1) - light` is low; every other position is high |
| Driver.SelectionCount | src/main.cpp:26-58 | over the whole trace chip-select goes low exactly once when `light < N` and never when `light >= N` |
| Driver.PulseShape | src/main.cpp:60-66 | after addressing come exactly `step` pulses (UD := upDown, UD := !upDown), and nothing but up/down writes and delays |
| Driver.ClockCount | src/main.cpp:33-58 | whatever `step` is, the clock goes high 2N times and low 2N times |
| Driver.StepCount | src/main.cpp:45-66 | the up/down line is driven to `upDown` exactly `step` times and to `!upDown` `step + 1` times; so `step = 0` gives no pulse |
| Driver.DecodeLightControl | src/main.cpp:30-67 | round trip: decoding the trace of an in-range call gives back `(light, upDown, step)`; an out-of-range call's trace decodes to nothing |
| WebSocket.OnData | src/main.cpp:79-89 | an accepted frame (final, index 0, length matches, binary, `data[0] < N`) sets slot `data[0]` to `data[1]`; every other slot, and every slot on rejection, keeps its level |
| WebSocket.OnWebSocketEvent | src/main.cpp:69-91 | connect, disconnect and other non-data events leave the desired levels unchanged |
| WebSocket.FrameUpdate | src/main.cpp:83-88 | the two-byte binary frame `[c, v]` with `c < N` yields the levels with only slot `c` replaced by `v` |
| WebSocket.FrameRejection | src/main.cpp:83-85 | a non-final, non-zero-index, length-mismatched, non-binary or out-of-range frame changes nothing; the levels stay the same iff the frame is rejected or repeats the current value |
| Reconcile.ToInt16 | src/main.cpp:127 | the `int16_t` conversion lands in [-32768, 32767], agrees with its argument modulo 2^16, and is the identity on that range |
| Reconcile.ToUint8 | src/main.cpp:130-134 | the `uint8_t` conversion agrees with its argument modulo 2^8 and is the identity on 0..255 |
| Reconcile.CallFor | src/main.cpp:127-135 | for unequal levels the call addresses the channel, its step is exactly the distance (positive, no truncation), and its flag is `UP` iff `previous > desired` |
| Reconcile.ReconcileFrom | src/main.cpp:123-138 | after iterations `i..N-1`, channels below `i` keep their applied level, channels from `i` on hold the desired level, and the trace is the calls' traces in order |
| Reconcile.ReconcileFromSpec | src/main.cpp:123-137 | the calls of iterations `i..N-1` are due calls for channels at or above `i`, in strictly ascending channel order, covering every unequal channel from `i` on |
| Reconcile.Loop | src/main.cpp:119-140 | one loop iteration leaves applied = desired, issues calls meeting the reference description (due, ascending, complete), and emits their traces followed by the 10 ms delay |
| Reconcile.CallsPerPending | src/main.cpp:123-137 | calls meeting the reference description address exactly the unequal channels, one call each |
| Reconcile.LoopIdempotent | src/main.cpp:125 | a second iteration with no new set-point issues no call and writes no pin, only the idle delay |
| Reconcile.DrivesSelections | src/main.cpp:123-137 | for any sequence of in-range calls, chip-select goes low once per call and the clock rises 2N times per call |
| Reconcile.LoopSelections | src/main.cpp:119-140 | over a whole loop iteration, chip-select goes low once per pending channel and the clock rises 2N times per pending channel |
| Controller.Receive | src/main.cpp:69-91 | events never touch the applied levels |
| Controller.ReceiveAll | src/main.cpp:69-91 | a sequence of events never touches the applied levels |
| Controller.Tick | src/main.cpp:119-140 | a loop iteration keeps the desired levels, brings the applied levels to them, and its calls meet the reference description |
| Controller.Convergence | src/main.cpp:119-140 | after any events and one iteration, applied equals desired, and the next iteration with no events has no call and only the idle delay |
| Controller.RepeatedSetPoint | src/main.cpp:83-137 | resending a settled channel's current level produces no driver call for that channel, whatever the other channels are doing |
| Controller.RepeatedSetPointSettled | src/main.cpp:83-137 | when every channel is settled, resending any channel's current level produces no driver call at all |
| Controller.SinglePending | src/main.cpp:123-137 | with exactly one unequal channel, the pass makes exactly one call, for that channel, with the exact distance and `UP` iff the level falls |
| Controller.ScenarioRaise | src/main.cpp:127-136 | from power-up, frame `[0, 32]` gives the single call `(0, DOWN, 32)` and applied levels `[32, 0]` |
| Controller.ScenarioLower | src/main.cpp:127-136 | then frame `[0, 10]` gives the single call `(0, UP, 22)` and applied levels `[10, 0]` |
| Controller.ScenarioOther | src/main.cpp:127-136 | then frames `[1, 5]` and `[0, 10]` give only the call `(1, DOWN, 5)` and applied levels `[10, 5]` |

## Left out

- WiFi access-point setup, HTTP server, WebSocket registration and `pinMode` setup (`src/main.cpp:95-117`): I/O plumbing over libraries outside the model.
- Serial logging, including the connect and disconnect messages (`src/main.cpp:71-78`, `97-99`): these branches are modelled as no-ops on the levels.
- Real timing: `delayMicroseconds(5u)` and `delay(10)` are opaque `Delay(5)` and `Delay(10000)` events with no clock semantics.
- The embedded HTML/JavaScript control page and its 0-63 slider range (`src/main.cpp:142-237`): presentation only; the handler applies no range limit, and neither does the model.
- Physical wiper position, the shift-register behaviour of the chips and any feedback: the control is open loop, so properties are stated over the emitted trace only.
- Reading `data[0]` or `data[1]` past the end of a frame (length 0, or length 1 with `data[0] < N`): the code does not check for it and its effect depends on memory outside the frame. `WebSocket.OnData` requires those bytes instead.
- Interleaving of the transport callback with the loop: the source runs both on one thread, so events and loop iterations are modelled as separate, atomic steps.
