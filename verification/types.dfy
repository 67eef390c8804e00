/** Fixed-size state shared by every part of the dimmer controller. */
module Types {

  /** Number of dimmer channels on the daisy chain (NUMBER_OF_LIGHTS). */
  const N: nat := 2

  /** An 8-bit unsigned value, as `uint8_t`. */
  type uint8 = x: int | 0 <= x < 256

  /** One level per channel, as the `uint8_t[NUMBER_OF_LIGHTS]` arrays. */
  type Levels = s: seq<uint8> | |s| == N witness [0, 0]

  /** Both arrays start zero-initialised. */
  const Zero: Levels := [0, 0]

  datatype Option<T> = None | Some(value: T)

  /** Logical wiper directions as passed to the driver (`#define DOWN 0u`, `#define UP 1u`). */
  const DOWN: bool := false
  const UP: bool := true
}
