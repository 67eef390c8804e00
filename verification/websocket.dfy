/** The set-point channel: the `WS_EVT_DATA` branch of the WebSocket event handler. */
module WebSocket {
  import opened Types

  /** Frame opcodes of section 5.2 of RFC 6455. */
  datatype Opcode = Continuation | Text | Binary | Close | Ping | Pong

  /** Per-frame information the transport passes with a data event. */
  datatype FrameInfo = FrameInfo(final: bool, index: nat, len: nat, opcode: Opcode)

  /** The events the transport delivers to the handler. */
  datatype WsEvent =
    | Connect
    | Disconnect
    | PongReceived
    | Error
    | Data(info: FrameInfo, data: seq<uint8>)

  /** The frame is a whole message on its own: final, starting at offset 0,
      all of it in this buffer, and binary. */
  predicate WholeBinary(info: FrameInfo, len: nat)
  {
    info.final && info.index == 0 && info.len == len && info.opcode == Binary
  }

  /** The frame addresses an existing channel, and so is applied. */
  predicate Applies(info: FrameInfo, data: seq<uint8>)
    requires WholeBinary(info, |data|) ==> |data| >= 1
  {
    WholeBinary(info, |data|) && data[0] < N
  }

  /** The handler reads `data[0]` once the header checks pass and `data[1]` once the
      channel check passes, without ever comparing `len` with 2. The model demands
      those bytes be present exactly where they are read. */
  predicate Readable(info: FrameInfo, data: seq<uint8>)
  {
    WholeBinary(info, |data|) ==> |data| >= 1 && (data[0] < N ==> |data| >= 2)
  }

  /** Effect of one data frame on the desired levels. */
  function OnData(lightLevel: Levels, info: FrameInfo, data: seq<uint8>): (r: Levels)
    requires Readable(info, data)
    ensures Applies(info, data) ==> r[data[0]] == data[1]
    ensures forall c :: 0 <= c < N && (!Applies(info, data) || c != data[0]) ==> r[c] == lightLevel[c]
  {
    if WholeBinary(info, |data|) && data[0] < N then
      lightLevel[data[0] := data[1]]
    else
      lightLevel
  }

  predicate EventReadable(ev: WsEvent)
  {
    ev.Data? ==> Readable(ev.info, ev.data)
  }

  /** Effect of any event: only data events change the desired levels. */
  function OnWebSocketEvent(lightLevel: Levels, ev: WsEvent): (r: Levels)
    requires EventReadable(ev)
    ensures !ev.Data? ==> r == lightLevel
  {
    match ev
    case Data(info, data) => OnData(lightLevel, info, data)
    case _ => lightLevel
  }

  /** A final, unfragmented binary frame `[c, v]` with `c < N` sets channel `c`
      to `v` and leaves every other channel alone. */
  lemma FrameUpdate(lightLevel: Levels, c: uint8, v: uint8)
    requires c < N
    ensures OnData(lightLevel, FrameInfo(true, 0, 2, Binary), [c, v]) == lightLevel[c := v]
  {
  }

  /** A frame that is not final, not at index 0, shorter or longer than announced,
      not binary, or addressing a channel `>= N` leaves every level unchanged;
      and those are the only frames that can leave a level unchanged when it
      differs from the frame's value. */
  lemma FrameRejection(lightLevel: Levels, info: FrameInfo, data: seq<uint8>)
    requires Readable(info, data)
    ensures !info.final || info.index != 0 || info.len != |data| || info.opcode != Binary
      || (|data| >= 1 && data[0] >= N)
      ==> OnData(lightLevel, info, data) == lightLevel
    ensures OnData(lightLevel, info, data) == lightLevel <==>
      !Applies(info, data) || lightLevel[data[0]] == data[1]
  {
    if Applies(info, data) && lightLevel[data[0]] != data[1] {
      assert OnData(lightLevel, info, data)[data[0]] != lightLevel[data[0]];
    }
  }
}
