/** Rooms as the discovery feed sees them (farcaster-audio/types/space.ts, services/api.ts). */
module Spaces {
  import opened JsStrings
  import opened Options

  /** A timestamp's text: one `Date.parse` cannot read, or a time in milliseconds. */
  datatype Stamp = Unreadable | At(ms: int)

  datatype Status = Active | Scheduled | Ended

  /** A Juke-hosted room; `farcasterRoomId` is empty when the room mirrors none. */
  datatype Room = Room(
    id: JsString,
    status: Status,
    startedAt: Option<Stamp>,
    scheduledAt: Option<Stamp>,
    farcasterRoomId: JsString)

  /** A Farcaster-native space; `Active` is its state "live". */
  datatype NativeSpace = NativeSpace(
    id: JsString,
    state: Status,
    startedAt: Option<Stamp>,
    scheduledAt: Option<Stamp>)
}
