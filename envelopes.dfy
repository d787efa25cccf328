/** The messages the server receives and the messages it sends. */
module Envelopes {
  import opened JsValues

  /** The three payload types the server forwards without looking inside. */
  datatype RelayKind = Offer | Answer | IceCandidate

  /** An inbound message after `JSON.parse`, classified by its `type`. */
  datatype Envelope =
      /** `type: "join-room"`; neither field is checked. */
    | JoinRoom(from: Value, roomId: Value)
      /** `type` one of "offer", "answer", "ice-candidate"; `payload` stands
          for every other field, which the server never reads. */
    | Relay(kind: RelayKind, from: Value, to: Value, roomId: Value, payload: string)
      /** `type: "leave-room"` */
    | LeaveRoom
      /** Any other `type`, or none: no case of the switch matches. */
    | Unrecognised
      /** The text did not parse, or parsed to `null` so that reading
          `msg.type` threw: the handler's catch swallows it. */
    | Malformed

  /** What the server writes to a socket. */
  datatype OutMsg =
    | ExistingUsers(users: seq<Value>)
    | UserJoined(from: Value)
    | UserLeft(from: Value)
      /** A relayed envelope, re-serialised as received. */
    | Forwarded(env: Envelope)

  /** One call of `send` on the socket `to`. */
  datatype Delivery = Delivery(to: ConnId, msg: OutMsg)
}
