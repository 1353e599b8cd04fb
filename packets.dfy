/**
 * The values that cross the client's boundary: packets read from the bus,
 * packets written to it, handler registrations, and the record of one
 * callback invocation.
 */
module Packets {
  import opened Wrappers

  /** An inbound JSON packet. Only `context` and `type` are inspected by the
      client; the rest of the object is carried along as `payload`. */
  datatype InPacket = InPacket(context: Option<string>, ptype: Option<string>, payload: string)

  /** An outbound packet, as handed to `send`. */
  datatype OutPacket =
    | /** `{context: "bus", type: "setListenContext", listen_context: [...]}` */
      SetListenContext(listenContext: seq<string>)
    | /** `{type: 'error', data: err}` */
      StreamError(data: string)
  {
    /** The packet's `context` field; the error packet has none. */
    function Context(): Option<string>
    {
      if SetListenContext? then Some("bus") else None
    }

    /** The packet's `type` field. */
    function Type(): string
    {
      if SetListenContext? then "setListenContext" else "error"
    }
  }

  /** One entry of `packet_handlers`: `{packet_type, cb_packet_handler}`. */
  datatype Registration<C> = Registration(packetType: string, callback: C)

  /** One call `packet_handlers[registration].cb_packet_handler(packet)`. */
  datatype Invocation<C> = Invocation(registration: nat, callback: C, packet: InPacket)

  /** How the `data` listener finished with one packet. */
  datatype Delivery =
    | /** the packet had no context or was not for this client */
      Dropped
    | /** the subscription list is not a valid regular expression: `match`
          threw a `SyntaxError` and no callback ran */
      PatternError
    | /** every matching callback ran and returned */
      Delivered
    | /** the callback of this registration threw; the dispatch loop stopped there */
      Raised(registration: nat)
}
