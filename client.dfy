/**
 * The `PartyLineSub` object of lib/index.js: its identity pair, the ordered
 * subscription list, the append-only handler table, the `send` channel, and
 * the two listeners on its input stream.
 *
 * Standard output is the field `output`: `send` appends the packet it is
 * given. The user callbacks are opaque, so each call of one is recorded in
 * `calls`; whether the callback at a given position of the table throws on
 * a packet is given to the `data` listener as the parameter `throws`.
 */
module Client {
  import opened Wrappers
  import opened Packets
  import Subscriptions
  import Dispatch

  class PartyLineSub<C> {
    var workerId: string
    var busId: string
    /** `listen_context`: the contexts this client subscribes to, in order. */
    var listenContext: seq<string>
    /** `packet_handlers`: the registrations made by `on`, in order. */
    var packetHandlers: seq<Registration<C>>
    /** Every packet written to standard output, in order. */
    var output: seq<OutPacket>
    /** Every callback invocation made by the `data` listener, in order. */
    var calls: seq<Invocation<C>>
    /** JavaScript's regular-expression search: does the expression whose
        source text is the second argument find a match in the first? */
    const search: (string, string) -> bool
    /** Whether a text is valid regular-expression syntax. */
    const compiles: string -> bool

    /** A new client has no identity, no subscription and no handler, and has
        written nothing. */
    constructor (compiles: string -> bool, search: (string, string) -> bool)
      ensures workerId == "" && busId == ""
      ensures listenContext == [] && packetHandlers == []
      ensures output == [] && calls == []
      ensures this.compiles == compiles && this.search == search
    {
      workerId, busId := "", "";
      listenContext, packetHandlers := [], [];
      output, calls := [], [];
      this.compiles, this.search := compiles, search;
    }

    /** `send`: write one packet to the bus. */
    method Send(packet: OutPacket)
      modifies this`output
      ensures output == old(output) + [packet]
    {
      output := output + [packet];
    }

    /** Announce the whole current subscription list to the bus. */
    method SendSetListenerContext()
      modifies this`output
      ensures output == old(output) + [SetListenContext(listenContext)]
      ensures output[|output| - 1].Context() == Some("bus")
      ensures output[|output| - 1].Type() == "setListenContext"
    {
      Send(SetListenContext(listenContext));
    }

    /** Subscribe to one more context, at the end of the list (duplicates are
        kept), and announce the new list. */
    method AddListeningContext(newContext: string)
      modifies this`listenContext, this`output
      ensures listenContext == old(listenContext) + [newContext]
      ensures output == old(output) + [SetListenContext(listenContext)]
    {
      listenContext := listenContext + [newContext];
      SendSetListenerContext();
    }

    /** Drop every subscription equal to `deleteContext`, keeping the others
        in order, and announce the new list, even when nothing was dropped. */
    method RemoveListeningContext(deleteContext: string)
      modifies this`listenContext, this`output
      ensures listenContext == Subscriptions.Without(old(listenContext), deleteContext)
      ensures output == old(output) + [SetListenContext(listenContext)]
    {
      var stack := listenContext;
      var newContextStack := [];
      var i := 0;
      while i < |stack|
        invariant 0 <= i <= |stack|
        invariant newContextStack == Subscriptions.Without(stack[..i], deleteContext)
        invariant listenContext == stack && output == old(output)
      {
        Subscriptions.WithoutSnoc(stack[..i], stack[i], deleteContext);
        assert stack[..i + 1] == stack[..i] + [stack[i]];
        if stack[i] != deleteContext {
          newContextStack := newContextStack + [stack[i]];
        }
        i := i + 1;
      }
      assert stack[..i] == stack;
      listenContext := newContextStack;
      SendSetListenerContext();
    }

    /** `on`: register `callback` for packets of type `packetType`, after
        every earlier registration. */
    method On(packetType: string, callback: C)
      modifies this`packetHandlers
      ensures packetHandlers == old(packetHandlers) + [Registration(packetType, callback)]
    {
      packetHandlers := packetHandlers + [Registration(packetType, callback)];
    }

    /** The `data` listener. A packet without a context, or one the
        subscription pattern does not match, is dropped. A subscription list
        whose comma-joined text is not a valid regular expression makes
        `match` throw for every packet with a context, before any callback. Otherwise the handler
        table is walked in order and each registration whose type equals the
        packet's is called with it; a callback that throws ends the walk and
        the exception leaves the listener. Nothing is written to the bus and
        neither list changes. */
    method OnData(packet: InPacket, throws: (nat, InPacket) -> bool) returns (outcome: Delivery)
      modifies this`calls
      ensures Dispatch.PatternThrows(compiles, listenContext, packet) ==>
                outcome == PatternError && calls == old(calls)
      ensures !Dispatch.PatternThrows(compiles, listenContext, packet) &&
              !Dispatch.Accepted(compiles, search, listenContext, packet) ==>
                outcome == Dropped && calls == old(calls)
      ensures Dispatch.Accepted(compiles, search, listenContext, packet) ==>
                calls == old(calls) + Dispatch.Invoked(packetHandlers, packet, throws)
      ensures Dispatch.Accepted(compiles, search, listenContext, packet) ==>
                var f := Dispatch.FirstFault(packetHandlers, packet, throws);
                outcome == if f < |packetHandlers| then Raised(f) else Delivered
    {
      if Dispatch.PatternThrows(compiles, listenContext, packet) {
        return PatternError;
      }
      if !Dispatch.Accepted(compiles, search, listenContext, packet) {
        return Dropped;
      }
      var handlers := packetHandlers;
      var i := 0;
      while i < |handlers|
        invariant 0 <= i <= |handlers|
        invariant forall j :: 0 <= j < i ==> !Dispatch.Faults(handlers, j, packet, throws)
        invariant calls == old(calls) + Dispatch.Dispatched(handlers, packet, i)
        invariant packetHandlers == handlers
      {
        var handler := handlers[i];
        ghost var before := Dispatch.Dispatched(handlers, packet, i);
        if packet.ptype == Some(handler.packetType) {
          calls := calls + [Invocation(i, handler.callback, packet)];
          assert calls == old(calls) + (before + [Invocation(i, handler.callback, packet)]);
          if throws(i, packet) {
            Dispatch.StopsAt(handlers, packet, throws, i);
            return Raised(i);
          }
        }
        i := i + 1;
      }
      Dispatch.RunsToEnd(handlers, packet, throws);
      return Delivered;
    }

    /** The `error` listener: report a stream error to the bus. */
    method OnError(err: string)
      modifies this`output
      ensures output == old(output) + [StreamError(err)]
      ensures output[|output| - 1].Context() == None
      ensures output[|output| - 1].Type() == "error"
    {
      Send(StreamError(err));
    }
  }

  /** A session as a caller sees it through the contracts alone. */
  method ExampleSession(compiles: string -> bool, search: (string, string) -> bool)
  {
    var client := new PartyLineSub<nat>(compiles, search);
    client.AddListeningContext("orders");
    client.AddListeningContext("audit");
    client.AddListeningContext("orders");
    assert client.listenContext == ["orders", "audit", "orders"];
    client.RemoveListeningContext("orders");
    assert client.listenContext == ["audit"] by {
      var s := ["orders", "audit", "orders"];
      assert s[1..] == ["audit", "orders"] && s[1..][1..] == ["orders"];
    }
    client.RemoveListeningContext("orders");
    assert client.listenContext == ["audit"];
    assert |client.output| == 5 && client.output[0] == SetListenContext(["orders"]);
    assert client.output[3] == client.output[4] == SetListenContext(["audit"]);
    assert client.workerId == "" && client.busId == "";
  }
}
