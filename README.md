# party-line-sub: the subsystem client, in Dafny

This project models `PartyLineSub`, the client object a worker process uses to
talk to the party-line bus over standard input and output (lib/index.js). The
client holds four things:

- an identity pair, `worker_id` and `bus_id`;
- an ordered subscription list, `listen_context`;
- an append-only handler table, `packet_handlers`;
- an outbound channel, `send`.

Every subscription change is announced to the bus with one `setListenContext`
packet. Inbound packets are filtered by their `context` and handed to the
registered callbacks whose `packet_type` equals the packet's `type`.

Modules:

- `Wrappers`: `Option`, for JSON fields that may be absent.
- `Packets`: inbound packets, the two kinds of outbound packet, handler
  registrations, and the record of one callback call.
- `Subscriptions`: `Without`, the list `removeListeningContext` builds.
  `Pattern`, the text of the regular expression JavaScript makes from the list.
  Lemmas about both.
- `Dispatch`: the `data` listener's decision as functions. `PatternThrows`
  says whether building the regular expression fails. `Accepted` says
  whether a packet is for this client. `Matching` gives the registrations that
  fire. `FirstFault` finds where a throwing callback stops the loop.
  `Dispatched` and `Invoked` give the calls made.
- `Client`: the class `PartyLineSub<C>`, with one method per operation of the
  source. `C` is the type of callback values.

State that is outside the program is made explicit:

- Standard output is the field `output`. `send` appends the packet it is
  given.
- Callbacks are opaque. Each call of one is appended to the field `calls`.
- Whether the callback at position `i` of the handler table throws on a
  packet is `throws(i, packet)`, a parameter of the `data` listener.
- JavaScript's regular expressions are two constants of the client.
  `compiles(source)` is true when the source is valid syntax.
  `search(text, source)` is true when the expression with that source text
  finds a match in `text`.

What the model shows about context matching. Line 107 passes the subscription
array to `String.prototype.match`. JavaScript converts the array to one regular
expression whose source is the entries joined by `,`, so:

- A subscription list whose comma-joined text is not valid regular-expression
  syntax, such as `["*"]` or `["("]`, makes `match` throw for every packet
  that has a context, before any callback runs. `OnData` returns
  `PatternError` then. One invalid entry does not always make the joined text
  invalid: `["orders", "*"]` joins to `orders,*`, which is valid (`,*` means
  zero or more commas).
- The lemmas below assume the regular expressions behave as JavaScript's do on
  sources made of lower-case letters and commas (`LiteralRegex`): such a
  source is valid, and a search finds its text.
- With no subscription, the pattern is empty. The empty regular expression
  matches every string, so every packet with a context is accepted
  (`EmptySubscriptionAcceptsAll`).
- With literal subscriptions, a packet is accepted exactly when its context
  contains the whole joined text (`LiteralAcceptance`).
- With two or more literal subscriptions, a packet whose context is exactly
  one of them is dropped (`JoinedSubscriptionsRejectEach`). With a single
  subscription, a context containing it is accepted
  (`SingleSubscriptionAccepts`).
- A subscription containing a comma, such as `["a,b"]`, gives the same
  pattern as the two subscriptions on either side of it, `["a", "b"]`
  (`CommaJoinConflates`).

The model follows lib/index.js as written. In particular:

- Matching is a regular-expression search over the joined list, not a test
  that the context starts with one of the subscribed prefixes.
- A context equal to `worker_id` is not accepted on that ground alone.
- Packets `from` the bus get no special treatment.
- There is no wildcard handler type.
- A callback that throws ends the dispatch loop. The callbacks after it do not
  run, and the exception leaves the listener (`FaultStopsDispatch`). Callbacks
  are not isolated from each other.

## Model

| member | source | states |
|---|---|---|
| `Client.PartyLineSub.constructor` | lib/index.js:18-35 | A new client has `worker_id == ""`, `bus_id == ""`, no subscription, no handler, and nothing written or called. It keeps the given regular-expression primitives. No method's frame includes `workerId` or `busId`, so nothing changes them afterwards. |
| `Client.PartyLineSub.Send` | lib/index.js:32-34 | `send` writes exactly the given packet after everything written before. |
| `Client.PartyLineSub.SendSetListenerContext` | lib/index.js:44-52 | Writes one packet `{context: "bus", type: "setListenContext", listen_context}` carrying the current list. Nothing else changes. |
| `Client.PartyLineSub.AddListeningContext` | lib/index.js:58-63 | The new list is the old list with the context appended at the end, duplicates kept. Exactly one announcement of the new list is written. The handler table and the identity are untouched. |
| `Client.PartyLineSub.RemoveListeningContext` | lib/index.js:69-82 | The loop builds `Without(old list, d)`: every entry equal to `d` goes and the others stay in order. Exactly one announcement of the new list is written, also when nothing was removed. The handler table is untouched. |
| `Client.PartyLineSub.On` | lib/index.js:90-98 | Appends exactly one registration `{packet_type, cb_packet_handler}` after all earlier ones. No registration is removed or reordered, and several may share a type. |
| `Client.PartyLineSub.OnData` | lib/index.js:103-117 | A packet with a context, under a subscription list that is not a valid regular expression, ends in `PatternError` and calls nothing. A packet with no context, or one the subscription pattern does not match, is `Dropped` and calls nothing. For an accepted packet, the calls made are `Invoked(handlers, packet, throws)`: the registrations whose type equals the packet's, in order, up to and including the first callback that throws. The outcome is `Raised(f)` at the first throw and `Delivered` otherwise. Nothing is written, and neither list changes. |
| `Client.PartyLineSub.OnError` | lib/index.js:123-129 | A stream error writes exactly one packet `{type: 'error', data: err}`, which has no context. |
| `Subscriptions.Without` | lib/index.js:72-78 | The filtered list is no longer than the original, contains no entry equal to the removed context, and contains only entries of the original. |
| `Subscriptions.WithoutConcat` | lib/index.js:74-78 | Filtering a concatenation is the concatenation of the filtered parts, so the list can be filtered entry by entry. |
| `Subscriptions.WithoutSnoc` | lib/index.js:74-78 | One more iteration of the `forEach` appends the entry exactly when it differs from the removed context. |
| `Subscriptions.WithoutIsSubsequence` | lib/index.js:72-80 | The surviving entries keep their relative order. |
| `Subscriptions.WithoutCounts` | lib/index.js:72-80 | All occurrences of the removed context go, not only the first. Every other entry keeps its number of occurrences. |
| `Subscriptions.WithoutAbsent` | lib/index.js:72-80 | Removing a context that is not subscribed leaves the list unchanged. |
| `Subscriptions.WithoutIdempotent` | lib/index.js:69-82 | Removing the same context twice gives the same list as removing it once. |
| `Subscriptions.WithoutCommutes` | lib/index.js:69-82 | Removing two contexts in either order gives the same list. |
| `Subscriptions.AddThenRemove` | lib/index.js:58-82 | Adding then removing `d` gives the old list without `d`. The old list comes back exactly when `d` was not subscribed before. |
| `Subscriptions.Pattern` | lib/index.js:107 | Defines the source text JavaScript builds when `match` receives the array: the entries joined by `,`. The text starts with the first entry, and with two or more entries a comma follows it. |
| `Subscriptions.PatternSnoc` | lib/index.js:107 | Subscribing one more context to a non-empty list appends `,` and the context to the regular-expression source. |
| `Subscriptions.PatternLength` | lib/index.js:107 | The pattern is as long as all entries together, plus one separator between each two neighbours. |
| `Dispatch.PatternThrows` | lib/index.js:107 | Defines when `match` throws: the packet has a context and the joined source is not valid syntax. A packet without a context never throws. |
| `Dispatch.Accepted` | lib/index.js:107 | Defines the guard: the packet has a context, the joined source is valid, and a search with it finds a match in the context. An accepted packet never throws at the guard, so the three outcomes of `OnData` are disjoint. |
| `Dispatch.Fires` | lib/index.js:113 | Defines the type test: a registration fires when the packet has a `type` equal to its `packet_type`. |
| `Dispatch.Matching` | lib/index.js:112-116 | The firing positions are exactly the registrations whose `packet_type` equals the packet's `type`, each listed once, in increasing order. |
| `Dispatch.MatchingExtends` | lib/index.js:90-116 | Registering more handlers never changes which earlier registrations fire, nor their order: the old firing list is a prefix of the new one. |
| `Dispatch.FirstFault` | lib/index.js:112-116 | Gives the first registration that fires and whose callback throws, or the table's length when there is none. No earlier registration faults. |
| `Dispatch.MatchingSnoc` | lib/index.js:112-116 | Walking one more registration adds it to the firing positions exactly when its type equals the packet's. |
| `Dispatch.TraceSnoc` | lib/index.js:114 | Calling one more callback appends one invocation record of that registration's callback with the packet. |
| `Dispatch.DispatchedIsTrace` | lib/index.js:112-116 | The calls made while walking a prefix of the table are exactly the firing registrations of that prefix, in order, each with the packet. |
| `Dispatch.Dispatched` | lib/index.js:112-116 | Defines the calls the `forEach` makes over the first `n` registrations when none throws. There are at most `n`. Each is of a registration below `n` that fires, with that registration's own callback and the packet. |
| `Dispatch.Invoked` | lib/index.js:112-116 | Defines the calls made for an accepted packet: the walk up to and including the first throw. There are at most as many as registrations. Each is of a registration no later than the first fault, one that fires, with its own callback and the packet. |
| `Dispatch.StopsAt` | lib/index.js:112-116 | If the loop reaches registration `i` without a throw and `i`'s callback throws, then `i` is the first fault. The calls made are those of the first `i + 1` registrations. |
| `Dispatch.RunsToEnd` | lib/index.js:112-116 | If no callback throws, the loop walks the whole table. |
| `Dispatch.InvokedWithoutFault` | lib/index.js:112-116 | If no callback throws, the calls are exactly the registrations whose type equals the packet's, once each, in registration order. Each is called with its own callback and the packet. |
| `Dispatch.FaultStopsDispatch` | lib/index.js:112-116 | When a callback throws, it is the last one called. No later registration is called, even one whose type matches. |
| `Dispatch.EmptySubscriptionAcceptsAll` | lib/index.js:107 | With regular expressions that behave literally on letters and commas, a client with no subscription never throws at the guard and accepts every packet that has a context. |
| `Dispatch.PatternLiteral` | lib/index.js:107 | Joining entries made of letters and commas gives a pattern made of letters and commas. |
| `Dispatch.LiteralAcceptance` | lib/index.js:107 | For subscriptions made of letters and commas, the guard never throws. A packet is accepted exactly when it has a context that contains the whole comma-joined list as text. |
| `Dispatch.JoinedSubscriptionsRejectEach` | lib/index.js:107 | With two or more such subscriptions, a packet whose context is exactly one of them is dropped. |
| `Dispatch.SingleSubscriptionAccepts` | lib/index.js:107 | With a single such subscription, every packet whose context contains it is accepted. |
| `Dispatch.CommaJoinConflates` | lib/index.js:107 | For all `a`, `b` and following entries `t`, the subscription `a,b` gives the same regular-expression source as the two subscriptions `a` and `b`, so no packet tells the two lists apart. |

## Left out

- Reading standard input through the `JSONStream` parser (lib/index.js:25-26) is I/O over a library that is not part of this model. Inbound packets are method arguments, and stream errors are the argument of `OnError`.
- `send` formats the packet with `JSON.stringify` and `console.log` (lib/index.js:32-34). The model appends the packet value to `output` and leaves the text encoding out. That includes how an `Error` value renders as `data`.
- JavaScript's regular-expression semantics are not modelled. Whether a source is valid and what a search finds are the abstract constants `compiles` and `search`. Only the construction of the pattern source from the array is modelled.
- The module-level singleton (lib/index.js:37) and the binding of the two listeners to it are not modelled. The listeners are methods of the object they act on.
- Callback bodies are opaque. The model assumes a callback does not call back into the client (`on`, `send`, `addListeningContext`, ...) during dispatch.
- All compared values are strings. JavaScript's loose `==`/`!=` between a string and a non-string is not modelled. Neither is the `TypeError` that a non-string, non-undefined `context` (for example `null`) would raise at `.match`.
- `listen_context` and `packet_handlers` are public fields in the source, so other code could assign them directly. The model changes them only through the methods.
- The outbound packet refers to the live `listen_context` array. It is serialised at once, so the model's snapshot of the list is equivalent.
- Whether a callback throws is given per table position and packet. A callback whose behaviour depends on earlier packets is covered, because the oracle is supplied anew for each packet.
- index.js only re-exports lib/index.js and has no logic.
