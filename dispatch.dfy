/**
 * What the `data` listener does with one inbound packet, as functions of the
 * subscription list and the handler table: whether the packet is for this
 * client, which registrations fire, and where a throwing callback stops the
 * dispatch loop.
 */
module Dispatch {
  import opened Wrappers
  import opened Packets
  import Subscriptions

  /** Line 107 first turns the subscription list into a regular expression
      whose source is the comma-joined list; `compiles(source)` says whether
      that source is valid syntax. When it is not, `match` throws a
      `SyntaxError` for every packet that has a context, before any handler
      runs. A packet without a context never reaches `match`. */
  predicate PatternThrows(compiles: string -> bool, listenContext: seq<string>, p: InPacket)
    ensures PatternThrows(compiles, listenContext, p) ==> p.context.Some?
  {
    p.context.Some? && !compiles(Subscriptions.Pattern(listenContext))
  }

  /** The guard of the `data` listener: the packet has a context, and the
      regular expression built from the subscription list is valid and finds
      a match in it. `search(text, source)` is JavaScript's regular-expression
      search, left abstract like `compiles`. */
  predicate Accepted(compiles: string -> bool, search: (string, string) -> bool, listenContext: seq<string>, p: InPacket)
    ensures Accepted(compiles, search, listenContext, p) ==>
              p.context.Some? && !PatternThrows(compiles, listenContext, p)
  {
    var source := Subscriptions.Pattern(listenContext);
    p.context.Some? && compiles(source) && search(p.context.value, source)
  }

  /** A registration fires for a packet whose `type` equals its `packet_type`. */
  predicate Fires<C>(reg: Registration<C>, p: InPacket)
    ensures Fires(reg, p) ==> p.ptype.Some? && p.ptype.value == reg.packetType
  {
    p.ptype == Some(reg.packetType)
  }

  /** The positions in `regs` of the registrations that fire for `p`, in
      registration order, each once. */
  function Matching<C>(regs: seq<Registration<C>>, p: InPacket): (r: seq<nat>)
    ensures forall k :: 0 <= k < |r| ==> r[k] < |regs| && Fires(regs[r[k]], p)
    ensures forall i: nat :: i < |regs| && Fires(regs[i], p) ==> i in r
    ensures forall a, b :: 0 <= a < b < |r| ==> r[a] < r[b]
  {
    if regs == [] then []
    else
      var n := |regs| - 1;
      assert forall i: nat :: i < n ==> regs[..n][i] == regs[i];
      var earlier := Matching(regs[..n], p);
      assert forall k :: 0 <= k < |earlier| ==> earlier[k] < n;
      earlier + (if Fires(regs[n], p) then [n] else [])
  }

  /** Registering more handlers never changes which earlier registrations fire
      for a packet, nor their order: the old dispatch list is a prefix of the
      new one. */
  lemma {:induction false} MatchingExtends<C>(regs: seq<Registration<C>>, more: seq<Registration<C>>, p: InPacket)
    ensures Matching(regs, p) <= Matching(regs + more, p)
    decreases |more|
  {
    if more == [] {
      assert regs + more == regs;
    } else {
      var all := regs + more;
      var n := |all| - 1;
      assert all[..n] == regs + more[..|more| - 1];
      MatchingExtends(regs, more[..|more| - 1], p);
    }
  }

  /** The invocations of the registrations at positions `idx`, in that order. */
  function Trace<C>(regs: seq<Registration<C>>, idx: seq<nat>, p: InPacket): (r: seq<Invocation<C>>)
    requires forall k :: 0 <= k < |idx| ==> idx[k] < |regs|
  {
    if idx == [] then []
    else
      var n := |idx| - 1;
      Trace(regs, idx[..n], p) + [Invocation(idx[n], regs[idx[n]].callback, p)]
  }

  /** The trace calls each listed registration's own callback with `p`. */
  lemma {:induction false} TraceAt<C>(regs: seq<Registration<C>>, idx: seq<nat>, p: InPacket, k: nat)
    requires forall j :: 0 <= j < |idx| ==> idx[j] < |regs|
    requires k < |idx|
    ensures |Trace(regs, idx, p)| == |idx|
    ensures Trace(regs, idx, p)[k] == Invocation(idx[k], regs[idx[k]].callback, p)
  {
    var n := |idx| - 1;
    if k < n {
      TraceAt(regs, idx[..n], p, k);
    } else {
      TraceLength(regs, idx[..n], p);
    }
  }

  lemma {:induction false} TraceLength<C>(regs: seq<Registration<C>>, idx: seq<nat>, p: InPacket)
    requires forall j :: 0 <= j < |idx| ==> idx[j] < |regs|
    ensures |Trace(regs, idx, p)| == |idx|
  {
    if idx != [] {
      TraceLength(regs, idx[..|idx| - 1], p);
    }
  }

  /** Registration `i` fires and its callback throws. `throws(i, p)` describes
      the callback called at position `i` of the table; callback bodies are
      not part of this model. */
  predicate Faults<C>(regs: seq<Registration<C>>, i: nat, p: InPacket, throws: (nat, InPacket) -> bool)
    requires i < |regs|
  {
    Fires(regs[i], p) && throws(i, p)
  }

  /** The position of the first registration that fires and throws, or
      `|regs|` when none does. */
  function FirstFault<C>(regs: seq<Registration<C>>, p: InPacket, throws: (nat, InPacket) -> bool): (f: nat)
    ensures f <= |regs|
    ensures f < |regs| ==> Faults(regs, f, p, throws)
    ensures forall j :: 0 <= j < f ==> !Faults(regs, j, p, throws)
  {
    if regs == [] then 0
    else
      var n := |regs| - 1;
      assert forall j :: 0 <= j < n ==> (Faults(regs[..n], j, p, throws) <==> Faults(regs, j, p, throws));
      var f := FirstFault(regs[..n], p, throws);
      if f < n then f
      else if Faults(regs, n, p, throws) then n
      else |regs|
  }

  /** The invocations the `forEach` loop makes while it walks the first `n`
      registrations and none throws: each one that fires is called with the
      packet, in registration order. */
  function Dispatched<C>(regs: seq<Registration<C>>, p: InPacket, n: nat): (r: seq<Invocation<C>>)
    requires n <= |regs|
    ensures |r| <= n
    ensures forall k :: 0 <= k < |r| ==>
              && r[k].registration < n
              && Fires(regs[r[k].registration], p)
              && r[k].callback == regs[r[k].registration].callback
              && r[k].packet == p
  {
    if n == 0 then []
    else
      Dispatched(regs, p, n - 1) +
      (if Fires(regs[n - 1], p) then [Invocation(n - 1, regs[n - 1].callback, p)] else [])
  }

  /** Extending the walked prefix by registration `i` adds `i` to the firing
      positions exactly when it fires. */
  lemma MatchingSnoc<C>(regs: seq<Registration<C>>, p: InPacket, i: nat)
    requires i < |regs|
    ensures Matching(regs[..i + 1], p) == Matching(regs[..i], p) + (if Fires(regs[i], p) then [i] else [])
  {
    var a := regs[..i + 1];
    assert a[..i] == regs[..i] && a[i] == regs[i];
  }

  lemma TraceSnoc<C>(regs: seq<Registration<C>>, m: seq<nat>, i: nat, p: InPacket)
    requires forall k :: 0 <= k < |m| ==> m[k] < |regs|
    requires i < |regs|
    ensures Trace(regs, m + [i], p) == Trace(regs, m, p) + [Invocation(i, regs[i].callback, p)]
  {
  }

  /** Walking a prefix calls exactly the registrations of that prefix that
      fire, in the order `Matching` lists them. */
  lemma {:induction false} DispatchedIsTrace<C>(regs: seq<Registration<C>>, p: InPacket, n: nat)
    requires n <= |regs|
    ensures Dispatched(regs, p, n) == Trace(regs, Matching(regs[..n], p), p)
  {
    if n > 0 {
      var i := n - 1;
      DispatchedIsTrace(regs, p, i);
      MatchingSnoc(regs, p, i);
      var m := Matching(regs[..i], p);
      if Fires(regs[i], p) {
        TraceSnoc(regs, m, i, p);
      } else {
        assert m + [] == m;
      }
    }
  }

  /** How many registrations the `forEach` loop reaches: all of them, or up to
      and including the first one whose callback throws. */
  function Reached<C>(regs: seq<Registration<C>>, p: InPacket, throws: (nat, InPacket) -> bool): (n: nat)
    ensures n <= |regs|
  {
    var f := FirstFault(regs, p, throws);
    if f < |regs| then f + 1 else |regs|
  }

  /** The callbacks invoked for an accepted packet. */
  function Invoked<C>(regs: seq<Registration<C>>, p: InPacket, throws: (nat, InPacket) -> bool): (r: seq<Invocation<C>>)
    ensures |r| <= |regs|
    ensures forall k :: 0 <= k < |r| ==>
              && r[k].registration < |regs|
              && r[k].registration <= FirstFault(regs, p, throws)
              && Fires(regs[r[k].registration], p)
              && r[k].callback == regs[r[k].registration].callback
              && r[k].packet == p
  {
    Dispatched(regs, p, Reached(regs, p, throws))
  }

  /** The loop reached registration `i` without a throw, and its callback
      throws: the dispatch ends there. */
  lemma StopsAt<C>(regs: seq<Registration<C>>, p: InPacket, throws: (nat, InPacket) -> bool, i: nat)
    requires i < |regs|
    requires forall j :: 0 <= j < i ==> !Faults(regs, j, p, throws)
    requires Faults(regs, i, p, throws)
    ensures FirstFault(regs, p, throws) == i
    ensures Invoked(regs, p, throws) == Dispatched(regs, p, i + 1)
  {
  }

  /** The loop walked every registration without a throw. */
  lemma RunsToEnd<C>(regs: seq<Registration<C>>, p: InPacket, throws: (nat, InPacket) -> bool)
    requires forall j :: 0 <= j < |regs| ==> !Faults(regs, j, p, throws)
    ensures FirstFault(regs, p, throws) == |regs|
    ensures Invoked(regs, p, throws) == Dispatched(regs, p, |regs|)
  {
  }

  /** When no callback throws, the registrations invoked are exactly those whose
      `packet_type` equals the packet's `type`, in registration order, once
      each; nothing else is called. */
  lemma InvokedWithoutFault<C>(regs: seq<Registration<C>>, p: InPacket, throws: (nat, InPacket) -> bool)
    requires FirstFault(regs, p, throws) == |regs|
    ensures |Invoked(regs, p, throws)| == |Matching(regs, p)|
    ensures forall k :: 0 <= k < |Matching(regs, p)| ==>
              Invoked(regs, p, throws)[k] == Invocation(Matching(regs, p)[k], regs[Matching(regs, p)[k]].callback, p)
  {
    var m := Matching(regs, p);
    DispatchedIsTrace(regs, p, |regs|);
    assert regs[..|regs|] == regs;
    TraceLength(regs, m, p);
    forall k | 0 <= k < |m|
      ensures Invoked(regs, p, throws)[k] == Invocation(m[k], regs[m[k]].callback, p)
    {
      TraceAt(regs, m, p, k);
    }
  }

  /** A throwing callback ends the dispatch: a registration after it is never
      invoked, even when it fires for the packet; the one that threw is the
      last invocation. */
  lemma FaultStopsDispatch<C>(regs: seq<Registration<C>>, p: InPacket, throws: (nat, InPacket) -> bool)
    requires FirstFault(regs, p, throws) < |regs|
    ensures var f := FirstFault(regs, p, throws);
            var t := Invoked(regs, p, throws);
            && t != []
            && t[|t| - 1] == Invocation(f, regs[f].callback, p)
            && forall k :: 0 <= k < |t| ==> t[k].registration <= f
  {
  }
  /** `pat` occurs in `text` as a contiguous piece. */
  predicate Occurs(pat: string, text: string)
  {
    exists i :: 0 <= i <= |text| && pat <= text[i..]
  }

  /** Lower-case letters and commas: characters a regular expression matches
      literally. */
  predicate Literal(pat: string)
  {
    forall k :: 0 <= k < |pat| ==> ('a' <= pat[k] <= 'z' || pat[k] == ',')
  }

  /** `compiles` and `search` behave as JavaScript's regular expressions do on
      sources without special characters: such a source is valid, and the
      search finds its text. */
  ghost predicate LiteralRegex(compiles: string -> bool, search: (string, string) -> bool)
  {
    && (forall pat :: Literal(pat) ==> compiles(pat))
    && (forall text, pat :: Literal(pat) ==> (search(text, pat) <==> Occurs(pat, text)))
  }

  /** A client with no subscription accepts every packet that has a context:
      the empty list gives the empty regular expression, which matches every
      string. */
  lemma EmptySubscriptionAcceptsAll(compiles: string -> bool, search: (string, string) -> bool, p: InPacket)
    requires LiteralRegex(compiles, search)
    requires p.context.Some?
    ensures !PatternThrows(compiles, [], p)
    ensures Accepted(compiles, search, [], p)
  {
    assert Literal("");
    assert "" <= p.context.value[0..];
  }

  /** Joining literal entries gives a literal pattern: the separator is a
      comma. */
  lemma {:induction false} PatternLiteral(s: seq<string>)
    requires forall k :: 0 <= k < |s| ==> Literal(s[k])
    ensures Literal(Subscriptions.Pattern(s))
  {
    if |s| > 1 {
      PatternLiteral(s[1..]);
      var rest := Subscriptions.Pattern(s[1..]);
      assert Subscriptions.Pattern(s) == s[0] + "," + rest;
      assert Literal(s[0]);
    }
  }

  /** For subscriptions made of letters and commas, a packet is accepted
      exactly when its context contains the whole joined list as text; the
      pattern never throws. */
  lemma LiteralAcceptance(compiles: string -> bool, search: (string, string) -> bool, s: seq<string>, p: InPacket)
    requires LiteralRegex(compiles, search)
    requires forall k :: 0 <= k < |s| ==> Literal(s[k])
    ensures !PatternThrows(compiles, s, p)
    ensures Accepted(compiles, search, s, p) <==>
              p.context.Some? && Occurs(Subscriptions.Pattern(s), p.context.value)
  {
    PatternLiteral(s);
  }

  /** With two or more literal subscriptions, a packet whose context is exactly
      one of them is dropped: the joined pattern is longer than that context. */
  lemma JoinedSubscriptionsRejectEach(compiles: string -> bool, search: (string, string) -> bool, s: seq<string>, j: nat, p: InPacket)
    requires LiteralRegex(compiles, search)
    requires forall k :: 0 <= k < |s| ==> Literal(s[k])
    requires |s| >= 2 && j < |s|
    requires p.context == Some(s[j])
    ensures !Accepted(compiles, search, s, p)
  {
    LiteralAcceptance(compiles, search, s, p);
    Subscriptions.PatternLength(s);
    Subscriptions.TotalLengthAtLeast(s, j);
    var pat := Subscriptions.Pattern(s);
    assert |pat| > |s[j]|;
    forall i | 0 <= i <= |s[j]|
      ensures !(pat <= s[j][i..])
    {
    }
  }

  /** With one literal subscription, every packet whose context contains it is
      accepted. */
  lemma SingleSubscriptionAccepts(compiles: string -> bool, search: (string, string) -> bool, c: string, p: InPacket)
    requires LiteralRegex(compiles, search)
    requires Literal(c)
    requires p.context.Some? && Occurs(c, p.context.value)
    ensures Accepted(compiles, search, [c], p)
  {
    LiteralAcceptance(compiles, search, [c], p);
  }

  /** A subscription containing a comma gives the same regular-expression
      source as the two subscriptions on either side of that comma, so no
      packet tells the two lists apart. */
  lemma CommaJoinConflates(a: string, b: string, t: seq<string>)
    ensures Subscriptions.Pattern([a + "," + b] + t) == Subscriptions.Pattern([a, b] + t)
  {
    if t == [] {
      assert [a, b][1..] == [b];
    } else {
      assert ([a + "," + b] + t)[1..] == t;
      assert ([a, b] + t)[1..] == [b] + t;
      assert ([b] + t)[1..] == t;
    }
  }
}
