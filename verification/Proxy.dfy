/** The WebSocket bridge: two directions, one loop, each message cleaned or the bridge ends. */
module WebSockets {
  import opened Seqs

  datatype Message = Text(text: Bytes) | Binary(data: Bytes) | Ping(data: Bytes) | Pong(data: Bytes) | Close(reason: Bytes) | Frame

  type Observation = (string, string)

  /** How a JSON message is cleaned: the safe text and what was observed, or a refusal. */
  type Cleaner = Bytes -> Option<(Bytes, seq<Observation>)>

  datatype Side = Local | Upstream

  /** Something arrives from one side: a message, or the end of the stream; `delivered` tells of the send. */
  datatype Arrival = Arrival(from: Side, received: Option<Message>, delivered: bool)

  datatype Forwarded = Forwarded(from: Side, message: Message, before: nat, after: nat, observations: seq<Observation>)

  datatype Rules = Rules(clean: Cleaner, requestLimit: nat, responseLimit: nat)

  function Limit(rules: Rules, from: Side): nat { if from.Local? then rules.requestLimit else rules.responseLimit }

  /** What is sent for a message; nothing for one that is refused. */
  function Image(rules: Rules, from: Side, m: Message): Option<Forwarded> {
    match m
    case Text(text) =>
      if |text| > Limit(rules, from) || rules.clean(text).None? then None
      else var (safe, observations) := rules.clean(text).value; Some(Forwarded(from, Text(safe), |text|, |safe|, observations))
    case Ping(data) => if data == [] then Some(Forwarded(from, m, 0, 0, [])) else None
    case Pong(data) => if data == [] then Some(Forwarded(from, m, 0, 0, [])) else None
    case Close(_) => Some(Forwarded(from, Close([]), 0, 0, []))
    case _ => None
  }

  /** What becomes of an arrival; nothing if it ends the bridge. */
  function Handle(rules: Rules, a: Arrival): Option<Forwarded> {
    if a.received.None? || !a.delivered then None else Image(rules, a.from, a.received.value)
  }

  /** All that is forwarded, up to the first arrival that ends the bridge. */
  function Run(rules: Rules, arrivals: seq<Arrival>): seq<Forwarded> {
    if arrivals == [] || Handle(rules, arrivals[0]).None? then []
    else [Handle(rules, arrivals[0]).value] + Run(rules, arrivals[1..])
  }

  function SentFrom(from: Side, run: seq<Forwarded>): seq<Message> {
    if run == [] then [] else (if run[0].from == from then [run[0].message] else []) + SentFrom(from, run[1..])
  }

  function ReceivedFrom(from: Side, arrivals: seq<Arrival>): seq<Message> {
    if arrivals == [] then []
    else (if arrivals[0].from == from && arrivals[0].received.Some? then [arrivals[0].received.value] else []) + ReceivedFrom(from, arrivals[1..])
  }

  function Before(from: Side, run: seq<Forwarded>): nat {
    if run == [] then 0 else (if run[0].from == from then run[0].before else 0) + Before(from, run[1..])
  }

  function After(from: Side, run: seq<Forwarded>): nat {
    if run == [] then 0 else (if run[0].from == from then run[0].after else 0) + After(from, run[1..])
  }

  function Observed(run: seq<Forwarded>): multiset<Observation> {
    if run == [] then multiset{} else multiset(run[0].observations) + Observed(run[1..])
  }

  // ---- What the bridge promises -----------------------------------------------------------

  /** `sent` stands for `received`: cleaned text within its side's limit, an empty ping or pong, or a close without its reason. */
  predicate IsImage(rules: Rules, from: Side, received: Message, sent: Message) {
    match received
    case Text(text) =>
      && |text| <= (match from case Local => rules.requestLimit case Upstream => rules.responseLimit)
      && rules.clean(text).Some? && sent == Text(rules.clean(text).value.0)
    case Ping(data) => data == [] && sent == received
    case Pong(data) => data == [] && sent == received
    case Close(_) => sent == Close([])
    case _ => false
  }

  /** What is counted for a forwarded message: sizes and observations of text, nothing for the rest. */
  predicate CountsFor(rules: Rules, received: Message, f: Forwarded) {
    match received
    case Text(text) => rules.clean(text).Some? && f.before == |text| && f.after == |rules.clean(text).value.0|
                       && f.observations == rules.clean(text).value.1
    case _ => f.before == 0 && f.after == 0 && f.observations == []
  }

  /** An arrival is forwarded exactly when there is something to send for it and the send works. */
  lemma HandledExactly(rules: Rules, a: Arrival)
    ensures Handle(rules, a).Some? <==> a.delivered && a.received.Some? && exists sent :: IsImage(rules, a.from, a.received.value, sent)
    ensures Handle(rules, a).Some? ==>
      var f := Handle(rules, a).value;
      f.from == a.from && IsImage(rules, a.from, a.received.value, f.message) && CountsFor(rules, a.received.value, f)
  {
    if a.received.Some? {
      var f := Image(rules, a.from, a.received.value);
      if f.Some? { assert IsImage(rules, a.from, a.received.value, f.value.message); }
    }
  }

  ghost predicate Images(rules: Rules, from: Side, received: seq<Message>, sent: seq<Message>) {
    |sent| <= |received| && forall i :: 0 <= i < |sent| ==> IsImage(rules, from, received[i], sent[i])
  }

  lemma ImagesMore(rules: Rules, from: Side, r: Message, received: seq<Message>, s: Message, sent: seq<Message>)
    requires IsImage(rules, from, r, s) && Images(rules, from, received, sent)
    ensures Images(rules, from, [r] + received, [s] + sent)
  {
  }

  lemma FirstOf(rules: Rules, arrivals: seq<Arrival>, from: Side)
    requires arrivals != [] && Handle(rules, arrivals[0]).Some?
    ensures var a, f, rest := arrivals[0], Handle(rules, arrivals[0]).value, arrivals[1..];
            && ReceivedFrom(from, arrivals) == (if a.from == from then [a.received.value] else []) + ReceivedFrom(from, rest)
            && SentFrom(from, Run(rules, arrivals)) == (if a.from == from then [f.message] else []) + SentFrom(from, Run(rules, rest))
            && IsImage(rules, a.from, a.received.value, f.message)
  {
    var f, rest := Handle(rules, arrivals[0]).value, Run(rules, arrivals[1..]);
    assert Run(rules, arrivals) == [f] + rest && ([f] + rest)[1..] == rest;
  }

  /** Whatever the interleaving, each direction carries the images of a prefix of what it received. */
  lemma {:induction false} SentIsImageOfPrefix(rules: Rules, arrivals: seq<Arrival>, from: Side)
    ensures Images(rules, from, ReceivedFrom(from, arrivals), SentFrom(from, Run(rules, arrivals)))
  {
    if arrivals != [] && Handle(rules, arrivals[0]).Some? {
      var a, f, rest := arrivals[0], Handle(rules, arrivals[0]).value, arrivals[1..];
      FirstOf(rules, arrivals, from);
      SentIsImageOfPrefix(rules, rest, from);
      if a.from == from {
        ImagesMore(rules, from, a.received.value, ReceivedFrom(from, rest), f.message, SentFrom(from, Run(rules, rest)));
      } else {
        assert [] + ReceivedFrom(from, rest) == ReceivedFrom(from, rest);
      }
    }
  }

  /** Nothing is forwarded from the first refusal, failed send or end on, and everything before it is. */
  lemma {:induction false} RunEndsAtFirstRefusal(rules: Rules, arrivals: seq<Arrival>)
    ensures var n := |Run(rules, arrivals)|;
            && n <= |arrivals|
            && (forall i :: 0 <= i < n ==> Handle(rules, arrivals[i]) == Some(Run(rules, arrivals)[i]))
            && (n < |arrivals| ==> Handle(rules, arrivals[n]).None?)
  {
    if arrivals != [] && Handle(rules, arrivals[0]).Some? {
      RunEndsAtFirstRefusal(rules, arrivals[1..]);
      var n := |Run(rules, arrivals)|;
      assert forall i :: 1 <= i < |arrivals| ==> arrivals[i] == arrivals[1..][i - 1];
    }
  }

  // ---- The loop ---------------------------------------------------------------------------

  datatype Counts = Counts(
    requestBefore: nat, requestAfter: nat, responseBefore: nat, responseAfter: nat, observations: multiset<Observation>)

  const NOTHING := Counts(0, 0, 0, 0, multiset{})

  ghost function Counted(c: Counts, f: Forwarded): Counts {
    match f.from
    case Local =>
      c.(requestBefore := SaturatingAdd(c.requestBefore, f.before), requestAfter := SaturatingAdd(c.requestAfter, f.after),
         observations := c.observations + multiset(f.observations))
    case Upstream =>
      c.(responseBefore := SaturatingAdd(c.responseBefore, f.before), responseAfter := SaturatingAdd(c.responseAfter, f.after),
         observations := c.observations + multiset(f.observations))
  }

  ghost function CountedAll(c: Counts, run: seq<Forwarded>): Counts
    decreases |run|
  {
    if run == [] then c else CountedAll(Counted(c, run[0]), run[1..])
  }

  function BytesBefore(c: Counts, from: Side): nat { if from.Local? then c.requestBefore else c.responseBefore }

  function BytesAfter(c: Counts, from: Side): nat { if from.Local? then c.requestAfter else c.responseAfter }

  /** The totals are the sums over what was forwarded each way, cut at the largest count. */
  lemma {:induction false} TotalsAreSums(c: Counts, run: seq<Forwarded>, from: Side)
    requires BytesBefore(c, from) <= U64_MAX && BytesAfter(c, from) <= U64_MAX
    ensures BytesBefore(CountedAll(c, run), from) == Min(BytesBefore(c, from) + Before(from, run), U64_MAX)
    ensures BytesAfter(CountedAll(c, run), from) == Min(BytesAfter(c, from) + After(from, run), U64_MAX)
    decreases |run|
  {
    if run != [] { TotalsAreSums(Counted(c, run[0]), run[1..], from); }
  }

  /** Every observation of a forwarded message is counted, and no other. */
  lemma {:induction false} ObservationsAreCounted(c: Counts, run: seq<Forwarded>)
    ensures CountedAll(c, run).observations == c.observations + Observed(run)
    decreases |run|
  {
    if run != [] { ObservationsAreCounted(Counted(c, run[0]), run[1..]); }
  }

  class RequestTrace {
    var requestBefore: nat
    var requestAfter: nat
    var responseBefore: nat
    var responseAfter: nat
    var observations: multiset<Observation>

    constructor ()
      ensures Totals() == NOTHING
    {
      requestBefore, requestAfter, responseBefore, responseAfter, observations := 0, 0, 0, 0, multiset{};
    }

    method Observe(more: seq<Observation>)
      modifies this`observations
      ensures observations == old(observations) + multiset(more)
    {
      for i := 0 to |more|
        invariant observations == old(observations) + multiset(more[..i])
      {
        assert more[..i + 1] == more[..i] + [more[i]];
        observations := observations + multiset{more[i]};
      }
      assert more[..|more|] == more;
    }

    ghost function Totals(): Counts
      reads this
    {
      Counts(requestBefore, requestAfter, responseBefore, responseAfter, observations)
    }

    method Count(f: Forwarded)
      modifies this
      ensures Totals() == Counted(old(Totals()), f)
    {
      if f.from.Local? {
        requestBefore := SaturatingAdd(requestBefore, f.before);
        requestAfter := SaturatingAdd(requestAfter, f.after);
      } else {
        responseBefore := SaturatingAdd(responseBefore, f.before);
        responseAfter := SaturatingAdd(responseAfter, f.after);
      }
      Observe(f.observations);
    }
  }

  /** Cleans one message; the text is read only within its limit. */
  method Forward(rules: Rules, from: Side, m: Message) returns (r: Option<Forwarded>)
    ensures r == Image(rules, from, m)
  {
    var message, before, after, observations := m, 0, 0, [];
    match m {
      case Text(text) =>
        if |text| > Limit(rules, from) { return None; }
        before := |text|;
        var cleaned := rules.clean(text);
        if cleaned.None? { return None; }
        after := |cleaned.value.0|;
        observations := cleaned.value.1;
        message := Text(cleaned.value.0);
      case Ping(data) => if data != [] { return None; }
      case Pong(data) => if data != [] { return None; }
      case Close(_) => message := Close([]);
      case _ => return None;
    }
    return Some(Forwarded(from, message, before, after, observations));
  }

  method Take(rules: Rules, a: Arrival) returns (r: Option<Forwarded>)
    ensures r == Handle(rules, a) && (r.Some? ==> r.value.from == a.from)
  {
    if a.received.None? { return None; }
    r := Forward(rules, a.from, a.received.value);
    if r.Some? && !a.delivered { r := None; }
  }

  /** Forwards arrivals of either side in the order they come, until one ends the bridge. */
  method BridgeWebSockets(rules: Rules, arrivals: seq<Arrival>, trace: RequestTrace)
    returns (toUpstream: seq<Message>, toLocal: seq<Message>)
    modifies trace
    ensures toUpstream == SentFrom(Local, Run(rules, arrivals))
    ensures toLocal == SentFrom(Upstream, Run(rules, arrivals))
    ensures trace.Totals() == CountedAll(old(trace.Totals()), Run(rules, arrivals))
  {
    toUpstream, toLocal := [], [];
    var i := 0;
    assert arrivals[0..] == arrivals;
    while i < |arrivals|
      invariant i <= |arrivals|
      invariant SentFrom(Local, Run(rules, arrivals)) == toUpstream + SentFrom(Local, Run(rules, arrivals[i..]))
      invariant SentFrom(Upstream, Run(rules, arrivals)) == toLocal + SentFrom(Upstream, Run(rules, arrivals[i..]))
      invariant CountedAll(old(trace.Totals()), Run(rules, arrivals)) == CountedAll(trace.Totals(), Run(rules, arrivals[i..]))
    {
      var f := Take(rules, arrivals[i]);
      RunFrom(rules, arrivals, i);
      if f.None? { return; }
      SentStep(Local, toUpstream, f.value, Run(rules, arrivals[i + 1..]));
      SentStep(Upstream, toLocal, f.value, Run(rules, arrivals[i + 1..]));
      CountStep(trace.Totals(), f.value, Run(rules, arrivals[i + 1..]));
      if f.value.from.Local? { toUpstream := toUpstream + [f.value.message]; } else { toLocal := toLocal + [f.value.message]; }
      trace.Count(f.value);
      i := i + 1;
    }
  }

  lemma SentStep(from: Side, sent: seq<Message>, f: Forwarded, rest: seq<Forwarded>)
    ensures sent + SentFrom(from, [f] + rest) == (if f.from == from then sent + [f.message] else sent) + SentFrom(from, rest)
  {
    assert ([f] + rest)[1..] == rest;
    if f.from == from { ConcatAssociates(sent, [f.message], SentFrom(from, rest)); }
  }

  lemma CountStep(c: Counts, f: Forwarded, rest: seq<Forwarded>)
    ensures CountedAll(c, [f] + rest) == CountedAll(Counted(c, f), rest)
  {
    assert ([f] + rest)[1..] == rest;
  }

  lemma RunFrom(rules: Rules, arrivals: seq<Arrival>, i: nat)
    requires i < |arrivals|
    ensures var f := Handle(rules, arrivals[i]);
            Run(rules, arrivals[i..]) == if f.None? then [] else [f.value] + Run(rules, arrivals[i + 1..])
  {
    assert arrivals[i..][0] == arrivals[i] && arrivals[i..][1..] == arrivals[i + 1..];
  }
}

/** The proxy hop marker: how often a request can be passed on by proxies of this kind. */
module ProxyHops {
  import opened Seqs

  const LOOP_HEADER := "x-blindfold-proxy-hop"
  const LOOP_VALUE := "1"
  const CHAINED_LOOP_VALUE := "2"

  const HOP_BY_HOP: set<string> := {
    "connection", "content-length", "transfer-encoding", "host",
    "keep-alive", "proxy-authenticate", "proxy-authorization", "te", "trailer", "upgrade"}

  const PROVIDER_AUTH: set<string> := {"authorization", "x-api-key", "api-key"}

  type Header = (string, string)

  /** The chosen upstream: may it carry a marked request, and the credential put in, if any. */
  datatype Target = Target(trustedProxyHop: bool, credential: Option<Header>)

  predicate IsHopByHop(name: string) { name == LOOP_HEADER || name in HOP_BY_HOP }

  function Values(headers: seq<Header>, name: string): seq<string> {
    if headers == [] then [] else (if headers[0].0 == name then [headers[0].1] else []) + Values(headers[1..], name)
  }

  /** Whether the request carries a trusted marker; none if it is refused as a loop. */
  function AcceptProxyHop(headers: seq<Header>, target: Target): Option<bool> {
    var values := Values(headers, LOOP_HEADER);
    if values == [] then Some(false)
    else if |values| > 1 || !target.trustedProxyHop || values[0] != LOOP_VALUE then None
    else Some(true)
  }

  predicate Drops(target: Target, name: string) {
    IsHopByHop(name) || name == "accept-encoding" || (target.credential.Some? && name in PROVIDER_AUTH)
  }

  function Keep(headers: seq<Header>, target: Target): seq<Header> {
    if headers == [] then [] else (if Drops(target, headers[0].0) then [] else [headers[0]]) + Keep(headers[1..], target)
  }

  function Marker(trusted: bool): string { if trusted then CHAINED_LOOP_VALUE else LOOP_VALUE }

  /** The outbound headers, or nothing for a refused request. */
  function Outbound(headers: seq<Header>, target: Target): Option<seq<Header>> {
    var hop := AcceptProxyHop(headers, target);
    if hop.None? then None
    else Some(Keep(headers, target) + Own(target) + [(LOOP_HEADER, Marker(hop.value))])
  }

  method RewriteHeaders(headers: seq<Header>, target: Target) returns (r: Option<seq<Header>>)
    ensures r == Outbound(headers, target)
  {
    var hop := AcceptProxyHop(headers, target);
    if hop.None? { return None; }
    var outbound: seq<Header> := [];
    assert headers[0..] == headers;
    for i := 0 to |headers|
      invariant Keep(headers, target) == outbound + Keep(headers[i..], target)
    {
      assert headers[i..][1..] == headers[i + 1..];
      if !Drops(target, headers[i].0) { outbound := outbound + [headers[i]]; }
    }
    assert outbound == Keep(headers, target);
    if target.credential.Some? { outbound := outbound + [target.credential.value]; } else { assert outbound + [] == outbound; }
    return Some(outbound + [(LOOP_HEADER, Marker(hop.value))]);
  }

  lemma {:induction false} ValuesBoth(a: seq<Header>, b: seq<Header>, name: string)
    ensures Values(a + b, name) == Values(a, name) + Values(b, name)
  {
    if a == [] {
      assert a + b == b;
    } else {
      assert (a + b)[0] == a[0] && (a + b)[1..] == a[1..] + b;
      ValuesBoth(a[1..], b, name);
    }
  }

  lemma {:induction false} KeptValues(headers: seq<Header>, target: Target, name: string)
    ensures Values(Keep(headers, target), name) == if Drops(target, name) then [] else Values(headers, name)
  {
    if headers != [] {
      KeptValues(headers[1..], target, name);
      var first: seq<Header> := if Drops(target, headers[0].0) then [] else [headers[0]];
      ValuesBoth(first, Keep(headers[1..], target), name);
    }
  }

  /** A provider's credential is never the hop header. */
  predicate Sane(target: Target) { target.credential.Some? ==> target.credential.value.0 in PROVIDER_AUTH }

  /** The headers the proxy puts in itself. */
  function Own(target: Target): seq<Header> { if target.credential.Some? then [target.credential.value] else [] }

  lemma ValuesOfOne(h: Header, name: string)
    ensures Values([h], name) == if h.0 == name then [h.1] else []
  {
    assert [h][1..] == [];
  }

  lemma OwnValues(target: Target, name: string)
    ensures Values(Own(target), name)
            == if target.credential.Some? && target.credential.value.0 == name then [target.credential.value.1] else []
  {
    if target.credential.Some? { ValuesOfOne(target.credential.value, name); }
  }

  lemma ValuesOfThree(kept: seq<Header>, own: seq<Header>, last: Header, name: string)
    ensures Values(kept + own + [last], name) == Values(kept, name) + Values(own, name) + if last.0 == name then [last.1] else []
  {
    ValuesBoth(kept + own, [last], name);
    ValuesBoth(kept, own, name);
    ValuesOfOne(last, name);
  }

  /** The values of any header that goes out: what was kept, the gateway's own, and the marker. */
  lemma OutboundParts(headers: seq<Header>, target: Target, name: string)
    requires Outbound(headers, target).Some?
    ensures Values(Outbound(headers, target).value, name)
            == (if Drops(target, name) then [] else Values(headers, name)) + Values(Own(target), name)
               + if LOOP_HEADER == name then [Marker(AcceptProxyHop(headers, target).value)] else []
  {
    ValuesOfThree(Keep(headers, target), Own(target), (LOOP_HEADER, Marker(AcceptProxyHop(headers, target).value)), name);
    KeptValues(headers, target, name);
  }

  lemma HopHeaderIsNoCredential()
    ensures LOOP_HEADER !in PROVIDER_AUTH
  {
    assert |LOOP_HEADER| == 21;
  }

  lemma OutboundValues(headers: seq<Header>, target: Target, name: string)
    requires Sane(target) && Outbound(headers, target).Some? && (name == LOOP_HEADER || name !in PROVIDER_AUTH)
    ensures Values(Outbound(headers, target).value, name)
            == if name == LOOP_HEADER then [Marker(AcceptProxyHop(headers, target).value)]
               else if Drops(target, name) then [] else Values(headers, name)
  {
    OutboundParts(headers, target, name);
    HopHeaderIsNoCredential();
    OwnValues(target, name);
  }

  /**
   * With a gateway credential, whatever credentials the client sent stay behind and the gateway's own
   * goes out once; without one the client's pass unchanged.
   */
  lemma CredentialsAreReplaced(headers: seq<Header>, target: Target, name: string)
    requires Sane(target) && Outbound(headers, target).Some? && name in PROVIDER_AUTH
    ensures Values(Outbound(headers, target).value, name)
            == if target.credential.None? then Values(headers, name)
               else if target.credential.value.0 == name then [target.credential.value.1] else []
  {
    OutboundParts(headers, target, name);
    HopHeaderIsNoCredential();
    CredentialIsNoHop(name);
    OwnValues(target, name);
  }

  lemma CredentialIsNoHop(name: string)
    requires name in PROVIDER_AUTH
    ensures !IsHopByHop(name) && name != "accept-encoding"
  {
    assert "authorization"[0] == 'a' && "authorization"[1] == 'u' && "x-api-key"[0] == 'x' && "api-key"[0] == 'a' && "api-key"[1] == 'p';
    HopHeaderIsNoCredential();
    assert forall h <- HOP_BY_HOP :: h[0] != 'a' && h[0] != 'x';
    assert "accept-encoding"[1] == 'c';
  }

  /** A proxy on the way; it may refuse a request for other reasons too. */
  datatype Hop = Hop(target: Target, refuses: bool)

  /** How often a request is passed on along a route of proxies. */
  function Forwards(headers: seq<Header>, route: seq<Hop>): nat
    decreases |route|
  {
    if route == [] || route[0].refuses || Outbound(headers, route[0].target).None? then 0
    else 1 + Forwards(Outbound(headers, route[0].target).value, route[1..])
  }

  /** Once chained, a request is passed on by no proxy. */
  lemma ChainedStops(headers: seq<Header>, route: seq<Hop>)
    requires Values(headers, LOOP_HEADER) == [CHAINED_LOOP_VALUE]
    ensures Forwards(headers, route) == 0
  {
    assert CHAINED_LOOP_VALUE[0] != LOOP_VALUE[0];
  }

  lemma MarkedOnce(headers: seq<Header>, route: seq<Hop>)
    requires Values(headers, LOOP_HEADER) == [LOOP_VALUE] && forall h <- route :: Sane(h.target)
    ensures Forwards(headers, route) == if route != [] && !route[0].refuses && route[0].target.trustedProxyHop then 1 else 0
  {
    if route != [] && route[0].target.trustedProxyHop {
      OutboundValues(headers, route[0].target, LOOP_HEADER);
      ChainedStops(Outbound(headers, route[0].target).value, route[1..]);
    }
  }

  /** In any network, a request that starts without a marker is passed on at most twice, the second time to a trusted upstream. */
  lemma AtMostTwoHops(headers: seq<Header>, route: seq<Hop>)
    requires Values(headers, LOOP_HEADER) == [] && forall h <- route :: Sane(h.target)
    ensures Forwards(headers, route) <= 2
    ensures Forwards(headers, route) == 2 <==>
            |route| >= 2 && !route[0].refuses && !route[1].refuses && route[1].target.trustedProxyHop
  {
    if route != [] {
      OutboundValues(headers, route[0].target, LOOP_HEADER);
      MarkedOnce(Outbound(headers, route[0].target).value, route[1..]);
    }
  }
}
