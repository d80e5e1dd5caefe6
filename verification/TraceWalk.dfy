/** The traceroute walk: per-hop accounting over any stream of replies. */
module TraceWalk {
  import opened Samples
  import opened Icmp
  import opened Slots
  import opened TraceStore

  /** A datagram read off the raw socket before the query's deadline; `echo` is
      what `ParseIcmpReply` makes of it. */
  datatype Packet = Packet(echo: Option<Echo>, src: Option<Addr>, rtt: nat)

  /** What the network does with one query. */
  datatype Query = SendFailed | Heard(packets: seq<Packet>)

  /** The network: the outcome of query `q` at TTL `ttl`. */
  type Network = (nat, nat) -> Query

  /** What the queries of one hop have found so far. */
  datatype Found = Found(addr: Option<Addr>, rtts: seq<nat>, reached: bool)

  /** The destination as seen over the whole walk. */
  datatype Dest = Dest(addr: Option<Addr>, rtt: Option<nat>)

  datatype Outcome = Outcome(hops: seq<HopInput>, reached: bool, dest: Dest, failed: bool)

  // ── One query ───────────────────────────────────────────────────────────────

  predicate Answers(p: Packet, ident: u16, sq: u16) {
    p.echo.Some? && p.echo.value.id == ident && p.echo.value.sq == sq
  }

  /** Index of the first packet that answers this echo, or the length. */
  function FirstAnswer(packets: seq<Packet>, ident: u16, sq: u16): (i: nat)
    ensures i <= |packets|
    ensures i < |packets| ==> Answers(packets[i], ident, sq)
    ensures forall j :: 0 <= j < i ==> !Answers(packets[j], ident, sq)
  {
    if packets == [] || Answers(packets[0], ident, sq) then 0
    else 1 + FirstAnswer(packets[1..], ident, sq)
  }

  function AnswerOf(net: Network, ttl: nat, q: nat, ident: u16): Option<Packet>
    requires ttl < 256
  {
    match net(ttl, q)
    case SendFailed => None
    case Heard(packets) =>
      var i := FirstAnswer(packets, ident, SeqOf(ttl, q));
      if i < |packets| then Some(packets[i]) else None
  }

  function Or(a: Option<Addr>, b: Option<Addr>): Option<Addr> { if a.Some? then a else b }

  function TypeOf(p: Packet): byte
    requires p.echo.Some?
  {
    p.echo.value.typ
  }

  function Note(f: Found, p: Packet): Found
    requires p.echo.Some?
  {
    var typ := TypeOf(p);
    Found(Or(p.src, f.addr), f.rtts + [p.rtt],
          if typ == ECHO_REPLY || typ == DEST_UNREACHABLE then typ == ECHO_REPLY else f.reached)
  }

  function NoteDest(d: Dest, p: Packet): Dest
    requires p.echo.Some?
  {
    if TypeOf(p) == ECHO_REPLY then Dest(Or(p.src, d.addr), if d.rtt.Some? then d.rtt else Some(p.rtt)) else d
  }

  // ── One hop ─────────────────────────────────────────────────────────────────

  /** What the first `q` queries of a hop find. */
  function Probe(net: Network, ttl: nat, q: nat, ident: u16): Found
    requires ttl < 256
  {
    if q == 0 then Found(None, [], false) else
      var f, a := Probe(net, ttl, q - 1, ident), AnswerOf(net, ttl, q - 1, ident);
      if a.Some? then Note(f, a.value) else f
  }

  function ProbeDest(net: Network, ttl: nat, q: nat, ident: u16, before: Dest): Dest
    requires ttl < 256
  {
    if q == 0 then before else
      var d, a := ProbeDest(net, ttl, q - 1, ident, before), AnswerOf(net, ttl, q - 1, ident);
      if a.Some? then NoteDest(d, a.value) else d
  }

  function Least(s: seq<nat>): (m: nat)
    requires s != []
    ensures m in s && forall x :: x in s ==> m <= x
  {
    var rest, last := s[..|s| - 1], s[|s| - 1];
    assert s == rest + [last];
    if rest == [] || last < Least(rest) then last else Least(rest)
  }

  function Greatest(s: seq<nat>): (m: nat)
    requires s != []
    ensures m in s && forall x :: x in s ==> x <= m
  {
    var rest, last := s[..|s| - 1], s[|s| - 1];
    assert s == rest + [last];
    if rest == [] || last > Greatest(rest) then last else Greatest(rest)
  }

  function Sum(s: seq<nat>): nat {
    if s == [] then 0 else Sum(s[..|s| - 1]) + s[|s| - 1]
  }

  function HopOf(no: nat, f: Found, queries: nat): HopInput
    requires |f.rtts| <= queries
  {
    if f.rtts == [] then HopInput(no, f.addr, None, None, None, queries)
    else HopInput(no, f.addr, Some(Least(f.rtts)), Some(Sum(f.rtts) / |f.rtts|), Some(Greatest(f.rtts)),
                  queries - |f.rtts|)
  }

  lemma {:induction false} AtMostOneRttPerQuery(net: Network, ttl: nat, q: nat, ident: u16)
    requires ttl < 256
    ensures |Probe(net, ttl, q, ident).rtts| <= q
  {
    if q > 0 {
      AtMostOneRttPerQuery(net, ttl, q - 1, ident);
    }
  }

  function ExpectedHop(net: Network, ttl: nat, queries: nat, ident: u16): (h: HopInput)
    requires ttl < 256
    ensures h.no == ttl
  {
    AtMostOneRttPerQuery(net, ttl, queries, ident);
    HopOf(ttl, Probe(net, ttl, queries, ident), queries)
  }

  /** The first `k` hops were tried and none of them ended the walk. */
  ghost predicate GoesOn(net: Network, ttlOk: nat -> bool, k: nat, queries: nat, ident: u16)
    requires k < 256
  {
    forall ttl :: 1 <= ttl <= k ==> ttlOk(ttl) && !Probe(net, ttl, queries, ident).reached
  }

  ghost predicate HopsAre(net: Network, hops: seq<HopInput>, queries: nat, ident: u16)
    requires |hops| < 255
  {
    forall i :: 0 <= i < |hops| ==> hops[i] == ExpectedHop(net, i + 1, queries, ident)
  }

  lemma OneMoreHop(net: Network, ttlOk: nat -> bool, hops: seq<HopInput>, queries: nat, ident: u16)
    requires |hops| < 254 && HopsAre(net, hops, queries, ident)
    ensures HopsAre(net, hops + [ExpectedHop(net, |hops| + 1, queries, ident)], queries, ident)
    ensures GoesOn(net, ttlOk, |hops|, queries, ident) && ttlOk(|hops| + 1)
            && !Probe(net, |hops| + 1, queries, ident).reached ==>
              GoesOn(net, ttlOk, |hops| + 1, queries, ident)
  {
  }

  /** The queries of one hop, one after the other. */
  method ProbeHop(net: Network, ttl: nat, queries: nat, ident: u16, before: Dest) returns (found: Found, dest: Dest)
    requires ttl < 256
    ensures found == Probe(net, ttl, queries, ident)
    ensures dest == ProbeDest(net, ttl, queries, ident, before)
  {
    var addr: Option<Addr> := None;
    var rtts: seq<nat> := [];
    var reached := false;
    dest := before;
    for q := 0 to queries
      invariant Found(addr, rtts, reached) == Probe(net, ttl, q, ident)
      invariant dest == ProbeDest(net, ttl, q, ident, before)
    {
      var a := AnswerOf(net, ttl, q, ident);
      if a.Some? {
        var p := a.value;
        var typ := TypeOf(p);
        addr := Or(p.src, addr);
        rtts := rtts + [p.rtt];
        if typ == ECHO_REPLY || typ == DEST_UNREACHABLE {
          reached := typ == ECHO_REPLY;
          if reached {
            dest := Dest(Or(p.src, dest.addr), if dest.rtt.Some? then dest.rtt else Some(p.rtt));
          }
        }
      }
    }
    found := Found(addr, rtts, reached);
  }

  /** What a finished walk is: each hop's own account, the destination as seen on
      the way, and an end at the first hop marked reached, at a TTL that cannot be
      set, or at the limit. */
  ghost predicate IsWalk(net: Network, ttlOk: nat -> bool, maxHops: nat, queries: nat, ident: u16, out: Outcome)
    requires 1 <= maxHops <= 64
  {
    && |out.hops| <= maxHops && !(out.reached && out.failed)
    && HopsAre(net, out.hops, queries, ident)
    && out.dest == DestAfter(net, |out.hops|, queries, ident)
    && if out.reached then
         && |out.hops| > 0 && GoesOn(net, ttlOk, |out.hops| - 1, queries, ident)
         && ttlOk(|out.hops|) && Probe(net, |out.hops|, queries, ident).reached
       else
         && GoesOn(net, ttlOk, |out.hops|, queries, ident)
         && if out.failed then |out.hops| < maxHops && !ttlOk(|out.hops| + 1) else |out.hops| == maxHops
  }

  /** The walk.  `ttlOk` says for which TTLs the socket accepts the setting.
      Hops are numbered from 1 without a gap, and the walk ends at the first hop
      marked reached, at a TTL that cannot be set, or at the limit. */
  method TraceIpv4(net: Network, ttlOk: nat -> bool, maxHops: nat, queries: nat, ident: u16) returns (out: Outcome)
    requires 1 <= maxHops <= 64 && queries >= 1
    ensures IsWalk(net, ttlOk, maxHops, queries, ident, out)
  {
    var hops: seq<HopInput> := [];
    var dest := Dest(None, None);
    for ttl := 1 to maxHops + 1
      invariant |hops| == ttl - 1
      invariant HopsAre(net, hops, queries, ident)
      invariant GoesOn(net, ttlOk, ttl - 1, queries, ident)
      invariant dest == DestAfter(net, ttl - 1, queries, ident)
    {
      if !ttlOk(ttl) {
        return Outcome(hops, false, dest, true);
      }
      var found;
      found, dest := ProbeHop(net, ttl, queries, ident, dest);
      AtMostOneRttPerQuery(net, ttl, queries, ident);
      OneMoreHop(net, ttlOk, hops, queries, ident);
      hops := hops + [HopOf(ttl, found, queries)];
      if found.reached {
        return Outcome(hops, true, dest, false);
      }
    }
    return Outcome(hops, false, dest, false);
  }

  /** The destination as seen by the first `k` hops. */
  function DestAfter(net: Network, k: nat, queries: nat, ident: u16): Dest
    requires k < 256
  {
    if k == 0 then Dest(None, None) else ProbeDest(net, k, queries, ident, DestAfter(net, k - 1, queries, ident))
  }

  // ── When the destination replied ────────────────────────────────────────────

  /** Query `q` of the hop was answered by a message of this type. */
  predicate AnsweredBy(net: Network, ttl: nat, q: nat, ident: u16, typ: byte)
    requires ttl < 256
  {
    AnswerOf(net, ttl, q, ident).Some? && TypeOf(AnswerOf(net, ttl, q, ident).value) == typ
  }

  /** The destination replied to one of the hop's first `n` queries. */
  ghost predicate Replied(net: Network, ttl: nat, n: nat, ident: u16)
    requires ttl < 256
  {
    exists q :: 0 <= q < n && AnsweredBy(net, ttl, q, ident, ECHO_REPLY)
  }

  /** None of the queries from `lo` on was answered by Destination Unreachable. */
  ghost predicate NeverUnreachable(net: Network, ttl: nat, lo: nat, n: nat, ident: u16)
    requires ttl < 256
  {
    forall q :: lo <= q < n ==> !AnsweredBy(net, ttl, q, ident, DEST_UNREACHABLE)
  }

  /** The destination replied, but a later query of the same hop was answered by
      Destination Unreachable, and none replied after that. */
  ghost predicate Overridden(net: Network, ttl: nat, n: nat, ident: u16)
    requires ttl < 256
  {
    && Replied(net, ttl, n, ident)
    && forall q :: 0 <= q < n && AnsweredBy(net, ttl, q, ident, ECHO_REPLY) ==>
         !NeverUnreachable(net, ttl, q + 1, n, ident)
  }

  /** A hop is marked reached exactly when the destination replied to a query and no
      later one was answered by Destination Unreachable. */
  lemma {:induction false} ReachedMeans(net: Network, ttl: nat, n: nat, ident: u16)
    requires ttl < 256
    ensures Probe(net, ttl, n, ident).reached <==>
            exists q :: 0 <= q < n && AnsweredBy(net, ttl, q, ident, ECHO_REPLY)
              && NeverUnreachable(net, ttl, q + 1, n, ident)
  {
    if n > 0 {
      ReachedMeans(net, ttl, n - 1, ident);
      if Probe(net, ttl, n - 1, ident).reached && !AnsweredBy(net, ttl, n - 1, ident, DEST_UNREACHABLE) {
        var q :| 0 <= q < n - 1 && AnsweredBy(net, ttl, q, ident, ECHO_REPLY)
                 && NeverUnreachable(net, ttl, q + 1, n - 1, ident);
        assert NeverUnreachable(net, ttl, q + 1, n, ident);
      }
      if AnsweredBy(net, ttl, n - 1, ident, ECHO_REPLY) {
        assert NeverUnreachable(net, ttl, n, n, ident);
      }
    }
  }

  lemma ReachedOrOverridden(net: Network, ttl: nat, n: nat, ident: u16)
    requires ttl < 256
    ensures Replied(net, ttl, n, ident) <==> Probe(net, ttl, n, ident).reached || Overridden(net, ttl, n, ident)
    ensures !(Probe(net, ttl, n, ident).reached && Overridden(net, ttl, n, ident))
  {
    ReachedMeans(net, ttl, n, ident);
  }

  /** The RTT to the destination is that of the first packet of the walk by which it
      replied; the queries of one hop leave an earlier one alone. */
  lemma {:induction false} HopDestRtt(net: Network, ttl: nat, n: nat, ident: u16, before: Dest)
    requires ttl < 256
    ensures var d := ProbeDest(net, ttl, n, ident, before);
            && (before.rtt.Some? ==> d.rtt == before.rtt)
            && (before.rtt.None? ==> d.rtt == FirstReplyRtt(net, ttl, n, ident))
            && (FirstReplyRtt(net, ttl, n, ident).Some? <==> Replied(net, ttl, n, ident))
  {
    if n > 0 {
      HopDestRtt(net, ttl, n - 1, ident, before);
    }
  }

  /** The RTT of the first query that the destination replied to. */
  function FirstReplyRtt(net: Network, ttl: nat, n: nat, ident: u16): Option<nat>
    requires ttl < 256
  {
    if n == 0 then None
    else if FirstReplyRtt(net, ttl, n - 1, ident).Some? then FirstReplyRtt(net, ttl, n - 1, ident)
    else if AnsweredBy(net, ttl, n - 1, ident, ECHO_REPLY) then Some(AnswerOf(net, ttl, n - 1, ident).value.rtt)
    else None
  }

  ghost predicate FirstToReply(net: Network, ttl: nat, queries: nat, ident: u16)
    requires ttl < 256
  {
    Replied(net, ttl, queries, ident) && forall earlier :: 1 <= earlier < ttl ==> !Replied(net, earlier, queries, ident)
  }

  /** A reply that carries the address it came from. */
  predicate RepliedFrom(net: Network, ttl: nat, q: nat, ident: u16)
    requires ttl < 256
  {
    AnsweredBy(net, ttl, q, ident, ECHO_REPLY) && AnswerOf(net, ttl, q, ident).value.src.Some?
  }

  ghost predicate NoneRepliedFrom(net: Network, ttl: nat, lo: nat, n: nat, ident: u16)
    requires ttl < 256
  {
    forall q :: lo <= q < n ==> !RepliedFrom(net, ttl, q, ident)
  }

  /** Query `q` is the last whose reply carries an address. */
  ghost predicate LastRepliedFrom(net: Network, ttl: nat, q: nat, n: nat, ident: u16)
    requires ttl < 256
  {
    q < n && RepliedFrom(net, ttl, q, ident) && NoneRepliedFrom(net, ttl, q + 1, n, ident)
  }

  /** The destination's address is that of the hop's last reply that carries one. */
  lemma {:induction false} HopDestAddr(net: Network, ttl: nat, n: nat, ident: u16, before: Dest)
    requires ttl < 256
    ensures NoneRepliedFrom(net, ttl, 0, n, ident) ==> ProbeDest(net, ttl, n, ident, before).addr == before.addr
    ensures forall q :: LastRepliedFrom(net, ttl, q, n, ident) ==>
              ProbeDest(net, ttl, n, ident, before).addr == AnswerOf(net, ttl, q, ident).value.src
  {
    if n > 0 {
      HopDestAddr(net, ttl, n - 1, ident, before);
      forall q: nat | LastRepliedFrom(net, ttl, q, n, ident)
        ensures ProbeDest(net, ttl, n, ident, before).addr == AnswerOf(net, ttl, q, ident).value.src
      {
        if q < n - 1 {
          assert LastRepliedFrom(net, ttl, q, n - 1, ident);
          assert !RepliedFrom(net, ttl, n - 1, ident);
        }
      }
      if NoneRepliedFrom(net, ttl, 0, n, ident) {
        assert !RepliedFrom(net, ttl, n - 1, ident) && NoneRepliedFrom(net, ttl, 0, n - 1, ident);
      }
    }
  }

  /** A destination RTT is there exactly when the destination replied at some hop,
      and it is that of the first reply at the first such hop. */
  lemma {:induction false} DestMeans(net: Network, k: nat, queries: nat, ident: u16)
    requires k < 256
    ensures DestAfter(net, k, queries, ident).rtt.Some? <==>
            exists ttl :: 1 <= ttl <= k && Replied(net, ttl, queries, ident)
    ensures forall ttl :: 1 <= ttl <= k && FirstToReply(net, ttl, queries, ident) ==>
              DestAfter(net, k, queries, ident).rtt == FirstReplyRtt(net, ttl, queries, ident)
  {
    if k > 0 {
      DestMeans(net, k - 1, queries, ident);
      HopDestRtt(net, k, queries, ident, DestAfter(net, k - 1, queries, ident));
    }
  }

  ghost predicate NoneOverridden(net: Network, k: nat, queries: nat, ident: u16)
    requires k < 256
  {
    forall ttl :: 1 <= ttl <= k ==> !Overridden(net, ttl, queries, ident)
  }

  /** The walk stops when the destination replies: only its last hop can have a
      reply, and then the walk is marked reached. */
  ghost predicate StopsAtReply(net: Network, queries: nat, ident: u16, out: Outcome)
    requires |out.hops| < 256
  {
    forall ttl :: 1 <= ttl <= |out.hops| && Replied(net, ttl, queries, ident) ==> ttl == |out.hops| && out.reached
  }

  /** A walk stops when the destination replies if and only if no reply is overridden
      at its own hop.  The destination is timed exactly when the walk is marked
      reached, unless it is not and some reply was overridden. */
  lemma StopsExactly(net: Network, ttlOk: nat -> bool, maxHops: nat, queries: nat, ident: u16, out: Outcome)
    requires 1 <= maxHops <= 64 && IsWalk(net, ttlOk, maxHops, queries, ident, out)
    ensures StopsAtReply(net, queries, ident, out) <==> NoneOverridden(net, |out.hops|, queries, ident)
    ensures (out.dest.rtt.Some? <==> out.reached) <==> out.reached || NoneOverridden(net, |out.hops|, queries, ident)
  {
    var k := |out.hops|;
    DestMeans(net, k, queries, ident);
    forall ttl | 1 <= ttl <= k
      ensures Replied(net, ttl, queries, ident) <==>
              Probe(net, ttl, queries, ident).reached || Overridden(net, ttl, queries, ident)
      ensures !(Probe(net, ttl, queries, ident).reached && Overridden(net, ttl, queries, ident))
    {
      ReachedOrOverridden(net, ttl, queries, ident);
    }
    if out.reached {
      assert Replied(net, k, queries, ident);
    }
  }

  /** Two queries at TTL 1: the destination replies to the first, and the second is
      answered by Destination Unreachable.  The hop is not marked reached, although
      the destination has been timed. */
  lemma ReplyThenUnreachable(ident: u16) returns (net: Network)
    ensures AnsweredBy(net, 1, 0, ident, ECHO_REPLY) && AnsweredBy(net, 1, 1, ident, DEST_UNREACHABLE)
    ensures !Probe(net, 1, 2, ident).reached && ProbeDest(net, 1, 2, ident, Dest(None, None)).rtt == Some(7)
    ensures Overridden(net, 1, 2, ident)
  {
    var reply := Packet(Some(Echo(ECHO_REPLY, ident, SeqOf(1, 0))), None, 7);
    var error := Packet(Some(Echo(DEST_UNREACHABLE, ident, SeqOf(1, 1))), None, 9);
    net := (ttl: nat, q: nat) => Heard([if q == 0 then reply else error]);
    assert FirstAnswer([reply], ident, SeqOf(1, 0)) == 0;
    assert FirstAnswer([error], ident, SeqOf(1, 1)) == 0;
    assert AnswerOf(net, 1, 0, ident) == Some(reply) && AnswerOf(net, 1, 1, ident) == Some(error);
    assert Probe(net, 1, 1, ident) == Note(Probe(net, 1, 0, ident), reply);
    assert ProbeDest(net, 1, 1, ident, Dest(None, None)).rtt == Some(7);
    assert AnsweredBy(net, 1, 0, ident, ECHO_REPLY);
    ReachedOrOverridden(net, 1, 2, ident);
  }

  // ── What a stored hop says ──────────────────────────────────────────────────

  lemma {:induction false} SumBounds(s: seq<nat>, lo: nat, hi: nat)
    requires forall x :: x in s ==> lo <= x <= hi
    ensures |s| * lo <= Sum(s) <= |s| * hi
  {
    if s != [] {
      var rest, last := s[..|s| - 1], s[|s| - 1];
      assert s == rest + [last] && last in s;
      assert forall x :: x in rest ==> x in s;
      SumBounds(rest, lo, hi);
      Distribute(|rest|, 1, lo);
      Distribute(|rest|, 1, hi);
    }
  }

  /** Received and lost queries add up, and the three RTT figures are there
      together, in order, exactly when something was received. */
  lemma HopAccounting(no: nat, f: Found, queries: nat)
    requires |f.rtts| <= queries
    ensures var h := HopOf(no, f, queries);
            && |f.rtts| + h.loss == queries
            && Ordered(h)
            && (h.avgUs.Some? <==> h.loss < queries)
  {
    if f.rtts != [] {
      var n := |f.rtts|;
      var lo, hi, s := Least(f.rtts), Greatest(f.rtts), Sum(f.rtts);
      SumBounds(f.rtts, lo, hi);
      QuotientBounds(s, n, lo, hi);
    }
  }

  /** What a walk hands to storage: no two hops share a number, which the primary
      key of the hop table demands, and every hop's figures are in order. */
  lemma WalkIsStorable(net: Network, hops: seq<HopInput>, queries: nat, ident: u16)
    requires |hops| < 255 && HopsAre(net, hops, queries, ident)
    ensures DistinctNos(hops) && forall h :: h in hops ==> Ordered(h) && h.loss <= queries
  {
    forall h | h in hops
      ensures Ordered(h) && h.loss <= queries
    {
      var i :| 0 <= i < |hops| && hops[i] == h;
      AtMostOneRttPerQuery(net, i + 1, queries, ident);
      HopAccounting(i + 1, Probe(net, i + 1, queries, ident), queries);
    }
  }

  lemma QuotientBounds(s: nat, n: nat, lo: nat, hi: nat)
    requires n > 0 && n * lo <= s <= n * hi
    ensures lo <= s / n <= hi
  {
    DivMono(lo * n, s, n);
    DivMono(s, hi * n, n);
    DivUnique(lo * n, n, lo, 0);
    DivUnique(hi * n, n, hi, 0);
  }

  /** Every RTT that a hop counts was measured on a packet that answers an echo
      sent at that hop's TTL, and at no other. */
  lemma {:induction false} RttsAreTheHopsOwn(net: Network, ttl: nat, n: nat, ident: u16, rtt: nat, other: nat,
                                             q': nat)
    returns (q: nat, p: Packet)
    requires ttl < 256 && other < 256 && other != ttl
    requires rtt in Probe(net, ttl, n, ident).rtts
    ensures q < n && AnswerOf(net, ttl, q, ident) == Some(p) && p.rtt == rtt
    ensures Answers(p, ident, SeqOf(ttl, q)) && !Answers(p, ident, SeqOf(other, q'))
  {
    var a := AnswerOf(net, ttl, n - 1, ident);
    if a.Some? && a.value.rtt == rtt {
      q, p := n - 1, a.value;
      SeqIdentifiesHop(ttl, q, other, q');
    } else {
      q, p := RttsAreTheHopsOwn(net, ttl, n - 1, ident, rtt, other, q');
    }
  }
}
