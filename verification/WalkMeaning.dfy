/** What a traceroute walk stores about each hop, in plain terms. */
module WalkMeaning {
  import opened Samples
  import opened RowCounts
  import opened Icmp
  import opened Slots
  import opened TraceStore
  import opened TraceWalk

  // ── Answers ─────────────────────────────────────────────────────────────────

  /** A reply to the echo that query `q` at TTL `ttl` sent. */
  predicate RepliesTo(p: Packet, ttl: nat, q: nat, ident: u16) {
    p.echo.Some? && p.echo.value.id == ident && p.echo.value.sq == ttl * 256 + q % 256
  }

  /** A query is answered by the first packet heard that replies to it, and unanswered
      when its echo was not sent or no such packet was heard. */
  lemma AnswerIs(net: Network, ttl: nat, q: nat, ident: u16)
    requires ttl < 256
    ensures var a := AnswerOf(net, ttl, q, ident);
            match net(ttl, q)
            case SendFailed => a == None
            case Heard(packets) =>
              if exists p :: p in packets && RepliesTo(p, ttl, q, ident)
              then exists i :: 0 <= i < |packets| && a == Some(packets[i]) && RepliesTo(packets[i], ttl, q, ident)
                               && forall j :: 0 <= j < i ==> !RepliesTo(packets[j], ttl, q, ident)
              else a == None
  {
    match net(ttl, q)
    case SendFailed =>
    case Heard(packets) =>
      var i := FirstAnswer(packets, ident, SeqOf(ttl, q));
      assert i < |packets| ==> packets[i] in packets;
      if p :| p in packets && RepliesTo(p, ttl, q, ident) {
        var k :| 0 <= k < |packets| && packets[k] == p;
        assert Answers(packets[k], ident, SeqOf(ttl, q));
      }
  }

  predicate Answered(net: Network, ttl: nat, q: nat, ident: u16)
    requires ttl < 256
  {
    AnswerOf(net, ttl, q, ident).Some?
  }

  function Hears(net: Network, ttl: nat, ident: u16): nat -> bool
    requires ttl < 256
  {
    (q: nat) => Answered(net, ttl, q, ident)
  }

  /** The answered ones of the first `n` queries, in order. */
  function HeardQueries(net: Network, ttl: nat, n: nat, ident: u16): (qs: seq<nat>)
    requires ttl < 256
    ensures forall k :: 0 <= k < |qs| ==> qs[k] < n && AnswerOf(net, ttl, qs[k], ident).Some?
  {
    var qs := Filter(UpTo(n), Hears(net, ttl, ident));
    assert forall k :: 0 <= k < |qs| ==> qs[k] in qs;
    qs
  }

  /** A hop has one RTT for each answered query, in order: that of the answer. */
  lemma {:induction false} RttsAreTheAnswers(net: Network, ttl: nat, n: nat, ident: u16)
    requires ttl < 256
    ensures var rtts, qs := Probe(net, ttl, n, ident).rtts, HeardQueries(net, ttl, n, ident);
            |rtts| == |qs| && forall k :: 0 <= k < |qs| ==> rtts[k] == AnswerOf(net, ttl, qs[k], ident).value.rtt
  {
    if n > 0 {
      RttsAreTheAnswers(net, ttl, n - 1, ident);
      UpToNext(n - 1);
      FilterAppend<nat>(UpTo(n - 1), n - 1, Hears(net, ttl, ident));
    }
  }

  // ── The address ─────────────────────────────────────────────────────────────

  /** Query `q` has an answer that carries the address it came from. */
  predicate AnsweredFrom(net: Network, ttl: nat, q: nat, ident: u16)
    requires ttl < 256
  {
    Answered(net, ttl, q, ident) && AnswerOf(net, ttl, q, ident).value.src.Some?
  }

  ghost predicate NoneFrom(net: Network, ttl: nat, lo: nat, n: nat, ident: u16)
    requires ttl < 256
  {
    forall q :: lo <= q < n ==> !AnsweredFrom(net, ttl, q, ident)
  }

  /** The address is that of the last answer that carries one, and missing exactly when
      none does. */
  ghost predicate AddressIs(addr: Option<Addr>, net: Network, ttl: nat, n: nat, ident: u16)
    requires ttl < 256
  {
    if addr.None? then NoneFrom(net, ttl, 0, n, ident)
    else exists q: nat :: q < n && AnsweredFrom(net, ttl, q, ident) && NoneFrom(net, ttl, q + 1, n, ident)
                          && AnswerOf(net, ttl, q, ident).value.src == addr
  }

  lemma {:induction false} HopAddress(net: Network, ttl: nat, n: nat, ident: u16)
    requires ttl < 256
    ensures AddressIs(Probe(net, ttl, n, ident).addr, net, ttl, n, ident)
  {
    if n > 0 {
      HopAddress(net, ttl, n - 1, ident);
      NextAddress(net, ttl, n - 1, ident);
    }
  }

  lemma NextAddress(net: Network, ttl: nat, n: nat, ident: u16)
    requires ttl < 256 && AddressIs(Probe(net, ttl, n, ident).addr, net, ttl, n, ident)
    ensures AddressIs(Probe(net, ttl, n + 1, ident).addr, net, ttl, n + 1, ident)
  {
    var before, after := Probe(net, ttl, n, ident).addr, Probe(net, ttl, n + 1, ident).addr;
    if AnsweredFrom(net, ttl, n, ident) {
      assert after == AnswerOf(net, ttl, n, ident).value.src;
      assert NoneFrom(net, ttl, n + 1, n + 1, ident);
    } else {
      assert after == before;
      if before.Some? {
        var q: nat :| q < n && AnsweredFrom(net, ttl, q, ident) && NoneFrom(net, ttl, q + 1, n, ident)
                      && AnswerOf(net, ttl, q, ident).value.src == before;
        assert NoneFrom(net, ttl, q + 1, n + 1, ident);
      }
    }
  }

  // ── The stored hop ──────────────────────────────────────────────────────────

  /** The three RTT figures over the measured times: the least, the mean rounded down,
      the greatest; all missing when there are none. */
  ghost predicate FiguresAre(h: HopInput, rtts: seq<nat>) {
    if rtts == [] then h.minUs.None? && h.avgUs.None? && h.maxUs.None?
    else
      && h.minUs.Some? && h.avgUs.Some? && h.maxUs.Some?
      && h.minUs.value in rtts && h.maxUs.value in rtts
      && (forall x :: x in rtts ==> h.minUs.value <= x <= h.maxUs.value)
      && h.avgUs.value * |rtts| <= Total(rtts) < (h.avgUs.value + 1) * |rtts|
  }

  /** A stored hop, in plain terms. */
  ghost predicate HopSays(h: HopInput, net: Network, ttl: nat, queries: nat, ident: u16)
    requires ttl < 256
  {
    var qs := HeardQueries(net, ttl, queries, ident);
    && h.no == ttl
    && AddressIs(h.addr, net, ttl, queries, ident)
    && h.loss + |qs| == queries
    && FiguresAre(h, Times(net, ttl, qs, ident))
  }

  /** The times of the answers to these queries. */
  function Times(net: Network, ttl: nat, qs: seq<nat>, ident: u16): (ts: seq<nat>)
    requires ttl < 256 && forall k :: 0 <= k < |qs| ==> AnswerOf(net, ttl, qs[k], ident).Some?
    ensures |ts| == |qs| && forall k :: 0 <= k < |qs| ==> ts[k] == AnswerOf(net, ttl, qs[k], ident).value.rtt
  {
    seq<nat>(|qs|, k requires 0 <= k < |qs| => AnswerOf(net, ttl, qs[k], ident).value.rtt)
  }

  lemma {:induction false} SumIsTotal(s: seq<nat>)
    ensures Sum(s) == Total(s)
  {
    if s != [] {
      var init, last := s[..|s| - 1], s[|s| - 1];
      SumIsTotal(init);
      TotalAppend(init, last);
      assert init + [last] == s;
    }
  }

  lemma FloorOfMean(total: nat, number: nat)
    requires number > 0
    ensures total / number * number <= total < (total / number + 1) * number
  {
    DivMod(total, number);
    Distribute(total / number, 1, number);
  }

  lemma StoredFigures(no: nat, f: Found, queries: nat)
    requires |f.rtts| <= queries
    ensures FiguresAre(HopOf(no, f, queries), f.rtts)
  {
    if f.rtts != [] {
      SumIsTotal(f.rtts);
      FloorOfMean(Total(f.rtts), |f.rtts|);
    }
  }

  lemma StoredHopSays(net: Network, ttl: nat, queries: nat, ident: u16)
    requires ttl < 256
    ensures HopSays(ExpectedHop(net, ttl, queries, ident), net, ttl, queries, ident)
  {
    var f, qs := Probe(net, ttl, queries, ident), HeardQueries(net, ttl, queries, ident);
    AtMostOneRttPerQuery(net, ttl, queries, ident);
    RttsAreTheAnswers(net, ttl, queries, ident);
    HopAddress(net, ttl, queries, ident);
    StoredFigures(ttl, f, queries);
    assert f.rtts == Times(net, ttl, qs, ident);
  }

  /** Every hop of a finished walk: its number, the address of the last answer that
      carries one, the queries without an answer as its loss, and the least, mean and
      greatest time of the others. */
  lemma WalkSays(net: Network, ttlOk: nat -> bool, maxHops: nat, queries: nat, ident: u16, out: Outcome)
    requires 1 <= maxHops <= 64 && IsWalk(net, ttlOk, maxHops, queries, ident, out)
    ensures forall i :: 0 <= i < |out.hops| ==> HopSays(out.hops[i], net, i + 1, queries, ident)
  {
    forall i | 0 <= i < |out.hops|
      ensures HopSays(out.hops[i], net, i + 1, queries, ident)
    {
      StoredHopSays(net, i + 1, queries, ident);
    }
  }
}
