/** Gateway detection: the hop-selection walk and the cached, merged result. */
module Gateways {
  import opened Samples

  datatype Ip = Ip(a: nat, b: nat, c: nat, d: nat)

  const TRACE_TARGET := Ip(8, 8, 8, 8)
  const TRACE_MAX_HOPS: nat := 12
  const REDETECT_AFTER_MS: nat := 300_000

  /** Private, link-local and shared address space. */
  predicate IsPrivate(ip: Ip) {
    || ip.a == 10
    || (ip.a == 172 && 16 <= ip.b <= 31)
    || (ip.a == 192 && ip.b == 168)
    || (ip.a == 169 && ip.b == 254)
    || (ip.a == 100 && 64 <= ip.b <= 127)
  }

  /** The address as a 32-bit number. */
  function Number(ip: Ip): nat { ((ip.a * 256 + ip.b) * 256 + ip.c) * 256 + ip.d }

  predicate Bytes(ip: Ip) { ip.a < 256 && ip.b < 256 && ip.c < 256 && ip.d < 256 }

  /** Private means one of 10.0.0.0/8, 172.16.0.0/12, 192.168.0.0/16, 169.254.0.0/16 and
      100.64.0.0/10: the number begins with the bits of one of these networks. */
  lemma PrivateNetworks(ip: Ip)
    requires Bytes(ip)
    ensures IsPrivate(ip) <==>
            || Number(ip) / 0x100_0000 == 10
            || Number(ip) / 0x10_0000 == 172 * 16 + 1
            || Number(ip) / 0x1_0000 == 192 * 256 + 168
            || Number(ip) / 0x1_0000 == 169 * 256 + 254
            || Number(ip) / 0x40_0000 == 100 * 4 + 1
  {
    LeadingBits(ip);
  }

  lemma LeadingBits(ip: Ip)
    requires Bytes(ip)
    ensures Number(ip) / 0x100_0000 == ip.a
    ensures Number(ip) / 0x10_0000 == ip.a * 16 + ip.b / 16
    ensures Number(ip) / 0x40_0000 == ip.a * 4 + ip.b / 64
    ensures Number(ip) / 0x1_0000 == ip.a * 256 + ip.b
  {
  }

  datatype Detected = Detected(local: Ip, isp: Option<Ip>)

  // ── The walk ────────────────────────────────────────────────────────────────

  /** The walk ends at a public hop; the trace target is one. */
  predicate Exits(answer: Option<Ip>) {
    answer.Some? && !IsPrivate(answer.value)
  }

  /** The hop the walk ends at is the first one that exits. */
  ghost predicate EndsAt(probe: nat -> Option<Ip>, stop: nat) {
    && 1 <= stop <= 13
    && (forall ttl :: 1 <= ttl < stop ==> !Exits(probe(ttl)))
    && (stop <= 12 ==> Exits(probe(stop)))
  }

  ghost predicate LastAnswer(probe: nat -> Option<Ip>, stop: nat, last: nat) {
    1 <= last < stop && probe(last).Some? && forall ttl :: last < ttl < stop ==> probe(ttl).None?
  }

  /** What a walk that ends at `stop` has found: the local gateway is the last hop
      that answered before, and private; the ISP gateway is the hop it ended at,
      unless that is the trace target.  Nothing is found exactly when no hop
      answered before the end. */
  ghost predicate Chosen(probe: nat -> Option<Ip>, stop: nat, found: Option<Detected>) {
    match found
    case None => forall ttl :: 1 <= ttl < stop ==> probe(ttl).None?
    case Some(d) =>
      && (exists last :: LastAnswer(probe, stop, last) && probe(last) == Some(d.local))
      && IsPrivate(d.local)
      && d.isp == if stop <= 12 && probe(stop) != Some(Ip(8, 8, 8, 8)) then probe(stop) else None
  }

  method SelectGateways(probe: nat -> Option<Ip>) returns (found: Option<Detected>)
    ensures exists stop :: EndsAt(probe, stop) && Chosen(probe, stop, found)
  {
    ghost var stop, last := TRACE_MAX_HOPS + 1, 0;
    var lastPrivate: Option<Ip> := None;
    var firstPublic: Option<Ip> := None;
    for ttl := 1 to TRACE_MAX_HOPS + 1
      invariant stop == TRACE_MAX_HOPS + 1 && firstPublic == None
      invariant forall i :: 1 <= i < ttl ==> !Exits(probe(i))
      invariant lastPrivate.None? ==> forall i :: 1 <= i < ttl ==> probe(i).None?
      invariant lastPrivate.Some? ==> LastAnswer(probe, ttl, last) && probe(last) == lastPrivate
    {
      var answer := probe(ttl);
      if answer.Some? {
        var ip := answer.value;
        if ip == TRACE_TARGET {
          stop := ttl;
          break;
        }
        if IsPrivate(ip) {
          lastPrivate := Some(ip);
          last := ttl;
        } else if firstPublic.None? {
          firstPublic := Some(ip);
          stop := ttl;
          break;
        }
      }
    }
    found := if lastPrivate.Some? then Some(Detected(lastPrivate.value, firstPublic)) else None;
    assert EndsAt(probe, stop) && Chosen(probe, stop, found);
  }

  // ── The cache ───────────────────────────────────────────────────────────────

  datatype Entry = Entry(detected: Option<Detected>, at: nat)

  type Cache = Option<Entry>

  /** One call of `resolve_gateways` with detection on: when it takes the lock,
      what a walk would find, and when that walk would end (milliseconds). */
  datatype Call = Call(now: nat, walk: Option<Detected>, end: nat)

  predicate Complete(c: Cache) {
    c.Some? && c.value.detected.Some? && c.value.detected.value.isp.Some?
  }

  predicate Fresh(c: Cache, now: nat) {
    c.Some? && now - c.value.at < REDETECT_AFTER_MS
  }

  predicate Walks(c: Cache, call: Call) {
    !Complete(c) && !Fresh(c, call.now)
  }

  function Merge(prior: Option<Detected>, walked: Option<Detected>): Option<Detected> {
    if prior.Some? && walked.Some? then
      Some(Detected(walked.value.local, if walked.value.isp.Some? then walked.value.isp else prior.value.isp))
    else if walked.Some? then walked else prior
  }

  function Known(c: Cache): Option<Detected> {
    if c.Some? then c.value.detected else None
  }

  function After(c: Cache, call: Call): Cache {
    if Walks(c, call) then Some(Entry(Merge(Known(c), call.walk), call.end)) else c
  }

  /** A gateway known before is known after; a complete pair is the same pair. */
  ghost predicate Keeps(before: Cache, after: Cache) {
    && (Known(before).Some? ==> Known(after).Some?)
    && (Known(before).Some? && Known(before).value.isp.Some? ==> Known(after).value.isp.Some?)
    && (Complete(before) ==> after == before)
  }

  /** No pair of both gateways is known, and nothing was tried in the last 300 s. */
  predicate IsDue(c: Cache, now: nat) {
    || c.None?
    || ((c.value.detected.None? || c.value.detected.value.isp.None?) && now - c.value.at >= 300_000)
  }

  class Detector {
    var cache: Cache

    constructor ()
      ensures cache == None
    {
      cache := None;
    }

    /** The pair a probe uses: explicit configuration first, then the cache, which
        is refreshed when it is incomplete and stale, then the routing table. */
    method ResolveGateways(gateway: Option<Ip>, ispGateway: Option<Ip>, call: Call, routed: Option<Ip>)
      returns (local: Option<Ip>, isp: Option<Ip>)
      modifies this
      ensures cache == if gateway.Some? then old(cache) else After(old(cache), call)
      ensures gateway.None? && IsDue(old(cache), call.now) ==>
                cache == Some(Entry(if call.walk.Some? then call.walk else Known(old(cache)), call.end))
      ensures gateway.Some? || !IsDue(old(cache), call.now) ==> cache == old(cache)
      ensures Keeps(old(cache), cache)
      ensures gateway.Some? ==> local == gateway && isp == ispGateway
      ensures gateway.None? ==> local == (if Known(cache).Some? then Some(Known(cache).value.local) else routed)
      ensures gateway.None? && ispGateway.Some? ==> isp == ispGateway
      ensures gateway.None? && ispGateway.None? ==> isp == (if Known(cache).Some? then Known(cache).value.isp else None)
    {
      if gateway.Some? {
        return gateway, ispGateway;
      }
      var complete := cache.Some? && cache.value.detected.Some? && cache.value.detected.value.isp.Some?;
      var recent := cache.Some? && call.now - cache.value.at < REDETECT_AFTER_MS;
      if !complete && !recent {
        var prior: Option<Detected> := if cache.Some? then cache.value.detected else None;
        var detected: Option<Detected>;
        if prior.Some? && call.walk.Some? {
          detected := Some(Detected(call.walk.value.local,
                                    if call.walk.value.isp.Some? then call.walk.value.isp else prior.value.isp));
        } else {
          detected := if call.walk.Some? then call.walk else prior;
        }
        cache := Some(Entry(detected, call.end));
      }
      var known: Option<Detected> := if cache.Some? then cache.value.detected else None;
      local := if known.Some? then Some(known.value.local) else routed;
      isp := if ispGateway.Some? then ispGateway else if known.Some? then known.value.isp else None;
    }

    /** The display of the path reads the same pair and never walks. */
    method ResolvedPath(gateway: Option<Ip>, ispGateway: Option<Ip>, routed: Option<Ip>)
      returns (local: Option<Ip>, isp: Option<Ip>)
      ensures gateway.Some? ==> local == gateway && isp == ispGateway
      ensures gateway.None? ==> local == (if Known(cache).Some? then Some(Known(cache).value.local) else routed)
      ensures gateway.None? && ispGateway.Some? ==> isp == ispGateway
      ensures gateway.None? && ispGateway.None? ==> isp == (if Known(cache).Some? then Known(cache).value.isp else None)
    {
      if gateway.Some? {
        return gateway, ispGateway;
      }
      var known: Option<Detected> := if cache.Some? then cache.value.detected else None;
      local := if known.Some? then Some(known.value.local) else routed;
      isp := if ispGateway.Some? then ispGateway else if known.Some? then known.value.isp else None;
    }
  }

  // ── Every run of calls ──────────────────────────────────────────────────────

  /** The calls hold the lock one after the other on a monotone clock. */
  ghost predicate Serial(calls: seq<Call>) {
    && (forall i :: 0 <= i < |calls| ==> calls[i].now <= calls[i].end)
    && (forall i, j :: 0 <= i < j < |calls| ==> calls[i].end <= calls[j].now)
  }

  /** The cache after the first `k` calls. */
  function CacheAt(calls: seq<Call>, k: nat): Cache
    requires k <= |calls|
  {
    if k == 0 then None else After(CacheAt(calls, k - 1), calls[k - 1])
  }

  lemma {:induction false} KnowledgeGrows(calls: seq<Call>, i: nat, j: nat)
    requires i <= j <= |calls|
    ensures Keeps(CacheAt(calls, i), CacheAt(calls, j))
    decreases j
  {
    if i < j {
      KnowledgeGrows(calls, i, j - 1);
    }
  }

  /** The attempt recorded in the cache is the end of the last walk. */
  lemma {:induction false} AttemptIsLastWalk(calls: seq<Call>, i: nat, j: nat)
    requires i < j <= |calls| && Serial(calls)
    requires Walks(CacheAt(calls, i), calls[i])
    ensures CacheAt(calls, j).Some? && CacheAt(calls, j).value.at >= calls[i].end
    decreases j
  {
    if i + 1 < j {
      AttemptIsLastWalk(calls, i, j - 1);
    }
  }

  /** On every run: walks are at least the retry interval apart, and once both
      gateways are known there is no further walk and the pair never changes. */
  lemma WalksAreSpaced(calls: seq<Call>, i: nat, j: nat)
    requires i < j < |calls| && Serial(calls)
    requires Walks(CacheAt(calls, i), calls[i]) && Walks(CacheAt(calls, j), calls[j])
    ensures calls[j].now >= calls[i].end + 300_000
    ensures forall k :: 0 <= k <= j ==> !Complete(CacheAt(calls, k))
  {
    AttemptIsLastWalk(calls, i, j);
    forall k | 0 <= k <= j
      ensures !Complete(CacheAt(calls, k))
    {
      KnowledgeGrows(calls, k, j);
    }
  }

  lemma {:induction false} CompletePairIsFinal(calls: seq<Call>, i: nat, j: nat)
    requires i <= j <= |calls| && Complete(CacheAt(calls, i))
    ensures CacheAt(calls, j) == CacheAt(calls, i)
    ensures j < |calls| ==> !Walks(CacheAt(calls, j), calls[j])
  {
    KnowledgeGrows(calls, i, j);
  }

  /** Call `i` is the last of the first `k` whose walk found anything. */
  ghost predicate LastFound(calls: seq<Call>, i: nat, k: nat)
    requires k <= |calls|
  {
    && i < k && Walks(CacheAt(calls, i), calls[i]) && calls[i].walk.Some?
    && forall j :: i < j < k && Walks(CacheAt(calls, j), calls[j]) ==> calls[j].walk.None?
  }

  /** What is known is verbatim what the last successful walk found, never a mix of
      two: a walk only happens while the ISP gateway is still missing. */
  lemma {:induction false} KnownIsOneWalk(calls: seq<Call>, k: nat)
    requires k <= |calls| && Known(CacheAt(calls, k)).Some?
    ensures exists i: nat :: LastFound(calls, i, k) && calls[i].walk == Known(CacheAt(calls, k))
  {
    var last := k - 1;
    if Walks(CacheAt(calls, last), calls[last]) && calls[last].walk.Some? {
      assert LastFound(calls, last, k);
    } else {
      KnownIsOneWalk(calls, last);
      var i: nat :| LastFound(calls, i, last) && calls[i].walk == Known(CacheAt(calls, last));
      assert LastFound(calls, i, k);
    }
  }
}
