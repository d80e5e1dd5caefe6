/** The ICMP echo codec: internet checksum (section 1 of RFC 1071), echo packets
and the two reply parsers (RFC 792, header length of section 3.1 of RFC 791). */
module Icmp {
  import opened Samples

  type byte = x: int | 0 <= x < 256
  type u16 = x: int | 0 <= x < 0x1_0000
  newtype u32 = x: int | 0 <= x < 0x1_0000_0000

  const ECHO_REPLY: byte := 0
  const DEST_UNREACHABLE: byte := 3
  const ECHO_REQUEST: byte := 8
  const TIME_EXCEEDED: byte := 11

  // ── The one's-complement sum ────────────────────────────────────────────────

  /** A big-endian word. */
  function Word(a: byte, b: byte): u16 { a as int * 256 + b as int }

  /** Addition of 16-bit words with end-around carry. */
  function OnesAdd(a: u16, b: u16): u16 {
    if a + b > 0xffff then a + b - 0xffff else a + b
  }

  /** The `i`-th big-endian word; an odd last byte is padded with zero. */
  function WordAt(data: seq<byte>, i: nat): u16
    requires 2 * i < |data|
  {
    Word(data[2 * i], if 2 * i + 1 < |data| then data[2 * i + 1] else 0)
  }

  function WordCount(data: seq<byte>): nat { (|data| + 1) / 2 }

  /** The one's-complement sum of the first `k` words. */
  function OnesSum(data: seq<byte>, k: nat): u16
    requires k <= WordCount(data)
  {
    if k == 0 then 0 else OnesAdd(OnesSum(data, k - 1), WordAt(data, k - 1))
  }

  /** The internet checksum: the complement of the one's-complement sum. */
  function InternetChecksum(data: seq<byte>): u16 {
    0xffff - OnesSum(data, WordCount(data))
  }

  /** The ordinary sum, as the loop accumulates it. */
  function PlainSum(data: seq<byte>, k: nat): (s: nat)
    requires k <= WordCount(data)
    ensures s <= 0xffff * k
  {
    if k == 0 then 0 else PlainSum(data, k - 1) + WordAt(data, k - 1)
  }

  /** The 16-bit value that folding the carries of a sum ends in. */
  function Canon(s: nat): u16 {
    if s == 0 then 0 else (s - 1) % 0xffff + 1
  }

  lemma CanonAdd(s: nat, w: u16)
    ensures OnesAdd(Canon(s), w) == Canon(s + w)
  {
  }

  lemma CanonSmall(s: u16)
    ensures Canon(s) == s
  {
  }

  /** Folding one carry keeps the value. */
  lemma CanonFold(s: nat)
    requires s >= 0x1_0000
    ensures Canon(s % 0x1_0000 + s / 0x1_0000) == Canon(s)
  {
    var q, r := s / 0x1_0000, s % 0x1_0000;
    assert s - 1 == 0xffff * q + (q + r - 1);
    assert (s - 1) % 0xffff == (q + r - 1) % 0xffff by {
      ModShift(q + r - 1, q);
    }
  }

  lemma {:induction false} ModShift(a: nat, q: nat)
    ensures (0xffff * q + a) % 0xffff == a % 0xffff
  {
    if q > 0 {
      ModShift(a, q - 1);
      assert 0xffff * q + a == 0xffff * (q - 1) + a + 0xffff;
    }
  }

  lemma {:induction false} OnesSumIsCanon(data: seq<byte>, k: nat)
    requires k <= WordCount(data)
    ensures OnesSum(data, k) == Canon(PlainSum(data, k))
  {
    if k > 0 {
      OnesSumIsCanon(data, k - 1);
      CanonAdd(PlainSum(data, k - 1), WordAt(data, k - 1));
    }
  }

  /** The 32-bit loop of the probes.  Nothing overflows up to the largest IPv4
      datagram, the folding terminates, and the result is the RFC's. */
  method Checksum(data: seq<byte>) returns (c: u16)
    requires |data| <= 65_535
    ensures c == InternetChecksum(data)
  {
    var sum := SumWords(data);
    var folded := FoldCarries(sum);
    OnesSumIsCanon(data, WordCount(data));
    c := 0xffff - folded;
  }

  method SumWords(data: seq<byte>) returns (sum: u32)
    requires |data| <= 65_535
    ensures sum as int == PlainSum(data, WordCount(data))
  {
    sum := 0;
    var i := 0;
    while i + 1 < |data|
      invariant i % 2 == 0 && i <= |data|
      invariant sum as int == PlainSum(data, i / 2)
    {
      sum := sum + Word(data[i], data[i + 1]) as u32;
      i := i + 2;
    }
    if i < |data| {
      sum := sum + Word(data[i], 0) as u32;
    }
  }

  method FoldCarries(start: u32) returns (c: u16)
    ensures c == Canon(start as int)
  {
    var sum := start;
    while sum / 0x1_0000 != 0
      invariant Canon(sum as int) == Canon(start as int)
      decreases sum
    {
      CanonFold(sum as int);
      sum := sum % 0x1_0000 + sum / 0x1_0000;
    }
    CanonSmall(sum as int);
    c := sum as int;
  }

  // ── Echo packets ────────────────────────────────────────────────────────────

  function Hi(x: u16): byte { x / 256 }

  function Lo(x: u16): byte { x % 256 }

  function Zeros(n: nat): seq<byte> { seq(n, _ => 0) }

  /** An echo request with a zero checksum and eight bytes of payload. */
  function Unsigned(id: u16, sq: u16): seq<byte> {
    [ECHO_REQUEST, 0, 0, 0, Hi(id), Lo(id), Hi(sq), Lo(sq), 0, 0, 0, 0, 0, 0, 0, 0]
  }

  /** Writing a word into the data. */
  function PutWord(data: seq<byte>, j: nat, w: u16): seq<byte>
    requires 2 * j + 1 < |data|
  {
    data[2 * j := Hi(w)][2 * j + 1 := Lo(w)]
  }

  function EchoPacket(id: u16, sq: u16): seq<byte> {
    PutWord(Unsigned(id, sq), 1, InternetChecksum(Unsigned(id, sq)))
  }

  method BuildEcho(id: u16, sq: u16) returns (p: array<byte>)
    ensures fresh(p) && p[..] == EchoPacket(id, sq)
  {
    p := new byte[16](_ => 0);
    p[0] := ECHO_REQUEST;
    p[4], p[5] := Hi(id), Lo(id);
    p[6], p[7] := Hi(sq), Lo(sq);
    assert p[..] == Unsigned(id, sq);
    var cks := Checksum(p[..]);
    p[2], p[3] := Hi(cks), Lo(cks);
  }

  lemma {:induction false} PlainSumPut(data: seq<byte>, j: nat, w: u16, k: nat)
    requires 2 * j + 1 < |data| && WordAt(data, j) == 0 && k <= WordCount(data)
    ensures PlainSum(PutWord(data, j, w), k) == PlainSum(data, k) + if j < k then w else 0
  {
    if k > 0 {
      PlainSumPut(data, j, w, k - 1);
      var i := k - 1;
      assert i != j ==> WordAt(PutWord(data, j, w), i) == WordAt(data, i);
    }
  }

  /** Data that carries its own checksum in a word that was zero checks to zero. */
  lemma SignedDataChecks(data: seq<byte>, j: nat)
    requires 2 * j + 1 < |data| && WordAt(data, j) == 0
    ensures InternetChecksum(PutWord(data, j, InternetChecksum(data))) == 0
  {
    var n := WordCount(data);
    var put := PutWord(data, j, InternetChecksum(data));
    var s := PlainSum(data, n);
    OnesSumIsCanon(data, n);
    OnesSumIsCanon(put, n);
    PlainSumPut(data, j, InternetChecksum(data), n);
    ComplementSum(s);
  }

  lemma ComplementSum(s: nat)
    ensures Canon(s + (0xffff - Canon(s))) == 0xffff
  {
    if s > 0 {
      var q := (s - 1) / 0xffff;
      assert s - Canon(s) == 0xffff * q;
      ModShift(0xfffe, q);
    }
  }

  lemma EchoChecks(id: u16, sq: u16)
    ensures InternetChecksum(EchoPacket(id, sq)) == 0
  {
    SignedDataChecks(Unsigned(id, sq), 1);
  }

  // ── Reply parsers ───────────────────────────────────────────────────────────

  datatype Echo = Echo(typ: byte, id: u16, sq: u16)

  function HeaderLength(first: byte): nat { first % 16 * 4 }

  /** The embedded datagram of an error message, from its own IP header on. */
  function Inner(buf: seq<byte>): seq<byte>
    requires |buf| >= 20 && |buf| >= HeaderLength(buf[0]) + 8
  {
    buf[HeaderLength(buf[0]) + 8..]
  }

  /** `parse_icmp_reply` of the traceroute probe. */
  function ParseIcmpReply(buf: seq<byte>): Option<Echo> {
    if |buf| < 20 || |buf| < HeaderLength(buf[0]) + 8 then None else
      var icmp := buf[HeaderLength(buf[0])..];
      var typ := icmp[0];
      if typ == ECHO_REPLY then Some(Echo(typ, Word(icmp[4], icmp[5]), Word(icmp[6], icmp[7])))
      else if typ == TIME_EXCEEDED || typ == DEST_UNREACHABLE then
        var inner := icmp[8..];
        if |inner| < 20 || |inner| < HeaderLength(inner[0]) + 8 then None else
          var echo := inner[HeaderLength(inner[0])..];
          Some(Echo(typ, Word(echo[4], echo[5]), Word(echo[6], echo[7])))
      else None
  }

  /** `parse_icmp` of the border probe: it wants 28 bytes of embedded datagram. */
  function ParseIcmp(buf: seq<byte>): Option<Echo> {
    if |buf| < 20 || |buf| < HeaderLength(buf[0]) + 8 then None else
      var icmp := buf[HeaderLength(buf[0])..];
      var typ := icmp[0];
      if typ == ECHO_REPLY then Some(Echo(typ, Word(icmp[4], icmp[5]), Word(icmp[6], icmp[7])))
      else if typ == TIME_EXCEEDED || typ == DEST_UNREACHABLE then
        var inner := icmp[8..];
        if |inner| < 28 || |inner| < HeaderLength(inner[0]) + 8 then None else
          var echo := inner[HeaderLength(inner[0])..];
          Some(Echo(typ, Word(echo[4], echo[5]), Word(echo[6], echo[7])))
      else None
  }

  /** An error message whose embedded datagram is complete only by an IP header
      shorter than the standard allows. */
  predicate StubInner(buf: seq<byte>) {
    && |buf| >= 20 && |buf| >= HeaderLength(buf[0]) + 8
    && buf[HeaderLength(buf[0])] in {TIME_EXCEEDED, DEST_UNREACHABLE}
    && 20 <= |Inner(buf)| < 28 && |Inner(buf)| >= HeaderLength(Inner(buf)[0]) + 8
  }

  /** The two parsers differ exactly on such stubs, whose inner IHL is below 5. */
  lemma ParsersDifferOnStubs(buf: seq<byte>)
    ensures ParseIcmpReply(buf) == ParseIcmp(buf) <==> !StubInner(buf)
    ensures StubInner(buf) ==> Inner(buf)[0] % 16 < 5
  {
    if |buf| >= 20 && |buf| >= HeaderLength(buf[0]) + 8 {
      assert buf[HeaderLength(buf[0])..][8..] == Inner(buf);
    }
  }

  /** A Time Exceeded message whose embedded datagram is twenty zero bytes: its IHL is
      zero, so the traceroute parser reads an echo from its first bytes. */
  lemma StubMessage() returns (buf: seq<byte>)
    ensures StubInner(buf) && ParseIcmpReply(buf) == Some(Echo(TIME_EXCEEDED, 0, 0)) && ParseIcmp(buf) == None
  {
    buf := [0x45] + Zeros(19) + ([TIME_EXCEEDED] + Zeros(27));
    assert buf[20..] == [TIME_EXCEEDED] + Zeros(27);
    assert buf[20..][8..] == Zeros(20);
    assert Inner(buf) == Zeros(20);
  }

  /** A header as section 3.1 of RFC 791 has it: IHL 5 to 15, that many words. */
  predicate IpHeader(h: seq<byte>) {
    |h| >= 20 && h[0] % 16 >= 5 && |h| == 4 * (h[0] % 16)
  }

  lemma HeaderIsWhole(h: seq<byte>)
    requires IpHeader(h)
    ensures HeaderLength(h[0]) == |h|
  {
  }

  /** An echo reply carries back the request's identifier, sequence and payload. */
  lemma ParseReplyOfEcho(ip: seq<byte>, head: seq<byte>, id: u16, sq: u16, trailer: seq<byte>)
    requires IpHeader(ip) && |head| == 4 && head[0] == 0
    ensures var buf := ip + head + EchoPacket(id, sq)[4..] + trailer;
            ParseIcmpReply(buf) == ParseIcmp(buf) == Some(Echo(0, id, sq))
  {
    var tail := EchoPacket(id, sq)[4..] + trailer;
    var buf := ip + head + EchoPacket(id, sq)[4..] + trailer;
    HeaderIsWhole(ip);
    EchoBytes(id, sq);
    assert buf == ip + (head + tail);
    assert buf[0] == ip[0] && buf[|ip|..] == head + tail;
  }

  /** An error message is read from its embedded datagram. */
  lemma ParseError(ip: seq<byte>, head: seq<byte>, inner: seq<byte>, echo: seq<byte>)
    requires IpHeader(ip) && IpHeader(inner) && |echo| >= 8
    requires |head| == 8 && head[0] in {11, 3}
    ensures var buf := ip + head + (inner + echo);
            ParseIcmpReply(buf) == ParseIcmp(buf) == Some(Echo(head[0], Word(echo[4], echo[5]), Word(echo[6], echo[7])))
  {
    var rest := inner + echo;
    var buf := ip + head + rest;
    HeaderIsWhole(ip);
    HeaderIsWhole(inner);
    assert buf[0] == ip[0];
    var icmp := buf[|ip|..];
    assert icmp == head + rest && icmp[0] == head[0];
    assert icmp[8..] == rest;
    assert rest[0] == inner[0] && rest[|inner|..] == echo;
  }

  /** An echo request: type 8, code 0, its identifier and sequence number, and eight
      zero bytes of payload. */
  lemma EchoBytes(id: u16, sq: u16)
    ensures var p := EchoPacket(id, sq);
            && |p| == 16 && p[0] == 8 && p[1] == 0
            && p[4] as int * 256 + p[5] as int == id && p[6] as int * 256 + p[7] as int == sq
            && forall i :: 8 <= i < 16 ==> p[i] == 0
  {
  }

  lemma WordsOfEcho(id: u16, sq: u16, kept: nat, trailer: seq<byte>)
    requires 8 <= kept <= |EchoPacket(id, sq)|
    ensures var echo := EchoPacket(id, sq)[..kept] + trailer;
            |echo| >= 8 && Word(echo[4], echo[5]) == id && Word(echo[6], echo[7]) == sq
  {
    EchoBytes(id, sq);
  }

  /** An error message embeds the offending IP header and at least the first
      eight bytes of the echo: both parsers recover the echo they answer. */
  lemma ParseErrorOfEcho(ip: seq<byte>, head: seq<byte>, inner: seq<byte>, id: u16, sq: u16, kept: nat,
                         trailer: seq<byte>)
    requires IpHeader(ip) && IpHeader(inner)
    requires |head| == 8 && head[0] in {11, 3} && 8 <= kept <= |EchoPacket(id, sq)|
    ensures var buf := ip + head + (inner + (EchoPacket(id, sq)[..kept] + trailer));
            ParseIcmpReply(buf) == ParseIcmp(buf) == Some(Echo(head[0], id, sq))
  {
    var echo := EchoPacket(id, sq)[..kept] + trailer;
    WordsOfEcho(id, sq, kept, trailer);
    ParseError(ip, head, inner, echo);
  }

  // ── Sequence numbers ────────────────────────────────────────────────────────

  /** `(ttl << 8) | (q & 0xff)`. */
  function SeqOf(ttl: nat, q: nat): u16
    requires ttl < 256
  {
    ttl * 256 + q % 256
  }

  /** Two echoes share a sequence number exactly when they probe the same TTL
      with query numbers that agree modulo 256. */
  lemma SeqIdentifiesHop(ttl: nat, q: nat, ttl': nat, q': nat)
    requires ttl < 256 && ttl' < 256
    ensures SeqOf(ttl, q) == SeqOf(ttl', q') <==> ttl == ttl' && q % 256 == q' % 256
  {
    assert SeqOf(ttl, q) / 256 == ttl && SeqOf(ttl', q') / 256 == ttl';
  }
}
