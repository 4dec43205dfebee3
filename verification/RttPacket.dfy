/** What the meter reads of a packet: IPv4 (section 3.1 of RFC 791), IPv6 (section 3 of RFC 8200)
    and TCP (section 3.1 of RFC 9293) headers. Shifts and masks by powers of two are divisions and
    remainders of the bytes. */
module RttPacket {
  import opened Wrappers

  type Uint16 = x: int | 0 <= x < 0x1_0000
  type Uint32 = x: int | 0 <= x < 0x1_0000_0000

  /** An address is its 4 or 16 bytes. */
  type Addr = seq<Byte>

  datatype Flow = Flow(local: Addr, remote: Addr, localPort: Uint16, remotePort: Uint16)

  datatype Segment = Segment(flow: Flow, flags: Byte, seqNo: Uint32, ackNo: Uint32)

  // ---- Big-endian numbers ----

  function Get16(p: seq<Byte>, at: nat): Uint16
    requires at + 2 <= |p|
  {
    p[at] as int * 0x100 + p[at + 1] as int
  }

  function Get32(p: seq<Byte>, at: nat): Uint32
    requires at + 4 <= |p|
  {
    Get16(p, at) as int * 0x1_0000 + Get16(p, at + 2) as int
  }

  function Put16(v: Uint16): (p: seq<Byte>)
    ensures |p| == 2
  {
    [v / 0x100, v % 0x100]
  }

  function Put32(v: Uint32): (p: seq<Byte>)
    ensures |p| == 4
  {
    Put16(v / 0x1_0000) + Put16(v % 0x1_0000)
  }

  // ---- Reading ----

  function ParseSegment(local: Addr, remote: Addr, segment: seq<Byte>): Option<Segment> {
    if |segment| < 20 then None
    else Some(Segment(Flow(local, remote, Get16(segment, 0), Get16(segment, 2)),
                      segment[13], Get32(segment, 4), Get32(segment, 8)))
  }

  /** Total on every byte string: each index below is proved to be inside it. */
  function ParseTCP(p: seq<Byte>): Option<Segment> {
    if |p| < 1 then None
    else if p[0] / 16 == 4 then
      if |p| < 20 then None else
        var ihl := p[0] % 16 * 4;
        var total := Get16(p, 2);
        if ihl < 20 || ihl > |p| || p[9] != 6 || Get16(p, 6) % 0x2000 != 0 then None else
          var end := if total > |p| || total < ihl then |p| else total;
          ParseSegment(p[12..16], p[16..20], p[ihl..end])
    else if p[0] / 16 == 6 then
      if |p| < 40 || p[6] != 6 then None
      else ParseSegment(p[8..24], p[24..40], p[40..])
    else None
  }

  /** flags & (SYN | ACK) == SYN */
  predicate IsSyn(flags: Byte) {
    flags / 2 % 2 == 1 && flags / 16 % 2 == 0
  }

  /** flags & (SYN | ACK) == SYN | ACK */
  predicate IsSynAck(flags: Byte) {
    flags / 2 % 2 == 1 && flags / 16 % 2 == 1
  }

  /** The shifts and masks of the program are these divisions and remainders, for every byte. */
  lemma NibblesAreQuotients(b: bv8)
    ensures (b >> 4) as int == b as int / 16 && (b & 0x0f) as int == b as int % 16
  {
  }

  lemma SynBit(b: bv8)
    ensures b & 0x02 == 0x02 <==> b as int / 2 % 2 == 1
  {
  }

  lemma AckBit(b: bv8)
    ensures b & 0x10 == 0x10 <==> b as int / 16 % 2 == 1
  {
  }

  lemma FlagMasks(b: bv8)
    ensures b & 0x12 == 0x02 <==> IsSyn(b as int)
    ensures b & 0x12 == 0x12 <==> IsSynAck(b as int)
  {
    SynBit(b);
    AckBit(b);
    assert b & 0x12 == 0x02 <==> b & 0x02 == 0x02 && b & 0x10 != 0x10;
    assert b & 0x12 == 0x12 <==> b & 0x02 == 0x02 && b & 0x10 == 0x10;
  }

  // ---- Printing ----

  /** The bytes of a TCP header with a data offset of five words and nothing after it. */
  function SegmentBytes(sport: Uint16, dport: Uint16, flags: Byte, seqNo: Uint32, ackNo: Uint32): (s: seq<Byte>)
    ensures |s| == 20
  {
    Put16(sport) + Put16(dport) + Put32(seqNo) + Put32(ackNo) + [0x50, flags, 0, 0, 0, 0, 0, 0]
  }

  /** An IPv4 packet around a TCP header, with any options in between and the header length and
      total length to match. */
  function PacketBytes(flow: Flow, flags: Byte, seqNo: Uint32, ackNo: Uint32, options: seq<Byte>): (p: seq<Byte>)
    requires |flow.local| == 4 && |flow.remote| == 4
    requires |options| % 4 == 0 && |options| <= 40
    ensures |p| == 40 + |options|
  {
    [0x45 + |options| / 4, 0] + Put16(40 + |options|) + [0, 0, 0, 0, 0, 6, 0, 0] + flow.local + flow.remote
    + options + SegmentBytes(flow.localPort, flow.remotePort, flags, seqNo, ackNo)
  }

  /** An IPv6 packet around the same TCP header, with no extension headers. */
  function Packet6Bytes(flow: Flow, flags: Byte, seqNo: Uint32, ackNo: Uint32): (p: seq<Byte>)
    requires |flow.local| == 16 && |flow.remote| == 16
    ensures |p| == 60
  {
    [0x60, 0, 0, 0, 0, 20, 6, 64] + flow.local + flow.remote
    + SegmentBytes(flow.localPort, flow.remotePort, flags, seqNo, ackNo)
  }

  /** The printer as the source runs it: a zeroed buffer of forty bytes, filled in place. */
  method BuildPacket(flow: Flow, flags: Byte, seqNo: Uint32, ackNo: Uint32) returns (p: array<Byte>)
    requires |flow.local| == 4 && |flow.remote| == 4
    ensures fresh(p)
    ensures p[..] == PacketBytes(flow, flags, seqNo, ackNo, [])
  {
    hide Put16, Put32, SegmentBytes;
    p := new Byte[40](_ => 0);
    p[0] := 0x45;
    ghost var start: seq<Byte> := [0x45, 0];
    assert p[..2] == start;
    PutAt(p, 2, Put16(40));
    p[9] := 6;
    ghost var ip: seq<Byte> := [0, 0, 0, 0, 0, 6, 0, 0];
    assert p[..12] == start + Put16(40) + ip;
    PutAt(p, 12, flow.local);
    PutAt(p, 16, flow.remote);
    FillSegment(p, flow.localPort, flow.remotePort, flags, seqNo, ackNo);
    assert p[..] == p[..20] + p[20..];
  }

  /** What a printed packet holds where the reader does not look: no options, a data offset of five words, zeroes. */
  lemma PrintedElsewhere(flow: Flow, flags: Byte, seqNo: Uint32, ackNo: Uint32, k: nat)
    requires |flow.local| == 4 && |flow.remote| == 4
    requires k in {1, 4, 5, 6, 7, 8, 10, 11, 34, 35, 36, 37, 38, 39}
    ensures PacketBytes(flow, flags, seqNo, ackNo, [])[k] == 0 && PacketBytes(flow, flags, seqNo, ackNo, [])[32] == 0x50
  {
    hide Put16, Put32;
  }

  method FillSegment(p: array<Byte>, sport: Uint16, dport: Uint16, flags: Byte, seqNo: Uint32, ackNo: Uint32)
    requires p.Length == 40 && forall k | 32 <= k < 40 :: p[k] == 0
    modifies p
    ensures p[..20] == old(p[..20])
    ensures p[20..] == SegmentBytes(sport, dport, flags, seqNo, ackNo)
  {
    hide Put16, Put32;
    PutAt(p, 20, Put16(sport));
    PutAt(p, 22, Put16(dport));
    PutAt(p, 24, Put32(seqNo));
    PutAt(p, 28, Put32(ackNo));
    assert p[..32] == old(p[..20]) + Put16(sport) + Put16(dport) + Put32(seqNo) + Put32(ackNo);
    p[32] := 0x50;
    p[33] := flags;
    ghost var tail: seq<Byte> := [0x50, flags, 0, 0, 0, 0, 0, 0];
    assert p[32..] == tail;
    assert p[..] == p[..32] + p[32..];
  }

  /** copy(p[at:], bytes) */
  method PutAt(p: array<Byte>, at: nat, bytes: seq<Byte>)
    requires at + |bytes| <= p.Length
    modifies p
    ensures p[..at + |bytes|] == old(p[..at]) + bytes
    ensures forall k | at + |bytes| <= k < p.Length :: p[k] == old(p[k])
  {
    forall k | 0 <= k < |bytes| { p[at + k] := bytes[k]; }
  }

  // ---- The reader undoes the printers ----

  lemma SegmentRoundTrip(local: Addr, remote: Addr, sport: Uint16, dport: Uint16, flags: Byte, seqNo: Uint32,
                         ackNo: Uint32)
    ensures ParseSegment(local, remote, SegmentBytes(sport, dport, flags, seqNo, ackNo))
         == Some(Segment(Flow(local, remote, sport, dport), flags, seqNo, ackNo))
  {
    var s := SegmentBytes(sport, dport, flags, seqNo, ackNo);
    assert s[4] == Put32(seqNo)[0] && s[5] == Put32(seqNo)[1] && s[6] == Put32(seqNo)[2] && s[7] == Put32(seqNo)[3];
    assert s[8] == Put32(ackNo)[0] && s[9] == Put32(ackNo)[1] && s[10] == Put32(ackNo)[2] && s[11] == Put32(ackNo)[3];
  }

  /** Whatever options are inserted, and whatever bytes trail the packet the header announces, the
      reader gives back exactly the printed fields. */
  lemma PacketRoundTrip(flow: Flow, flags: Byte, seqNo: Uint32, ackNo: Uint32, options: seq<Byte>, trailing: seq<Byte>)
    requires |flow.local| == 4 && |flow.remote| == 4
    requires |options| % 4 == 0 && |options| <= 40
    ensures ParseTCP(PacketBytes(flow, flags, seqNo, ackNo, options) + trailing)
         == Some(Segment(flow, flags, seqNo, ackNo))
  {
    hide SegmentBytes, ParseSegment, Put16, Get16, Get32;
    var p := PacketBytes(flow, flags, seqNo, ackNo, options) + trailing;
    var ihl := 20 + |options|;
    assert p[2..4] == Put16(40 + |options|);
    GetPut16(p, 2, 40 + |options|);
    assert p[6] == 0 && p[7] == 0;
    GetZero(p, 6);
    assert p[12..16] == flow.local;
    assert p[16..20] == flow.remote;
    assert p[ihl..ihl + 20] == SegmentBytes(flow.localPort, flow.remotePort, flags, seqNo, ackNo);
    assert p[0] % 16 * 4 == ihl && p[0] / 16 == 4;
    SegmentRoundTrip(flow.local, flow.remote, flow.localPort, flow.remotePort, flags, seqNo, ackNo);
  }

  lemma GetPut16(p: seq<Byte>, at: nat, v: Uint16)
    requires at + 2 <= |p| && p[at..at + 2] == Put16(v)
    ensures Get16(p, at) == v
  {
    assert p[at] == p[at..at + 2][0] && p[at + 1] == p[at..at + 2][1];
  }

  lemma GetZero(p: seq<Byte>, at: nat)
    requires at + 2 <= |p| && p[at] == 0 && p[at + 1] == 0
    ensures Get16(p, at) == 0
  {
  }

  lemma Packet6RoundTrip(flow: Flow, flags: Byte, seqNo: Uint32, ackNo: Uint32)
    requires |flow.local| == 16 && |flow.remote| == 16
    ensures ParseTCP(Packet6Bytes(flow, flags, seqNo, ackNo)) == Some(Segment(flow, flags, seqNo, ackNo))
  {
    var p := Packet6Bytes(flow, flags, seqNo, ackNo);
    assert p[8..24] == flow.local;
    assert p[24..40] == flow.remote;
    assert p[40..] == SegmentBytes(flow.localPort, flow.remotePort, flags, seqNo, ackNo);
    SegmentRoundTrip(flow.local, flow.remote, flow.localPort, flow.remotePort, flags, seqNo, ackNo);
  }

  /** Everything the reader accepts is one of the two printed forms as far as the meter can tell:
      printing what was read and reading it again changes nothing. */
  lemma ReadingIsCanonical(p: seq<Byte>)
    requires ParseTCP(p).Some?
    ensures var s := ParseTCP(p).value;
      if p[0] / 16 == 4 then
        |s.flow.local| == 4 && |s.flow.remote| == 4
        && ParseTCP(PacketBytes(s.flow, s.flags, s.seqNo, s.ackNo, [])) == Some(s)
      else
        |s.flow.local| == 16 && |s.flow.remote| == 16
        && ParseTCP(Packet6Bytes(s.flow, s.flags, s.seqNo, s.ackNo)) == Some(s)
  {
    var s := ParseTCP(p).value;
    if p[0] / 16 == 4 {
      PacketRoundTrip(s.flow, s.flags, s.seqNo, s.ackNo, [], []);
      assert PacketBytes(s.flow, s.flags, s.seqNo, s.ackNo, []) + []
        == PacketBytes(s.flow, s.flags, s.seqNo, s.ackNo, []);
    } else {
      Packet6RoundTrip(s.flow, s.flags, s.seqNo, s.ackNo);
    }
  }

  // ---- Exactly what is read ----

  /** A TCP header is at this place, with at least its twenty fixed bytes before the end. */
  ghost predicate HeaderAt(p: seq<Byte>, at: nat, end: nat, s: Segment) {
    && at + 20 <= end <= |p|
    && p[at..at + 4] == Put16(s.flow.localPort) + Put16(s.flow.remotePort)
    && p[at + 4..at + 12] == Put32(s.seqNo) + Put32(s.ackNo)
    && p[at + 13] == s.flags
  }

  /** Version 4, a header of five words or more that is all there, protocol 6, and the first fragment or the whole:
      the length announced counts where it is possible. */
  ghost predicate IsTcp4(p: seq<Byte>, s: Segment) {
    && |p| >= 20 && 0x45 <= p[0] <= 0x4f && p[9] == 6 && p[6] % 0x20 == 0 && p[7] == 0
    && s.flow.local == p[12..16] && s.flow.remote == p[16..20]
    && var at: nat, total: nat := (p[0] as int - 0x40) * 4, p[2] as int * 0x100 + p[3];
       at <= |p| && HeaderAt(p, at, if at <= total <= |p| then total else |p|, s)
  }

  /** Version 6, and TCP directly behind the fixed header. */
  ghost predicate IsTcp6(p: seq<Byte>, s: Segment) {
    && |p| >= 40 && 0x60 <= p[0] <= 0x6f && p[6] == 6
    && s.flow.local == p[8..24] && s.flow.remote == p[24..40] && HeaderAt(p, 40, |p|, s)
  }

  ghost predicate IsTcp(p: seq<Byte>, s: Segment) {
    IsTcp4(p, s) || IsTcp6(p, s)
  }

  lemma HeaderExactly(p: seq<Byte>, at: nat, end: nat, local: Addr, remote: Addr, s: Segment)
    requires at <= end <= |p|
    ensures ParseSegment(local, remote, p[at..end]) == Some(s)
       <==> s.flow.local == local && s.flow.remote == remote && HeaderAt(p, at, end, s)
  {
    hide Get16, Get32, Put16, Put32;
    if at + 20 <= end {
      var q := p[at..end];
      Both16(q, 0, s.flow.localPort);
      Both16(q, 2, s.flow.remotePort);
      Both32(q, 4, s.seqNo);
      Both32(q, 8, s.ackNo);
      SliceOfSlice(p, at, end, 0, 4);
      SliceOfSlice(p, at, end, 4, 12);
      assert q[0..4] == q[0..2] + q[2..4] && q[4..12] == q[4..8] + q[8..12];
      Halves(q[0..2], q[2..4], Put16(s.flow.localPort), Put16(s.flow.remotePort));
      Halves(q[4..8], q[8..12], Put32(s.seqNo), Put32(s.ackNo));
    }
  }

  lemma SliceOfSlice(p: seq<Byte>, at: nat, end: nat, i: nat, j: nat)
    requires at <= end <= |p| && i <= j <= end - at
    ensures p[at..end][i..j] == p[at + i..at + j]
  {
    var a, b := p[at..end][i..j], p[at + i..at + j];
    forall k | 0 <= k < |a|
      ensures a[k] == b[k]
    {
      assert a[k] == p[at..end][i + k] == p[at + i + k];
    }
  }

  lemma Halves(a: seq<Byte>, b: seq<Byte>, c: seq<Byte>, d: seq<Byte>)
    requires |a| == |c|
    ensures a + b == c + d <==> a == c && b == d
  {
    if a + b == c + d {
      assert a == (a + b)[..|a|] && c == (c + d)[..|a|];
      assert b == (a + b)[|a|..] && d == (c + d)[|a|..];
    }
  }

  lemma Both16(p: seq<Byte>, at: nat, v: Uint16)
    requires at + 2 <= |p|
    ensures Get16(p, at) == v <==> p[at..at + 2] == Put16(v)
  {
    if Get16(p, at) == v {
      assert p[at..at + 2] == [p[at], p[at + 1]];
    } else {
      assert p[at] == p[at..at + 2][0] && p[at + 1] == p[at..at + 2][1];
    }
  }

  lemma Both32(p: seq<Byte>, at: nat, v: Uint32)
    requires at + 4 <= |p|
    ensures Get32(p, at) == v <==> p[at..at + 4] == Put32(v)
  {
    hide Get16, Put16;
    Both16(p, at, v / 0x1_0000);
    Both16(p, at + 2, v % 0x1_0000);
    assert p[at..at + 4] == p[at..at + 2] + p[at + 2..at + 4];
    Halves(p[at..at + 2], p[at + 2..at + 4], Put16(v / 0x1_0000), Put16(v % 0x1_0000));
  }

  /** Of arbitrary bytes the reader reads TCP exactly where the two headers say it is, and reads exactly the fields
      that are there: whatever else the headers hold, a lifetime, a checksum, the bit that forbids fragments. A
      UDP packet, a later fragment, another next header or a header cut short is nothing to it. */
  lemma ReadExactly(p: seq<Byte>, s: Segment)
    ensures ParseTCP(p) == Some(s) <==> IsTcp(p, s)
  {
    hide ParseSegment, HeaderAt;
    if |p| >= 20 && p[0] / 16 == 4 {
      var at, total := p[0] % 16 * 4, Get16(p, 2);
      var end := if total > |p| || total < at then |p| else total;
      assert Get16(p, 6) % 0x2000 == 0 <==> p[6] % 0x20 == 0 && p[7] == 0 by { NoFragment(p[6], p[7]); }
      if at <= |p| {
        HeaderExactly(p, at, end, p[12..16], p[16..20], s);
      }
    } else if |p| >= 40 && p[0] / 16 == 6 {
      HeaderExactly(p, 40, |p|, p[8..24], p[24..40], s);
      assert p[40..|p|] == p[40..];
    }
  }

  lemma NoFragment(a: Byte, b: Byte)
    ensures (a * 0x100 + b) % 0x2000 == 0 <==> a % 0x20 == 0 && b == 0
  {
    var low := a % 0x20 * 0x100 + b;
    assert a * 0x100 + b == 0x2000 * (a / 0x20) + low && 0 <= low < 0x2000;
  }
}
