/**
 * The packets of the three MTProto transports as a client writes them, and what
 * the splitter (splitter.rs) makes of a stream of them. The writer is defined
 * by itself: nothing here is shared with the code that reads headers.
 */
module Packets {
  import opened Wrappers
  import opened Bytes
  import opened Crypto
  import opened Splitter

  /**
   * The ways to announce a payload: Abridged in one octet, Abridged in one and a
   * 24-bit word count, or 32 bits. Each has a spare top bit that a client may set.
   */
  datatype Form = Short(flag: bool) | Long(flag: bool) | Wide(flag: bool)

  datatype Packet = Packet(form: Form, payload: Bytes)

  /** The form can announce `n` octets of payload in this transport. */
  predicate Fits(proto: ProtoTag, form: Form, n: nat)
  {
    match form
    case Short(_) => proto.Abridged? && n % 4 == 0 && n / 4 <= 0x7e
    case Long(_) => proto.Abridged? && n % 4 == 0 && n / 4 < 0x100_0000
    case Wide(_) => !proto.Abridged? && n < 0x8000_0000
  }

  /** The header octets. */
  function Head(form: Form, n: nat): Bytes
  {
    match form
    case Short(flag) => [(n / 4 % 128 + (if flag then 0x80 else 0)) as byte]
    case Long(flag) =>
      var w := n / 4;
      [if flag then 0xff else 0x7f, (w % 256) as byte, (w / 256 % 256) as byte, (w / 65536 % 256) as byte]
    case Wide(flag) =>
      [(n % 256) as byte, (n / 256 % 256) as byte, (n / 65536 % 256) as byte,
       (n / 16777216 % 128 + (if flag then 0x80 else 0)) as byte]
  }

  predicate Legal(proto: ProtoTag, q: Packet)
  {
    Fits(proto, q.form, |q.payload|) && 0 < |q.payload| <= 0x100_0000
  }

  function Written(q: Packet): Bytes { Head(q.form, |q.payload|) + q.payload }

  function AllWritten(packets: seq<Packet>): (r: seq<Bytes>)
    ensures |r| == |packets|
  {
    seq(|packets|, i requires 0 <= i < |packets| => Written(packets[i]))
  }

  /** How any announced length is taken: 16 MiB are the most, and none at all ends the framing. */
  function Taken(n: nat, header: nat): ParsedLen
  {
    if n == 0 then Known(0) else if n > 0x100_0000 then Refused(n) else Known(header + n)
  }

  lemma ShortIsRead(flag: bool, n: nat, rest: Bytes)
    requires Fits(Abridged, Short(flag), n)
    ensures Announced(Abridged, Head(Short(flag), n) + rest) == Taken(n, 1)
  {
    var s := Head(Short(flag), n) + rest;
    assert s[0] as nat == n / 4 + (if flag then 0x80 else 0);
    assert n == 4 * (n / 4);
  }

  lemma LongIsRead(flag: bool, n: nat, rest: Bytes)
    requires Fits(Abridged, Long(flag), n)
    ensures Announced(Abridged, Head(Long(flag), n) + rest) == Taken(n, 4)
  {
    var h := Head(Long(flag), n);
    var s := h + rest;
    assert s[0] == h[0] && s[1] == h[1] && s[2] == h[2] && s[3] == h[3];
    WordIsRead(n / 4, h[1], h[2], h[3]);
    assert n == 4 * (n / 4);
  }

  lemma WordIsRead(w: nat, a: byte, b: byte, c: byte)
    requires w < 0x100_0000 && a as nat == w % 256 && b as nat == w / 256 % 256 && c as nat == w / 65536 % 256
    ensures FromLe32(a, b, c, 0) == w
  {
    Places(w);
  }

  lemma WideIsRead(proto: ProtoTag, flag: bool, n: nat, rest: Bytes)
    requires Fits(proto, Wide(flag), n)
    ensures Announced(proto, Head(Wide(flag), n) + rest) == Taken(n, 4)
  {
    var h := Head(Wide(flag), n);
    var s := h + rest;
    assert s[0] == h[0] && s[1] == h[1] && s[2] == h[2] && s[3] == h[3];
    SizeIsRead(n, flag, h[0], h[1], h[2], h[3]);
  }

  lemma SizeIsRead(n: nat, flag: bool, a: byte, b: byte, c: byte, d: byte)
    requires n < 0x8000_0000
    requires a as nat == n % 256 && b as nat == n / 256 % 256 && c as nat == n / 65536 % 256
    requires d as nat == n / 16777216 % 128 + (if flag then 0x80 else 0)
    ensures FromLe32(a, b, c, d) % 0x8000_0000 == n
  {
    Places(n);
    HighPart(n);
    assert FromLe32(a, b, c, d) == n + (if flag then 0x8000_0000 else 0);
    TopBit(n, flag);
  }

  lemma HighPart(n: nat)
    requires n < 0x8000_0000
    ensures n / 16777216 % 128 == n / 16777216
  {
  }

  lemma Places(n: nat)
    requires n < 0x1_0000_0000
    ensures n == n % 256 + 256 * (n / 256 % 256) + 65536 * (n / 65536 % 256) + 16777216 * (n / 16777216)
  {
    Low16(n);
    Low24(n);
  }

  lemma TopBit(n: nat, flag: bool)
    requires n < 0x8000_0000
    ensures (n + (if flag then 0x8000_0000 else 0)) % 0x8000_0000 == n
  {
  }

  /** A written header announces its payload, whatever follows. */
  lemma HeadIsRead(proto: ProtoTag, form: Form, n: nat, rest: Bytes)
    requires Fits(proto, form, n)
    ensures Announced(proto, Head(form, n) + rest) == Taken(n, |Head(form, n)|)
  {
    match form
    case Short(flag) => ShortIsRead(flag, n, rest);
    case Long(flag) => LongIsRead(flag, n, rest);
    case Wide(flag) => WideIsRead(proto, flag, n, rest);
  }

  /** A legal packet announces exactly its own length. */
  lemma WrittenIsPacket(f: Bytes -> ParsedLen, proto: ProtoTag, q: Packet)
    requires Reads(f, proto) && Legal(proto, q)
    ensures IsPacket(f, Written(q))
  {
    HeadIsRead(proto, q.form, |q.payload|, q.payload);
    assert f(Written(q)) == Announced(proto, Written(q));
  }

  /** A beginning of a legal packet, short of the whole. */
  ghost predicate Begins(proto: ProtoTag, left: Bytes)
  {
    exists q :: Legal(proto, q) && left < Written(q)
  }

  lemma BeginningWaits(f: Bytes -> ParsedLen, proto: ProtoTag, left: Bytes)
    requires Reads(f, proto) && Begins(proto, left)
    ensures CutWith(f, left) == Cut([], left, Partial)
  {
    var q :| Legal(proto, q) && left < Written(q);
    WrittenIsPacket(f, proto, q);
    if f(left) != Incomplete {
      HeaderIsLocal(f, proto, left, Written(q)[|left|..]);
      assert left + Written(q)[|left|..] == Written(q);
    }
  }

  /**
   * The splitter undoes the writer: a stream of legal packets, whatever their
   * forms and sizes, is cut into exactly those packets, and the beginning of a
   * further one is kept back.
   */
  lemma WrittenComesBack(proto: ProtoTag, packets: seq<Packet>, left: Bytes)
    requires forall i :: 0 <= i < |packets| ==> Legal(proto, packets[i])
    requires Begins(proto, left) || left == []
    ensures CutStream(proto, Concat(AllWritten(packets)) + left) == Cut(AllWritten(packets), left, Partial)
  {
    var f: Bytes -> ParsedLen := x => Announced(proto, x);
    var wire := AllWritten(packets);
    WireIsPackets(f, proto, packets);
    CutAfterPackets(f, proto, wire, left);
    CutWithAgrees(f, proto, Concat(wire) + left);
    if left == [] {
      assert f(left) == Announced(proto, left) == Incomplete;
    } else {
      BeginningWaits(f, proto, left);
    }
    assert wire + [] == wire;
  }

  lemma WireIsPackets(f: Bytes -> ParsedLen, proto: ProtoTag, packets: seq<Packet>)
    requires Reads(f, proto) && forall i :: 0 <= i < |packets| ==> Legal(proto, packets[i])
    ensures AllPackets(f, AllWritten(packets))
  {
    forall i | 0 <= i < |packets|
      ensures IsPacket(f, AllWritten(packets)[i])
    {
      WrittenIsPacket(f, proto, packets[i]);
    }
  }

  /**
   * After such packets, a header that announces more than 16 MiB is refused and
   * one that announces nothing ends the framing, whatever follows.
   */
  lemma OthersEndTheFraming(proto: ProtoTag, packets: seq<Packet>, form: Form, n: nat, later: Bytes)
    requires forall i :: 0 <= i < |packets| ==> Legal(proto, packets[i])
    requires Fits(proto, form, n) && (n == 0 || n > 0x100_0000)
    ensures CutStream(proto, Concat(AllWritten(packets)) + (Head(form, n) + later))
      == Cut(AllWritten(packets), Head(form, n) + later, if n == 0 then Raw else TooLarge(n))
  {
    var f: Bytes -> ParsedLen := x => Announced(proto, x);
    var wire, rest := AllWritten(packets), Head(form, n) + later;
    WireIsPackets(f, proto, packets);
    CutAfterPackets(f, proto, wire, rest);
    CutWithAgrees(f, proto, Concat(wire) + rest);
    HeadIsRead(proto, form, n, later);
    assert f(rest) == Announced(proto, rest);
    assert CutWith(f, rest) == Cut([], rest, if n == 0 then Raw else TooLarge(n));
    assert wire + [] == wire;
  }
}
