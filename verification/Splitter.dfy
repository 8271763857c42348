/**
 * The MTProto message splitter (splitter.rs): cuts a plaintext stream that
 * arrives in arbitrary reads into transport packets, encrypting as it goes.
 *
 * `CutStream` is the reference: it looks at the whole stream at once. The
 * incremental `MsgSplitter` is proved to agree with it for every chunking.
 */
module Splitter {
  import opened Wrappers
  import opened Bytes
  import opened Crypto

  const MAX_PACKET_LEN: nat := 16 * 1024 * 1024

  // -------------------------------------------------------------- reference

  predicate Extended(b: byte) { b == 0x7f || b == 0xff }

  /** Length of the packet header a stream starts with. */
  function HeaderLen(proto: ProtoTag, s: Bytes): (n: nat)
    ensures n == 1 || n == 4
  {
    if proto.Abridged? && (s == [] || !Extended(s[0])) then 1 else 4
  }

  /** The payload length announced by that header. */
  function PayloadLen(proto: ProtoTag, s: Bytes): nat
    requires |s| >= HeaderLen(proto, s)
  {
    if proto.Abridged? then
      if Extended(s[0]) then 4 * FromLe32(s[1], s[2], s[3], 0) else 4 * ((s[0] as nat % 128))
    else
      FromLe32(s[0], s[1], s[2], s[3]) % 0x8000_0000
  }

  datatype ParsedLen = Incomplete | Known(len: nat) | Refused(payload: nat)

  /** `packet_len`: zero keeps its meaning, too much is refused. */
  function PacketLen(payload: nat, headerLen: nat): ParsedLen
  {
    if payload == 0 then Known(0)
    else if payload > MAX_PACKET_LEN then Refused(payload)
    else Known(payload + headerLen)
  }

  /** The total length of the packet a stream starts with, as far as it can be told. */
  function Announced(proto: ProtoTag, s: Bytes): ParsedLen
  {
    if |s| < HeaderLen(proto, s) then Incomplete
    else PacketLen(PayloadLen(proto, s), HeaderLen(proto, s))
  }

  datatype Tail = Partial | Raw | TooLarge(payload: nat)

  /** Complete packets, what is left over, and why the cutting stopped. */
  datatype Cut = Cut(packets: seq<Bytes>, rest: Bytes, tail: Tail)

  /** Cuts a whole stream, given how packet headers are read. */
  function CutWith(f: Bytes -> ParsedLen, s: Bytes): Cut
    decreases |s|
  {
    match f(s)
    case Incomplete => Cut([], s, Partial)
    case Refused(payload) => Cut([], s, TooLarge(payload))
    case Known(n) =>
      if n == 0 then Cut([], s, Raw)
      else if |s| < n then Cut([], s, Partial)
      else
        var more := CutWith(f, s[n..]);
        Cut([s[..n]] + more.packets, more.rest, more.tail)
  }

  /** The reference: the whole stream cut by the headers of `proto`. */
  function CutStream(proto: ProtoTag, s: Bytes): Cut
  {
    CutWith(x => Announced(proto, x), s)
  }

  /** Exactly one whole packet: its header announces precisely its own length. */
  predicate IsPacket(f: Bytes -> ParsedLen, s: Bytes)
  {
    s != [] && f(s) == Known(|s|)
  }

  predicate AllPackets(f: Bytes -> ParsedLen, parts: seq<Bytes>)
  {
    forall i :: 0 <= i < |parts| ==> IsPacket(f, parts[i])
  }

  /** `f` reads headers the way `proto` writes them. */
  ghost predicate Reads(f: Bytes -> ParsedLen, proto: ProtoTag)
  {
    forall s {:trigger Announced(proto, s)} :: f(s) == Announced(proto, s)
  }

  /** A complete header means the same whatever follows it. */
  lemma HeaderIsLocal(f: Bytes -> ParsedLen, proto: ProtoTag, s: Bytes, t: Bytes)
    requires Reads(f, proto) && f(s) != Incomplete
    ensures f(s + t) == f(s)
  {
    var u := s + t;
    assert Announced(proto, s) != Incomplete;
    assert u[0] == s[0];
    if HeaderLen(proto, s) == 4 {
      assert u[1] == s[1] && u[2] == s[2] && u[3] == s[3];
    }
    assert Announced(proto, u) == Announced(proto, s);
  }

  lemma PacketAlone(proto: ProtoTag, s: Bytes, n: nat)
    requires 0 < n <= |s| && Announced(proto, s) == Known(n)
    ensures Announced(proto, s[..n]) == Known(n)
  {
    var t := s[..n];
    assert n >= HeaderLen(proto, s);
    assert t[0] == s[0];
    if HeaderLen(proto, s) == 4 {
      assert t[1] == s[1] && t[2] == s[2] && t[3] == s[3];
    }
  }

  /** Only what the header reader says matters, not how it is written down. */
  lemma {:induction false} CutWithAgrees(f: Bytes -> ParsedLen, proto: ProtoTag, s: Bytes)
    requires Reads(f, proto)
    ensures CutWith(f, s) == CutStream(proto, s)
    decreases |s|
  {
    var a := Announced(proto, s);
    if a.Known? && 0 < a.len <= |s| {
      CutWithAgrees(f, proto, s[a.len..]);
    }
  }

  lemma ConcatCons(first: Bytes, rest: seq<Bytes>)
    ensures Concat([first] + rest) == first + Concat(rest)
  {
    assert ([first] + rest)[1..] == rest;
  }

  lemma CutStep(f: Bytes -> ParsedLen, s: Bytes) returns (first: Bytes, later: Bytes)
    requires f(s).Known? && 0 < f(s).len <= |s|
    ensures s == first + later && first != []
    ensures var c := CutWith(f, later); CutWith(f, s) == Cut([first] + c.packets, c.rest, c.tail)
  {
    first, later := s[..f(s).len], s[f(s).len..];
  }

  /** The reference loses nothing. */
  lemma {:induction false} CutIsPartition(f: Bytes -> ParsedLen, s: Bytes)
    ensures Concat(CutWith(f, s).packets) + CutWith(f, s).rest == s
    decreases |s|
  {
    if f(s).Known? && 0 < f(s).len <= |s| {
      var first, later := CutStep(f, s);
      CutIsPartition(f, later);
      var c := CutWith(f, later);
      PeelOne(first, c.packets, c.rest);
    } else {
      assert Concat([]) + s == s;
    }
  }

  lemma PeelOne(first: Bytes, packets: seq<Bytes>, rest: Bytes)
    ensures Concat([first] + packets) + rest == first + (Concat(packets) + rest)
  {
    ConcatCons(first, packets);
  }

  /** It cuts only at packet boundaries. */
  lemma {:induction false} CutGivesPackets(f: Bytes -> ParsedLen, proto: ProtoTag, s: Bytes)
    requires Reads(f, proto)
    ensures AllPackets(f, CutWith(f, s).packets)
    decreases |s|
  {
    var a := f(s);
    if a.Known? && 0 < a.len <= |s| {
      CutGivesPackets(f, proto, s[a.len..]);
      PacketAlone(proto, s, a.len) by { assert Announced(proto, s) == a; }
      assert f(s[..a.len]) == Announced(proto, s[..a.len]);
    }
  }

  lemma CutAfterPacket(f: Bytes -> ParsedLen, proto: ProtoTag, first: Bytes, later: Bytes)
    requires Reads(f, proto) && IsPacket(f, first)
    ensures var c := CutWith(f, later);
      CutWith(f, first + later) == Cut([first] + c.packets, c.rest, c.tail)
  {
    var whole := first + later;
    assert whole[..|first|] == first && whole[|first|..] == later;
    HeaderIsLocal(f, proto, first, later);
  }

  /** Whole packets in front of a stream are cut off one by one. */
  lemma {:induction false} CutAfterPackets(f: Bytes -> ParsedLen, proto: ProtoTag, parts: seq<Bytes>, s: Bytes)
    requires Reads(f, proto) && AllPackets(f, parts)
    ensures var c := CutWith(f, s);
      CutWith(f, Concat(parts) + s) == Cut(parts + c.packets, c.rest, c.tail)
  {
    var c := CutWith(f, s);
    if parts == [] {
      assert Concat(parts) + s == s;
      assert parts + c.packets == c.packets;
    } else {
      CutAfterPackets(f, proto, parts[1..], s);
      CutAfterPacket(f, proto, parts[0], Concat(parts[1..]) + s);
      PeelFirst(parts, s, c.packets);
    }
  }

  lemma PeelFirst(parts: seq<Bytes>, s: Bytes, more: seq<Bytes>)
    requires parts != []
    ensures Concat(parts) + s == parts[0] + (Concat(parts[1..]) + s)
    ensures parts + more == [parts[0]] + (parts[1..] + more)
  {
    Rebracket(parts[0], Concat(parts[1..]), s);
    Rebracket([parts[0]], parts[1..], more);
    assert parts == [parts[0]] + parts[1..];
  }

  // ----------------------------------------------------------- incremental

  /** The parts encrypted one after the other with one running cipher. */
  function EncryptParts(p: Primitives, c: Ctr, parts: seq<Bytes>): (r: seq<Bytes>)
    ensures |r| == |parts|
    decreases |parts|
  {
    if parts == [] then []
    else
      var n := |parts| - 1;
      EncryptParts(p, c, parts[..n]) + [Apply(p, c.Skip(|Concat(parts[..n])|), parts[n])]
  }

  /** Message boundaries do not disturb the keystream. */
  lemma {:induction false} EncryptPartsConcat(p: Primitives, c: Ctr, parts: seq<Bytes>)
    ensures Concat(EncryptParts(p, c, parts)) == Apply(p, c, Concat(parts))
    decreases |parts|
  {
    if parts != [] {
      var n := |parts| - 1;
      EncryptPartsConcat(p, c, parts[..n]);
      ConcatSnoc(EncryptParts(p, c, parts[..n]), Apply(p, c.Skip(|Concat(parts[..n])|), parts[n]));
      ConcatSnoc(parts[..n], parts[n]);
      assert parts == parts[..n] + [parts[n]];
      ApplySplit(p, c, Concat(parts[..n]), parts[n]);
    }
  }

  /** And each part stays as long as it was. */
  lemma {:induction false} EncryptPartsLengths(p: Primitives, c: Ctr, parts: seq<Bytes>, i: nat)
    requires i < |parts|
    ensures |EncryptParts(p, c, parts)[i]| == |parts[i]|
    decreases |parts|
  {
    if i < |parts| - 1 {
      EncryptPartsLengths(p, c, parts[..|parts| - 1], i);
    }
  }

  lemma HeldGrows(p: Primitives, start: Ctr, plain: seq<Bytes>, held: Bytes, piece: Bytes)
    ensures Apply(p, start.Skip(|Concat(plain)|), held + piece)
      == Apply(p, start.Skip(|Concat(plain)|), held) + Apply(p, start.Skip(|Concat(plain) + held|), piece)
    ensures Concat(plain) + (held + piece) == Concat(plain) + held + piece
  {
    ApplySplit(p, start.Skip(|Concat(plain)|), held, piece);
    assert start.Skip(|Concat(plain)|).Skip(|held|) == start.Skip(|Concat(plain) + held|);
  }

  /** What reading on in a header leads to. */
  datatype HeaderTurnEnd = NeedsMore | Ready | Last(part: Bytes) | TooMuch(payload: nat)

  datatype SplitResult = Parts(parts: seq<Bytes>) | PacketTooLarge(payload: nat)

  class MsgSplitter {
    const proto: ProtoTag
    var packet: Bytes
    var header: Bytes
    var headerLen: nat
    var packetLen: Option<nat>
    var disabled: bool

    // Specification only: the cipher at the start of the stream, the plaintext of
    // every part emitted, how many of those are whole packets, the plaintext of
    // `packet`, and every part emitted.
    ghost const start: Ctr
    ghost const f: Bytes -> ParsedLen
    ghost var plain: seq<Bytes>
    ghost var whole: nat
    ghost var held: Bytes
    ghost var emitted: seq<Bytes>

    constructor (proto: ProtoTag, ghost enc: AesCtr256)
      ensures this.proto == proto && start == enc.State() && Valid() && Synced(enc)
      ensures Fed() == [] && emitted == []
    {
      this.proto, packet, header, headerLen := proto, [], Zeros(4), 0;
      packetLen, disabled := None, false;
      start, plain, whole, held, emitted := enc.State(), [], 0, [], [];
      f := x => Announced(proto, x);
      new;
      assert f([]) == Announced(proto, []) == Incomplete;
    }

    /** All the plaintext taken in so far. */
    ghost function Fed(): Bytes
      reads this
    {
      Concat(plain) + held
    }

    /** The cipher stands where the emitted and held bytes leave it. */
    ghost predicate Synced(enc: AesCtr256)
      reads this, enc
    {
      && enc.State() == start.Skip(|Fed()|)
      && packet == Apply(enc.p, start.Skip(|Concat(plain)|), held)
      && emitted == EncryptParts(enc.p, start, plain)
    }

    ghost predicate Valid()
      reads this
    {
      && |header| == 4 && Reads(f, proto)
      && whole <= |plain| && AllPackets(f, plain[..whole])
      && if disabled then
           held == [] && CutWith(f, Concat(plain[whole..])) == Cut([], Concat(plain[whole..]), Raw)
         else
           whole == |plain| && HeaderRead()
    }

    /** What the header fields say about the held plaintext. */
    ghost predicate HeaderRead()
      requires |header| == 4
      reads this
    {
      match packetLen
      case None =>
        && headerLen == |held| && f(held) == Incomplete
        && |held| <= 4 && forall i :: 0 <= i < |held| ==> header[i] == held[i]
      case Some(n) =>
        && f(held) == Known(n)
        && |held| < n
    }

    /** The splitter has cut exactly where the reference cuts the whole stream. */
    lemma AgreesWithReference()
      requires Valid()
      ensures !disabled ==> CutStream(proto, Fed()) == Cut(plain, held, Partial)
      ensures disabled ==>
        && CutStream(proto, Fed()).tail == Raw
        && CutStream(proto, Fed()).packets == plain[..whole]
        && CutStream(proto, Fed()).rest == Concat(plain[whole..])
    {
      CutWithAgrees(f, proto, Fed());
      if !disabled {
        assert plain[..whole] == plain;
        CutAfterPackets(f, proto, plain, held);
        assert CutWith(f, held) == Cut([], held, Partial);
        assert plain + [] == plain;
      } else {
        var raw := Concat(plain[whole..]);
        CutAfterPackets(f, proto, plain[..whole], raw);
        ConcatAppend(plain[..whole], plain[whole..]);
        assert plain == plain[..whole] + plain[whole..];
        assert Fed() == Concat(plain[..whole]) + raw;
        assert plain[..whole] + [] == plain[..whole];
      }
    }

    /** While packets are framed, what left the splitter is what the reference cuts off, encrypted. */
    lemma FramedSoFar(enc: AesCtr256)
      requires Valid() && Synced(enc) && !disabled
      ensures CutStream(proto, Fed()).tail.Partial?
      ensures emitted == EncryptParts(enc.p, start, CutStream(proto, Fed()).packets)
    {
      AgreesWithReference();
    }

    /** `encrypt_into_packet` on one slice of the read buffer. */
    method EncryptIntoPacket(buf: array<byte>, lo: nat, hi: nat, enc: AesCtr256)
      requires lo <= hi <= buf.Length && Synced(enc)
      modifies this`packet, this`held, buf, enc
      ensures held == old(held) + old(buf[lo..hi]) && Synced(enc)
      ensures |packet| == |held| && Fed() == old(Fed()) + old(buf[lo..hi])
      ensures buf[hi..] == old(buf[hi..])
    {
      ghost var piece := buf[lo..hi];
      HeldGrows(enc.p, start, plain, held, piece);
      enc.ApplyKeystream(buf, lo, hi);
      packet := packet + buf[lo..hi];
      held := held + piece;
    }

    /** Moves the assembled packet out as one part. */
    method TakePacket(enc: AesCtr256) returns (part: Bytes)
      requires Synced(enc)
      modifies this`packet, this`plain, this`held, this`emitted
      ensures packet == [] && held == [] && plain == old(plain) + [old(held)]
      ensures emitted == old(emitted) + [part] && Synced(enc)
      ensures Fed() == old(Fed())
    {
      ConcatSnoc(plain, held);
      part := packet;
      packet := [];
      emitted := emitted + [part];
      plain, held := plain + [held], [];
      assert plain[..|plain| - 1] == old(plain);
    }

    /** `required_header_len`. */
    function RequiredHeaderLen(): nat
      requires |header| == 4
      reads this
    {
      HeaderWanted(proto, header, headerLen)
    }

    /** `parsed_packet_len`. */
    function ParsedPacketLen(): ParsedLen
      requires |header| == 4
      reads this
    {
      HeaderSays(proto, header, headerLen)
    }

    /** Takes header octets from `buf[lo..]` until the header wanted now is complete. */
    method TakeHeader(buf: array<byte>, lo: nat, enc: AesCtr256) returns (end: nat, complete: bool)
      requires lo < buf.Length && Valid() && Synced(enc) && !disabled && packetLen.None?
      modifies this`packet, this`held, this`header, this`headerLen, buf, enc
      ensures lo < end <= buf.Length && buf[end..] == old(buf[end..])
      ensures held == old(held) + old(buf[lo..end]) && Synced(enc) && |packet| == |held|
      ensures Fed() == old(Fed()) + old(buf[lo..end])
      ensures |header| == 4 && headerLen == |held| <= 4
      ensures forall i :: 0 <= i < |held| ==> header[i] == held[i]
      ensures !complete ==> end == buf.Length && f(held) == Incomplete
      ensures complete ==> ParsedPacketLen() == f(held)
    {
      WantsMore(f, proto, header, held);
      var required := RequiredHeaderLen();
      var take := if required - headerLen < buf.Length - lo then required - headerLen else buf.Length - lo;
      end := lo + take;
      ghost var piece := buf[lo..end];
      HeaderTaken(f, proto, header, held, piece);
      header := header[..headerLen] + buf[lo..end] + header[headerLen + take..];
      headerLen := headerLen + take;
      EncryptIntoPacket(buf, lo, end, enc);
      complete := headerLen >= required;
    }

    /** Fills the packet whose length is known, and moves it out when it is whole. */
    method FillPacket(buf: array<byte>, lo: nat, enc: AesCtr256) returns (end: nat, part: Option<Bytes>)
      requires lo <= buf.Length && Valid() && Synced(enc) && !disabled && packetLen.Some?
      modifies this, buf, enc
      ensures lo <= end <= buf.Length
      ensures Valid() && Synced(enc) && !disabled
      ensures Fed() + buf[end..] == old(Fed() + buf[lo..])
      ensures emitted == if part.None? then old(emitted) else old(emitted) + [part.value]
      ensures part.None? ==> end == buf.Length
      ensures lo < buf.Length ==> lo < end
    {
      var n := packetLen.value;
      var remaining := n - |packet|;
      var take := if remaining < buf.Length - lo then remaining else buf.Length - lo;
      end := lo + take;
      ghost var was, fed := buf[..], Fed();
      ghost var piece, before := buf[lo..end], held;
      assert plain[..whole] == plain;
      EncryptIntoPacket(buf, lo, end, enc);
      TailSlice(fed, was, lo, end);
      HeaderIsLocal(f, proto, before, piece);
      part := None;
      if |packet| == n {
        var whole' := FinishPacket(enc);
        part := Some(whole');
      }
    }

    /** The packet is whole: it leaves, and a new header begins. */
    method FinishPacket(enc: AesCtr256) returns (part: Bytes)
      requires Synced(enc) && !disabled && |header| == 4 && Reads(f, proto)
      requires whole == |plain| && AllPackets(f, plain) && IsPacket(f, held)
      modifies this
      ensures Valid() && Synced(enc) && !disabled
      ensures Fed() == old(Fed()) && emitted == old(emitted) + [part]
    {
      ghost var good, last := plain, held;
      part := TakePacket(enc);
      PacketDone(f, good, last);
      whole := whole + 1;
      headerLen := 0;
      packetLen := None;
      assert f([]) == Announced(proto, []) == Incomplete;
    }

    /** A zero-length packet: the rest of this read leaves in one part and framing ends. */
    method GiveUpFraming(buf: array<byte>, lo: nat, enc: AesCtr256) returns (part: Bytes)
      requires lo <= buf.Length && Synced(enc) && |header| == 4 && Reads(f, proto)
      requires whole == |plain| && AllPackets(f, plain) && f(held) == Known(0)
      modifies this, buf, enc
      ensures Valid() && Synced(enc) && disabled
      ensures Fed() == old(Fed()) + old(buf[lo..])
      ensures emitted == old(emitted) + [part]
    {
      ghost var before, later, good := held, buf[lo..], plain;
      assert buf[lo..buf.Length] == later;
      EncryptIntoPacket(buf, lo, buf.Length, enc);
      RawStaysRaw(f, proto, before, later);
      part := TakePacket(enc);
      disabled := true;
      headerLen := 0;
      packetLen := None;
      FramingEnds(good, before + later);
    }

    /** Once framing has ended every read leaves as one part. */
    method PassThrough(buf: array<byte>, enc: AesCtr256) returns (part: Bytes)
      requires Valid() && Synced(enc) && disabled
      modifies this`packet, this`plain, this`held, this`emitted, buf, enc
      ensures Valid() && Synced(enc)
      ensures Fed() == old(Fed()) + old(buf[..])
      ensures emitted == old(emitted) + [part]
    {
      ghost var later, before := buf[..], plain;
      assert buf[0..buf.Length] == later;
      EncryptIntoPacket(buf, 0, buf.Length, enc);
      assert held == later;
      part := TakePacket(enc);
      RawGrows(f, proto, before, whole, later);
    }

    /**
     * Reads on in the header and acts on what it announces. A known length leaves
     * the splitter ready to fill the packet.
     */
    method ReadHeader(buf: array<byte>, lo: nat, enc: AesCtr256) returns (end: nat, parsed: ParsedLen)
      requires lo < buf.Length && Valid() && Synced(enc) && !disabled && packetLen.None?
      modifies this`packet, this`held, this`header, this`headerLen, this`packetLen, buf, enc
      ensures lo < end <= buf.Length && Synced(enc) && |header| == 4
      ensures Fed() + buf[end..] == old(Fed() + buf[lo..])
      ensures parsed == f(held)
      ensures parsed.Incomplete? ==> Valid() && packetLen.None?
      ensures parsed.Known? && parsed.len > 0 ==> Valid() && packetLen.Some?
    {
      var complete;
      ghost var was, fed := buf[..], Fed();
      end, complete := TakeHeader(buf, lo, enc);
      TailSlice(fed, was, lo, end);
      assert f(held) == Announced(proto, held);
      parsed := if complete then ParsedPacketLen() else Incomplete;
      if parsed.Known? && parsed.len > 0 {
        packetLen := Some(parsed.len);
      }
    }

    /** The header part of one turn of the loop. */
    method HeaderTurn(buf: array<byte>, lo: nat, enc: AesCtr256) returns (end: nat, r: HeaderTurnEnd)
      requires lo < buf.Length && Valid() && Synced(enc) && !disabled && packetLen.None?
      modifies this, buf, enc
      ensures lo < end <= buf.Length
      ensures r.TooMuch? ==> CutStream(proto, old(Fed() + buf[lo..])).tail == TooLarge(r.payload)
      ensures r.NeedsMore? || r.Ready? ==>
        && Valid() && Synced(enc) && !disabled && (r.Ready? ==> packetLen.Some?)
        && Fed() + buf[end..] == old(Fed() + buf[lo..]) && emitted == old(emitted)
      ensures r.Last? ==>
        Valid() && Synced(enc) && Fed() == old(Fed() + buf[lo..]) && emitted == old(emitted) + [r.part]
    {
      var parsed;
      end, parsed := ReadHeader(buf, lo, enc);
      match parsed
      case Incomplete =>
        r := NeedsMore;
      case Refused(payload) =>
        RefusalIsFinal(held, buf[end..]);
        r := TooMuch(payload);
      case Known(len) =>
        if len == 0 {
          var part := GiveUpFraming(buf, end, enc);
          r := Last(part);
        } else {
          r := Ready;
        }
    }

    /** The loop of `split_and_encrypt`, entered while packets are still framed. */
    method SplitFramed(buf: array<byte>, enc: AesCtr256) returns (r: SplitResult)
      requires Valid() && Synced(enc) && !disabled
      modifies this, buf, enc
      ensures r.PacketTooLarge? ==> CutStream(proto, old(Fed()) + old(buf[..])).tail == TooLarge(r.payload)
      ensures r.Parts? ==>
        && Valid() && Synced(enc)
        && Fed() == old(Fed()) + old(buf[..])
        && emitted == old(emitted) + r.parts
    {
      ghost var total := Fed() + buf[..];
      assert buf[0..] == buf[..];
      var parts := [];
      var offset := 0;
      while offset < buf.Length
        invariant 0 <= offset <= buf.Length
        invariant Valid() && !disabled && Synced(enc)
        invariant Fed() + buf[offset..] == total
        invariant emitted == old(emitted) + parts
        decreases buf.Length - offset
      {
        if packetLen.None? {
          var found;
          offset, found := HeaderTurn(buf, offset, enc);
          match found
          case NeedsMore => continue;
          case TooMuch(payload) => return PacketTooLarge(payload);
          case Last(part) => return Parts(parts + [part]);
          case Ready =>
        }
        var part;
        offset, part := FillPacket(buf, offset, enc);
        if part.Some? {
          parts := parts + [part.value];
        }
      }
      assert Fed() + buf[offset..] == Fed();
      return Parts(parts);
    }

    /**
     * `split_and_encrypt`: consumes a read, returns the packets it completes.
     * `Fed` grows by exactly the read, and a refusal happens exactly when the
     * reference refuses the stream so far.
     */
    method SplitAndEncrypt(buf: array<byte>, enc: AesCtr256) returns (r: SplitResult)
      requires Valid() && Synced(enc)
      modifies this, buf, enc
      ensures r.PacketTooLarge? <==> CutStream(proto, old(Fed()) + old(buf[..])).tail.TooLarge?
      ensures r.PacketTooLarge? ==> !old(disabled)
      ensures r.PacketTooLarge? ==> CutStream(proto, old(Fed()) + old(buf[..])).tail == TooLarge(r.payload)
      ensures r.Parts? ==>
        && Valid() && Synced(enc)
        && Fed() == old(Fed()) + old(buf[..])
        && emitted == old(emitted) + r.parts
    {
      if buf.Length == 0 {
        assert Fed() + buf[..] == Fed();
        r := Parts([]);
      } else if disabled {
        var part := PassThrough(buf, enc);
        r := Parts([part]);
      } else {
        r := SplitFramed(buf, enc);
      }
      if r.Parts? {
        AgreesWithReference();
      }
    }

    lemma RefusalIsFinal(h: Bytes, later: Bytes)
      requires Reads(f, proto) && h == held && AllPackets(f, plain) && f(h).Refused?
      ensures CutStream(proto, Fed() + later).tail == TooLarge(f(h).payload)
    {
      CutWithAgrees(f, proto, Fed() + later);
      HeaderIsLocal(f, proto, h, later);
      CutAfterPackets(f, proto, plain, h + later);
      assert Fed() + later == Concat(plain) + (h + later);
    }

    /** `flush`: what is held of an unfinished packet leaves as the last part. */
    method Flush(enc: AesCtr256) returns (parts: seq<Bytes>)
      requires Valid() && Synced(enc)
      modifies this
      ensures parts == if old(packet) == [] then [] else [old(packet)]
      ensures Concat(old(emitted) + parts) == Apply(enc.p, start, old(Fed()))
    {
      EncryptPartsConcat(enc.p, start, plain);
      ApplySplit(enc.p, start, Concat(plain), held);
      if packet == [] {
        assert Fed() == Concat(plain);
        assert emitted + [] == emitted;
        return [];
      }
      ConcatSnoc(emitted, packet);
      headerLen, packetLen := 0, None;
      parts := [packet];
      packet := [];
    }
  }

  function HeaderWanted(proto: ProtoTag, header: Bytes, headerLen: nat): nat
    requires |header| == 4
  {
    if proto.Abridged? && (headerLen == 0 || !Extended(header[0])) then 1 else 4
  }

  function HeaderSays(proto: ProtoTag, header: Bytes, headerLen: nat): ParsedLen
    requires |header| == 4
  {
    if proto.Abridged? then
      var extended := Extended(header[0]);
      var need := if extended then 4 else 1;
      if headerLen < need then Incomplete
      else
        var words := if extended then FromLe32(header[1], header[2], header[3], 0) else header[0] as nat % 128;
        PacketLen(words * 4, need)
    else if headerLen < 4 then Incomplete
    else PacketLen(FromLe32(header[0], header[1], header[2], header[3]) % 0x8000_0000, 4)
  }

  lemma WantsMore(f: Bytes -> ParsedLen, proto: ProtoTag, header: Bytes, held: Bytes)
    requires Reads(f, proto) && |header| == 4 && f(held) == Incomplete
    requires |held| <= 4 && forall i :: 0 <= i < |held| ==> header[i] == held[i]
    ensures |held| < HeaderWanted(proto, header, |held|) <= 4
  {
    assert f(held) == Announced(proto, held);
    assert |held| > 0 ==> header[0] == held[0];
  }

  /** The header buffer, once it has taken in `piece`, says what the held octets announce. */
  lemma HeaderTaken(f: Bytes -> ParsedLen, proto: ProtoTag, header: Bytes, held: Bytes, piece: Bytes)
    requires Reads(f, proto) && |header| == 4 && f(held) == Incomplete && piece != []
    requires |held| <= 4 && forall i :: 0 <= i < |held| ==> header[i] == held[i]
    requires |held| + |piece| <= HeaderWanted(proto, header, |held|)
    ensures var filled, now := header[..|held|] + piece + header[|held| + |piece|..], held + piece;
      && |filled| == 4 && (forall i :: 0 <= i < |now| ==> filled[i] == now[i])
      && (|now| < HeaderWanted(proto, header, |held|) ==> f(now) == Incomplete)
      && (|now| == HeaderWanted(proto, header, |held|) ==> HeaderSays(proto, filled, |now|) == f(now))
  {
    var filled, now := header[..|held|] + piece + header[|held| + |piece|..], held + piece;
    assert f(held) == Announced(proto, held);
    assert f(now) == Announced(proto, now);
    assert now[0] == filled[0];
    assert |held| > 0 ==> header[0] == filled[0];
  }

  /** What was read and what is left make up what was there. */
  lemma TailSlice(fed: Bytes, was: Bytes, from: nat, end: nat)
    requires from <= end <= |was|
    ensures fed + was[from..end] + was[end..] == fed + was[from..]
  {
    assert was[from..] == was[from..end] + was[end..];
  }

  lemma PacketDone(f: Bytes -> ParsedLen, good: seq<Bytes>, packet: Bytes)
    requires AllPackets(f, good) && IsPacket(f, packet)
    ensures AllPackets(f, (good + [packet])[..|good| + 1])
  {
  }

  lemma FramingEnds(good: seq<Bytes>, raw: Bytes)
    ensures (good + [raw])[..|good|] == good
    ensures Concat((good + [raw])[|good|..]) == raw
  {
    assert (good + [raw])[|good|..] == [raw];
    assert Concat([raw]) == raw + Concat([]);
  }

  lemma RawGrows(f: Bytes -> ParsedLen, proto: ProtoTag, plain: seq<Bytes>, whole: nat, later: Bytes)
    requires whole <= |plain| && Reads(f, proto)
    requires var raw := Concat(plain[whole..]); CutWith(f, raw) == Cut([], raw, Raw)
    ensures (plain + [later])[..whole] == plain[..whole]
    ensures var raw := Concat((plain + [later])[whole..]); CutWith(f, raw) == Cut([], raw, Raw)
  {
    RawStaysRaw(f, proto, Concat(plain[whole..]), later);
    assert (plain + [later])[whole..] == plain[whole..] + [later];
    ConcatSnoc(plain[whole..], later);
  }

  lemma RawStaysRaw(f: Bytes -> ParsedLen, proto: ProtoTag, s: Bytes, t: Bytes)
    requires Reads(f, proto) && CutWith(f, s) == Cut([], s, Raw)
    ensures CutWith(f, s + t) == Cut([], s + t, Raw)
  {
    HeaderIsLocal(f, proto, s, t);
  }

  // ------------------------------------------------------------- refusals

  /** More of a framed stream only adds packets. */
  lemma CutGrows(proto: ProtoTag, s: Bytes, t: Bytes)
    requires CutStream(proto, s).tail.Partial?
    ensures CutStream(proto, s).packets <= CutStream(proto, s + t).packets
  {
    var f: Bytes -> ParsedLen := x => Announced(proto, x);
    var c := CutWith(f, s);
    CutWithAgrees(f, proto, s);
    CutWithAgrees(f, proto, s + t);
    CutIsPartition(f, s);
    CutGivesPackets(f, proto, s);
    CutAfterPackets(f, proto, c.packets, c.rest + t);
    Rebracket(Concat(c.packets), c.rest, t);
  }

  /**
   * A stream is refused in some read `t` after `s`. The packets that left before
   * that read are all the packets completed by then and since exactly if the
   * refused read itself completed none.
   */
  lemma RefusalLoses(p: Primitives, c: Ctr, proto: ProtoTag, s: Bytes, t: Bytes)
    requires CutStream(proto, s).tail.Partial? && CutStream(proto, s + t).tail.TooLarge?
    ensures var sent, all := CutStream(proto, s).packets, CutStream(proto, s + t).packets;
      && sent <= all
      && (EncryptParts(p, c, sent) == EncryptParts(p, c, all) <==> |all| == |sent|)
  {
    CutGrows(proto, s, t);
    var sent, all := CutStream(proto, s).packets, CutStream(proto, s + t).packets;
    if |all| == |sent| {
      assert all == sent;
    } else {
      assert |EncryptParts(p, c, all)| != |EncryptParts(p, c, sent)|;
    }
  }

  /** One whole packet and the header of an oversize one in the same read: the packet is lost. */
  lemma RefusalLosesPacket()
    ensures var read: Bytes := [4, 0, 0, 0, 1, 2, 3, 4] + [0, 0, 0, 2];
      && CutStream(Intermediate, []) == Cut([], [], Partial)
      && CutStream(Intermediate, read) == Cut([[4, 0, 0, 0, 1, 2, 3, 4]], [0, 0, 0, 2], TooLarge(0x200_0000))
  {
    var first: Bytes, later: Bytes := [4, 0, 0, 0, 1, 2, 3, 4], [0, 0, 0, 2];
    var f: Bytes -> ParsedLen := x => Announced(Intermediate, x);
    assert f(first) == Announced(Intermediate, first) == Known(8);
    assert f(later) == Announced(Intermediate, later) == Refused(0x200_0000);
    assert f([]) == Announced(Intermediate, []) == Incomplete;
    CutAfterPacket(f, Intermediate, first, later);
    CutWithAgrees(f, Intermediate, first + later);
    CutWithAgrees(f, Intermediate, []);
    assert CutWith(f, later) == Cut([], later, TooLarge(0x200_0000));
    assert [first] + [] == [first];
  }
}
