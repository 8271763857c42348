/**
 * The re-encrypting bridges (proxy.rs): decrypt what the client sent, encrypt
 * it for Telegram or an upstream proxy, and back.
 *
 * A session may be cut at any iteration: by the idle timeout, by a failed
 * write, or because the other direction ended. Each loop therefore may stop
 * before any read; what it delivered up to then is always a correct prefix.
 */
module Bridge {
  import opened Wrappers
  import opened Bytes
  import opened Crypto
  import opened Records
  import opened Splitter
  import opened Packets
  import opened Hello
  import opened Inbound

  /** Decrypts under `a`, then encrypts under `b`. */
  function Recrypt(p: Primitives, a: Ctr, b: Ctr, data: Bytes): (r: Bytes)
    ensures |r| == |data|
  {
    Apply(p, b, Apply(p, a, data))
  }

  lemma RecryptSplit(p: Primitives, a: Ctr, b: Ctr, x: Bytes, y: Bytes)
    ensures Recrypt(p, a, b, x + y) == Recrypt(p, a, b, x) + Recrypt(p, a.Skip(|x|), b.Skip(|x|), y)
  {
    ApplySplit(p, a, x, y);
    ApplySplit(p, b, Apply(p, a, x), Apply(p, a.Skip(|x|), y));
  }

  /** Whoever shares both cipher states sees the plaintext that was encrypted under the first. */
  lemma RecryptIsTransparent(p: Primitives, a: Ctr, b: Ctr, plain: Bytes)
    ensures Apply(p, b, Recrypt(p, a, b, Apply(p, a, plain))) == plain
  {
    ApplyTwice(p, a, plain);
    ApplyTwice(p, b, plain);
  }

  /** Runs two ciphers over the front of a read buffer. */
  method RecryptChunk(buf: array<byte>, n: nat, dec: AesCtr256, enc: AesCtr256)
    requires n <= buf.Length && dec != enc && dec.p == enc.p
    modifies buf, dec, enc
    ensures buf[..n] == Recrypt(dec.p, old(dec.State()), old(enc.State()), old(buf[..n]))
    ensures dec.State() == old(dec.State()).Skip(n) && enc.State() == old(enc.State()).Skip(n)
  {
    assert buf[0..n] == buf[..n];
    dec.ApplyKeystream(buf, 0, n);
    enc.ApplyKeystream(buf, 0, n);
    assert buf[0..n] == buf[..n];
  }

  /** `RELAY_BUF_SIZE`. */
  const RELAY_BUF: nat := 16 * 1024

  // ------------------------------------------------------------------ upload

  /** One iteration: a read, both ciphers over it, a write. */
  method PumpOnce(buf: array<byte>, reader: ClientReader, dec: AesCtr256, enc: AesCtr256, sink: ClientWriter)
    returns (n: nat, ghost chunk: Bytes)
    requires buf.Length > 0 && reader.pending.Valid() && sink.Valid() && dec != enc && dec.p == enc.p
    modifies buf, reader.reader, reader.pending, dec, enc, sink, sink.writer
    ensures reader.pending.Valid() && sink.Valid() && n == |chunk|
    ensures n == 0 <==> old(reader.Remaining(buf.Length)) == []
    ensures n > 0 ==>
      && chunk + reader.Remaining(buf.Length) == old(reader.Remaining(buf.Length))
      && dec.State() == old(dec.State()).Skip(n) && enc.State() == old(enc.State()).Skip(n)
      && sink.Sent() == old(sink.Sent()) + Recrypt(dec.p, old(dec.State()), old(enc.State()), chunk)
    ensures n == 0 ==> sink.Sent() == old(sink.Sent())
  {
    n := reader.Read(buf);
    chunk := buf[..n];
    if n > 0 {
      RecryptChunk(buf, n, dec, enc);
      sink.WriteAll(buf[..n]);
    }
  }

  lemma RecryptGrows(p: Primitives, a: Ctr, b: Ctr, sent: Bytes, taken: Bytes, chunk: Bytes, left: Bytes)
    ensures (sent + Recrypt(p, a, b, taken)) + Recrypt(p, a.Skip(|taken|), b.Skip(|taken|), chunk)
      == sent + Recrypt(p, a, b, taken + chunk)
    ensures taken + (chunk + left) == (taken + chunk) + left
  {
    RecryptSplit(p, a, b, taken, chunk);
    Rebracket(sent, Recrypt(p, a, b, taken), Recrypt(p, a.Skip(|taken|), b.Skip(|taken|), chunk));
  }

  /**
   * The loop `bridge_relay` and `bridge_tcp` run in each direction: plain socket
   * or TLS records on either side, with a read buffer of `size`. `taken` is what
   * was read from the source: all of it, unless the session is cut off.
   */
  method PumpStream(
      reader: ClientReader, dec: AesCtr256, enc: AesCtr256, sink: ClientWriter, size: nat, interruptible: bool)
    returns (eof: bool, ghost taken: Bytes)
    requires reader.pending.Valid() && sink.Valid() && dec != enc && dec.p == enc.p && size > 0
    modifies reader.reader, reader.pending, dec, enc, sink, sink.writer
    ensures sink.Valid() && (!interruptible ==> eof)
    ensures taken <= old(reader.Remaining(size)) && (eof ==> taken == old(reader.Remaining(size)))
    ensures sink.Sent() == old(sink.Sent()) + Recrypt(dec.p, old(dec.State()), old(enc.State()), taken)
  {
    var buf := new byte[size](_ => 0);
    ghost var a, b, sent, all := dec.State(), enc.State(), sink.Sent(), reader.Remaining(size);
    taken := [];
    assert sent + Recrypt(dec.p, a, b, []) == sent;
    while true
      invariant reader.pending.Valid() && sink.Valid()
      invariant taken + reader.Remaining(size) == all
      invariant dec.State() == a.Skip(|taken|) && enc.State() == b.Skip(|taken|)
      invariant sink.Sent() == sent + Recrypt(dec.p, a, b, taken)
      decreases |reader.Remaining(size)|
    {
      var cut := CutOff(interruptible);
      if cut {
        return false, taken;
      }
      var n, chunk := PumpOnce(buf, reader, dec, enc, sink);
      if n == 0 {
        return true, taken;
      }
      RecryptGrows(dec.p, a, b, sent, taken, chunk, reader.Remaining(size));
      taken := taken + chunk;
    }
  }

  /** Whether an idle timeout, a failed write or the other direction ends the session here. */
  method CutOff(interruptible: bool) returns (cut: bool)
    ensures !interruptible ==> !cut
  {
    cut := false;
    if interruptible {
      cut := *;
    }
  }

  /** The sending half of a WebSocket: one element per message. */
  class WsSink {
    var messages: seq<Bytes>

    constructor ()
      ensures messages == []
    {
      messages := [];
    }

    method Send(message: Bytes)
      modifies this
      ensures messages == old(messages) + [message]
    {
      messages := messages + [message];
    }
  }

  /** Upload of `bridge_ws` in Tunnel framing: every read is one message. */
  method UploadTunnel(reader: ClientReader, dec: AesCtr256, enc: AesCtr256, sink: WsSink, interruptible: bool)
    returns (eof: bool, ghost taken: Bytes)
    requires reader.pending.Valid() && dec != enc && dec.p == enc.p
    modifies reader.reader, reader.pending, dec, enc, sink
    ensures !interruptible ==> eof
    ensures taken <= old(reader.Remaining(CLIENT_BUF)) && (eof ==> taken == old(reader.Remaining(CLIENT_BUF)))
    ensures old(sink.messages) <= sink.messages
    ensures Concat(sink.messages[|old(sink.messages)|..]) == Recrypt(dec.p, old(dec.State()), old(enc.State()), taken)
    ensures forall i :: |old(sink.messages)| <= i < |sink.messages| ==> 1 <= |sink.messages[i]| <= CLIENT_BUF
  {
    var buf := new byte[CLIENT_BUF](_ => 0);
    ghost var a, b, all := dec.State(), enc.State(), reader.Remaining(CLIENT_BUF);
    ghost var before := sink.messages;
    taken := [];
    while true
      invariant reader.pending.Valid()
      invariant taken + reader.Remaining(CLIENT_BUF) == all
      invariant dec.State() == a.Skip(|taken|) && enc.State() == b.Skip(|taken|)
      invariant before <= sink.messages
      invariant Concat(sink.messages[|before|..]) == Recrypt(dec.p, a, b, taken)
      invariant forall i :: |before| <= i < |sink.messages| ==> 1 <= |sink.messages[i]| <= CLIENT_BUF
      decreases |reader.Remaining(CLIENT_BUF)|
    {
      var cut := CutOff(interruptible);
      if cut {
        return false, taken;
      }
      var n := reader.Read(buf);
      if n == 0 {
        return true, taken;
      }
      ghost var chunk, sent := buf[..n], sink.messages[|before|..];
      RecryptChunk(buf, n, dec, enc);
      sink.Send(buf[..n]);
      assert sink.messages[|before|..] == sent + [buf[..n]];
      ConcatSnoc(sent, buf[..n]);
      RecryptSplit(dec.p, a, b, taken, chunk);
      Rebracket(taken, chunk, reader.Remaining(CLIENT_BUF));
      taken := taken + chunk;
    }
  }

  /** How an upload ends: at the client's EOF, idle, cut off, or on a packet that is refused. */
  datatype UploadEnd = Eof | Idle | Interrupted | Corrupt(payload: nat)

  /** The messages a stream of whole packets and a rest should arrive as. */
  function PacketMessages(p: Primitives, c: Ctr, cut: Cut): seq<Bytes>
  {
    EncryptParts(p, c, cut.packets + (if cut.rest == [] then [] else [cut.rest]))
  }

  /**
   * What `messages` are owed for the plaintext `plain` of a stream: all of it,
   * one message per packet while framed, at EOF and when idle; always a prefix;
   * and on a refusal exactly the packets complete before the last, refused read,
   * whose plaintext comes after `sure`.
   */
  predicate Delivers(
    p: Primitives, c: Ctr, proto: ProtoTag, end: UploadEnd, plain: Bytes, sure: Bytes, messages: seq<Bytes>)
  {
    && Concat(messages) <= Apply(p, c, plain)
    && (end.Eof? || end.Idle? ==>
        && Concat(messages) == Apply(p, c, plain)
        && !CutStream(proto, plain).tail.TooLarge?
        && (CutStream(proto, plain).tail.Partial? ==> messages == PacketMessages(p, c, CutStream(proto, plain))))
    && (end.Corrupt? ==>
        && CutStream(proto, plain).tail == TooLarge(end.payload)
        && sure < plain && |plain| <= |sure| + CLIENT_BUF && CutStream(proto, sure).tail.Partial?
        && messages == EncryptParts(p, c, CutStream(proto, sure).packets))
  }

  /**
   * For a client that writes legal packets and then stops, whatever their forms
   * and sizes and however they were read: one message arrives for each of them,
   * and it is that packet encrypted.
   */
  lemma WrittenPacketsArrive(
      p: Primitives, c: Ctr, proto: ProtoTag, end: UploadEnd, packets: seq<Packet>, sure: Bytes, messages: seq<Bytes>)
    requires end.Eof? || end.Idle?
    requires forall i :: 0 <= i < |packets| ==> Legal(proto, packets[i])
    requires Delivers(p, c, proto, end, Concat(AllWritten(packets)), sure, messages)
    ensures messages == EncryptParts(p, c, AllWritten(packets))
  {
    var wire := AllWritten(packets);
    WrittenComesBack(proto, packets, []);
    assert Concat(wire) + [] == Concat(wire);
    assert wire + [] == wire;
  }

  /** Sends part after part; a send may fail, and then the rest is not sent. */
  method SendAll(sink: WsSink, parts: seq<Bytes>, interruptible: bool) returns (sent: bool)
    modifies sink
    ensures !interruptible ==> sent
    ensures if sent then sink.messages == old(sink.messages) + parts
      else old(sink.messages) <= sink.messages < old(sink.messages) + parts
  {
    for i := 0 to |parts|
      invariant sink.messages == old(sink.messages) + parts[..i]
    {
      var fails := CutOff(interruptible);
      if fails {
        return false;
      }
      sink.Send(parts[i]);
    }
    assert parts[..|parts|] == parts;
    return true;
  }

  /** One read handed to the splitter, as its own buffer. */
  method DecryptRead(buf: array<byte>, n: nat, dec: AesCtr256) returns (chunk: array<byte>)
    requires n <= buf.Length
    modifies buf, dec
    ensures fresh(chunk) && chunk[..] == Apply(dec.p, old(dec.State()), old(buf[..n]))
    ensures dec.State() == old(dec.State()).Skip(n)
  {
    assert buf[0..n] == buf[..n];
    dec.ApplyKeystream(buf, 0, n);
    chunk := new byte[n](i requires 0 <= i < n <= buf.Length reads buf => buf[i]);
    assert chunk[..] == buf[0..n];
  }

  datatype Step = Done | More | Broken | Bad(payload: nat)

  /** One iteration of the packet upload: read, decrypt, split, send. */
  method UploadRead(
      buf: array<byte>, reader: ClientReader, dec: AesCtr256, enc: AesCtr256, splitter: MsgSplitter,
      sink: WsSink, interruptible: bool, ghost base: seq<Bytes>)
    returns (r: Step, ghost read: Bytes)
    requires buf.Length == CLIENT_BUF && reader.pending.Valid() && dec != enc
    requires splitter.Valid() && splitter.Synced(enc) && sink.messages == base + splitter.emitted
    modifies buf, reader.reader, reader.pending, dec, enc, splitter, sink
    ensures reader.pending.Valid() && (!interruptible ==> !r.Broken?)
    ensures r.Done? <==> old(reader.Remaining(CLIENT_BUF)) == []
    ensures r.Done? ==> read == []
    ensures !r.Done? ==>
      && 1 <= |read| <= CLIENT_BUF
      && read + reader.Remaining(CLIENT_BUF) == old(reader.Remaining(CLIENT_BUF))
    ensures !r.Bad? ==>
      && splitter.Valid() && splitter.Synced(enc)
      && (if r.Broken? then base <= sink.messages <= base + splitter.emitted
        else sink.messages == base + splitter.emitted)
      && dec.State() == old(dec.State()).Skip(|read|)
      && splitter.Fed() == old(splitter.Fed()) + Apply(dec.p, old(dec.State()), read)
    ensures r.Bad? ==>
      && sink.messages == old(sink.messages) && !old(splitter.disabled)
      && CutStream(splitter.proto, old(splitter.Fed()) + Apply(dec.p, old(dec.State()), read)).tail
        == TooLarge(r.payload)
  {
    read := [];
    var n := reader.Read(buf);
    if n == 0 {
      ReadNothing(dec.p, dec.State(), splitter.Fed());
      return Done, [];
    }
    read := buf[..n];
    var chunk := DecryptRead(buf, n, dec);
    r := SplitAndSend(chunk, enc, splitter, sink, interruptible, base);
  }

  /** Splits one decrypted read and sends what it completes. */
  method SplitAndSend(
      chunk: array<byte>, enc: AesCtr256, splitter: MsgSplitter, sink: WsSink, interruptible: bool,
      ghost base: seq<Bytes>)
    returns (r: Step)
    requires splitter.Valid() && splitter.Synced(enc) && sink.messages == base + splitter.emitted
    modifies chunk, enc, splitter, sink
    ensures !r.Done? && (!interruptible ==> !r.Broken?)
    ensures !r.Bad? ==>
      && splitter.Valid() && splitter.Synced(enc)
      && (if r.Broken? then base <= sink.messages <= base + splitter.emitted
        else sink.messages == base + splitter.emitted)
      && splitter.Fed() == old(splitter.Fed()) + old(chunk[..])
    ensures r.Bad? ==>
      && sink.messages == old(sink.messages) && !old(splitter.disabled)
      && CutStream(splitter.proto, old(splitter.Fed()) + old(chunk[..])).tail == TooLarge(r.payload)
  {
    var split := splitter.SplitAndEncrypt(chunk, enc);
    if split.PacketTooLarge? {
      return Bad(split.payload);
    }
    Rebracket(base, old(splitter.emitted), split.parts);
    var sent := SendAll(sink, split.parts, interruptible);
    return if sent then More else Broken;
  }

  lemma ReadNothing(p: Primitives, c: Ctr, fed: Bytes)
    ensures fed + Apply(p, c, []) == fed
  {
  }

  /** A read after `taken` decrypts to what follows. */
  lemma TakenGrows(p: Primitives, a: Ctr, taken: Bytes, read: Bytes, left: Bytes)
    ensures Apply(p, a, taken) + Apply(p, a.Skip(|taken|), read) == Apply(p, a, taken + read)
    ensures taken + (read + left) == (taken + read) + left
  {
    ApplySplit(p, a, taken, read);
  }

  /**
   * One turn of the packet upload: cut off, idle, or one read and what it
   * completes. An end says what has been delivered for the stream taken so far.
   */
  method UploadTurn(
      buf: array<byte>, reader: ClientReader, dec: AesCtr256, enc: AesCtr256, splitter: MsgSplitter,
      sink: WsSink, interruptible: bool, ghost base: seq<Bytes>)
    returns (end: Option<UploadEnd>, ghost read: Bytes)
    requires buf.Length == CLIENT_BUF && reader.pending.Valid() && dec != enc
    requires splitter.Valid() && splitter.Synced(enc) && sink.messages == base + splitter.emitted
    modifies buf, reader.reader, reader.pending, dec, enc, splitter, sink
    ensures reader.pending.Valid() && base <= sink.messages && read <= old(reader.Remaining(CLIENT_BUF))
    ensures end.None? ==>
      && read + reader.Remaining(CLIENT_BUF) == old(reader.Remaining(CLIENT_BUF))
      && splitter.Valid() && splitter.Synced(enc) && sink.messages == base + splitter.emitted && read != []
      && dec.State() == old(dec.State()).Skip(|read|)
      && splitter.Fed() == old(splitter.Fed()) + Apply(dec.p, old(dec.State()), read)
    ensures end.Some? ==>
      && (!interruptible ==> end.value.Eof? || end.value.Corrupt?)
      && (end.value.Eof? ==> old(reader.Remaining(CLIENT_BUF)) == [])
      && Delivers(enc.p, splitter.start, splitter.proto, end.value,
                  old(splitter.Fed()) + Apply(dec.p, old(dec.State()), read), old(splitter.Fed()),
                  sink.messages[|base|..])
  {
    SentSoFar(splitter, enc, base, sink.messages);
    ghost var a, fed := dec.State(), splitter.Fed();
    ReadNothing(dec.p, a, fed);
    var cut := CutOff(interruptible);
    if cut {
      return Some(Interrupted), [];
    }
    var idle := CutOff(interruptible);
    if idle {
      var over := FinishPackets(splitter, enc, sink, Idle, interruptible, base);
      return Some(over), [];
    }
    var step;
    step, read := UploadRead(buf, reader, dec, enc, splitter, sink, interruptible, base);
    match step
    case More =>
      return None, read;
    case Bad(payload) =>
      RefusedRead(enc.p, splitter.start, splitter.proto, payload, fed, Apply(dec.p, a, read), sink.messages[|base|..]);
      return Some(Corrupt(payload)), read;
    case Broken =>
      SentSoFar(splitter, enc, base, sink.messages);
      return Some(Interrupted), read;
    case Done =>
      var over := FinishPackets(splitter, enc, sink, Eof, interruptible, base);
      return Some(over), [];
  }

  /**
   * Upload of `bridge_ws` in Packets framing, for a stream starting here. The
   * octets always arrive in order; and as long as the stream is framed, every
   * message is exactly one MTProto packet, however the reads were cut. `sure` is
   * what had been taken before the last read.
   */
  method UploadPackets(
      reader: ClientReader, dec: AesCtr256, enc: AesCtr256, splitter: MsgSplitter, sink: WsSink, interruptible: bool)
    returns (end: UploadEnd, ghost taken: Bytes, ghost sure: Bytes)
    requires reader.pending.Valid() && dec != enc && dec.p == enc.p
    requires splitter.Valid() && splitter.Synced(enc) && splitter.start == enc.State()
    requires splitter.Fed() == [] && splitter.emitted == []
    modifies reader.reader, reader.pending, dec, enc, splitter, sink
    ensures !interruptible ==> end.Eof? || end.Corrupt?
    ensures taken <= old(reader.Remaining(CLIENT_BUF)) && (end.Eof? ==> taken == old(reader.Remaining(CLIENT_BUF)))
    ensures old(sink.messages) <= sink.messages
    ensures sure <= taken
    ensures Delivers(enc.p, old(enc.State()), splitter.proto, end, Apply(dec.p, old(dec.State()), taken),
                     Apply(dec.p, old(dec.State()), sure), sink.messages[|old(sink.messages)|..])
  {
    var buf := new byte[CLIENT_BUF](_ => 0);
    ghost var a, all, base := dec.State(), reader.Remaining(CLIENT_BUF), sink.messages;
    taken := [];
    assert base + splitter.emitted == base;
    while true
      invariant reader.pending.Valid() && splitter.Valid() && splitter.Synced(enc)
      invariant taken + reader.Remaining(CLIENT_BUF) == all
      invariant dec.State() == a.Skip(|taken|)
      invariant splitter.Fed() == Apply(dec.p, a, taken)
      invariant sink.messages == base + splitter.emitted
      decreases |reader.Remaining(CLIENT_BUF)|
    {
      sure := taken;
      ghost var left := reader.Remaining(CLIENT_BUF);
      var over, read := UploadTurn(buf, reader, dec, enc, splitter, sink, interruptible, base);
      TakenGrows(dec.p, a, taken, read, left[|read|..]);
      taken := taken + read;
      if over.Some? {
        return over.value, taken, sure;
      }
    }
  }

  /** Before any read: what has been sent is a prefix of what is due, and while framed it is whole packets. */
  lemma SentSoFar(s: MsgSplitter, enc: AesCtr256, base: seq<Bytes>, messages: seq<Bytes>)
    requires s.Valid() && s.Synced(enc) && base <= messages <= base + s.emitted
    ensures Delivers(enc.p, s.start, s.proto, Interrupted, s.Fed(), s.Fed(), messages[|base|..])
    ensures !s.disabled && messages == base + s.emitted ==>
      && CutStream(s.proto, s.Fed()).tail.Partial?
      && messages[|base|..] == EncryptParts(enc.p, s.start, CutStream(s.proto, s.Fed()).packets)
  {
    EncryptPartsConcat(enc.p, s.start, s.plain);
    ConcatPrefix(messages[|base|..], s.emitted);
    ApplyGrows(enc.p, s.start, Concat(s.plain), s.held);
    if !s.disabled {
      s.FramedSoFar(enc);
    }
  }

  lemma RefusedRead(
      p: Primitives, c: Ctr, proto: ProtoTag, payload: nat, sure: Bytes, read: Bytes, messages: seq<Bytes>)
    requires CutStream(proto, sure + read).tail == TooLarge(payload) && CutStream(proto, sure).tail.Partial?
    requires messages == EncryptParts(p, c, CutStream(proto, sure).packets) && Concat(messages) <= Apply(p, c, sure)
    requires 1 <= |read| <= CLIENT_BUF
    ensures Delivers(p, c, proto, Corrupt(payload), sure + read, sure, messages)
  {
    ApplyGrows(p, c, sure, read);
  }

  lemma ApplyGrows(p: Primitives, c: Ctr, x: Bytes, y: Bytes)
    ensures Apply(p, c, x) <= Apply(p, c, x + y)
  {
    ApplySplit(p, c, x, y);
  }

  lemma ConcatPrefix(a: seq<Bytes>, b: seq<Bytes>)
    requires a <= b
    ensures Concat(a) <= Concat(b)
  {
    ConcatAppend(a, b[|a|..]);
    assert b == a + b[|a|..];
  }

  /** The end of the packet upload: what is held of the last packet is flushed. */
  method FinishPackets(
      splitter: MsgSplitter, enc: AesCtr256, sink: WsSink, why: UploadEnd, interruptible: bool, ghost base: seq<Bytes>)
    returns (end: UploadEnd)
    requires splitter.Valid() && splitter.Synced(enc) && sink.messages == base + splitter.emitted
    requires why.Eof? || why.Idle?
    modifies splitter, sink
    ensures base <= sink.messages && (end == why || end == Interrupted) && (!interruptible ==> end == why)
    ensures Delivers(enc.p, splitter.start, splitter.proto, end, old(splitter.Fed()), old(splitter.Fed()),
      sink.messages[|base|..])
  {
    splitter.AgreesWithReference();
    SentSoFar(splitter, enc, base, sink.messages);
    if !splitter.disabled {
      FlushedMessages(splitter, enc);
    }
    ghost var emitted := splitter.emitted;
    var last := splitter.Flush(enc);
    var sent := SendAll(sink, last, interruptible);
    Rebracket(base, emitted, last);
    if !sent {
      ConcatPrefix(sink.messages[|base|..], emitted + last);
      return Interrupted;
    }
    assert sink.messages[|base|..] == emitted + last;
    return why;
  }

  /** What has been emitted, with the held part flushed, is one message per packet. */
  lemma FlushedMessages(s: MsgSplitter, enc: AesCtr256)
    requires s.Valid() && s.Synced(enc) && !s.disabled
    requires CutStream(s.proto, s.Fed()) == Cut(s.plain, s.held, Partial)
    ensures s.emitted + (if s.packet == [] then [] else [s.packet])
      == PacketMessages(enc.p, s.start, CutStream(s.proto, s.Fed()))
  {
    if s.held == [] {
      assert s.plain + [] == s.plain && s.emitted + [] == s.emitted;
    } else {
      var parts := s.plain + [s.held];
      assert parts[..|parts| - 1] == s.plain;
    }
  }

  // ---------------------------------------------------------------- download

  datatype WsMessage = Binary(data: Bytes) | Text(data: Bytes) | Ping | Pong | CloseOrError

  /** The payload octets up to the message that ends the session. */
  function Delivered(frames: seq<WsMessage>): Bytes
  {
    if frames == [] || frames[0].CloseOrError? then [] else Payload(frames[0]) + Delivered(frames[1..])
  }

  function Payload(frame: WsMessage): Bytes
  {
    if frame.Binary? || frame.Text? then frame.data else []
  }

  /** Binary and Text frames are data, Ping and Pong are passed over, anything else is the end. */
  lemma DataFrames(data: Bytes, rest: seq<WsMessage>)
    ensures Delivered([Binary(data)] + rest) == data + Delivered(rest) == Delivered([WsMessage.Text(data)] + rest)
    ensures Delivered([Ping] + rest) == Delivered(rest) == Delivered([Pong] + rest)
    ensures Delivered([CloseOrError] + rest) == [] == Delivered([])
  {
    FrameFirst(Binary(data), rest);
    FrameFirst(WsMessage.Text(data), rest);
    FrameFirst(Ping, rest);
    FrameFirst(Pong, rest);
    assert [] + Delivered(rest) == Delivered(rest);
  }

  lemma FrameFirst(frame: WsMessage, rest: seq<WsMessage>)
    requires !frame.CloseOrError?
    ensures Delivered([frame] + rest) == Payload(frame) + Delivered(rest)
  {
    assert ([frame] + rest)[1..] == rest;
  }

  /** After the first `i` frames, `got` is what they delivered of `all`. */
  predicate UpTo(frames: seq<WsMessage>, i: nat, got: Bytes, all: Bytes)
  {
    i <= |frames| && got + Delivered(frames[i..]) == all
  }

  lemma UpToEnds(frames: seq<WsMessage>, got: Bytes, all: Bytes)
    ensures UpTo(frames, 0, [], Delivered(frames))
    ensures UpTo(frames, |frames|, got, all) ==> got == all
  {
    assert frames[0..] == frames;
    assert frames[|frames|..] == [];
    assert got + [] == got;
  }

  /** What frame `i` adds to the octets got before it. */
  lemma OneFrameOn(frames: seq<WsMessage>, i: nat, got: Bytes, all: Bytes)
    requires i < |frames| && UpTo(frames, i, got, all)
    ensures got <= all && (frames[i].CloseOrError? ==> got == all)
    ensures !frames[i].CloseOrError? ==> UpTo(frames, i + 1, got + Payload(frames[i]), all)
  {
    assert frames[i..][1..] == frames[i + 1..];
    Rebracket(got, Payload(frames[i]), Delivered(frames[i + 1..]));
  }

  /** Re-encrypts an owned message. */
  method RecryptMessage(data: Bytes, dec: AesCtr256, enc: AesCtr256) returns (r: Bytes)
    requires dec != enc && dec.p == enc.p
    modifies dec, enc
    ensures r == Recrypt(dec.p, old(dec.State()), old(enc.State()), data)
    ensures dec.State() == old(dec.State()).Skip(|data|) && enc.State() == old(enc.State()).Skip(|data|)
  {
    var buf := new byte[|data|](i requires 0 <= i < |data| => data[i]);
    assert buf[..|data|] == data;
    RecryptChunk(buf, |data|, dec, enc);
    r := buf[..|data|];
  }

  /** The octets `got` have gone through both ciphers and on to the client. */
  ghost predicate Passed(
    dec: AesCtr256, enc: AesCtr256, writer: ClientWriter, a: Ctr, b: Ctr, sent: Bytes, got: Bytes)
    reads dec, enc, writer, writer.writer
  {
    && writer.Valid() && dec.State() == a.Skip(|got|) && enc.State() == b.Skip(|got|)
    && writer.Sent() == sent + Recrypt(dec.p, a, b, got)
  }

  /** Hands one frame on to the client, after the octets `got` before it. */
  method PassFrame(
      frame: WsMessage, dec: AesCtr256, enc: AesCtr256, writer: ClientWriter, ghost a: Ctr, ghost b: Ctr,
      ghost sent: Bytes, ghost got: Bytes)
    returns (ghost now: Bytes)
    requires dec != enc && dec.p == enc.p && Passed(dec, enc, writer, a, b, sent, got)
    modifies dec, enc, writer, writer.writer
    ensures now == got + Payload(frame) && Passed(dec, enc, writer, a, b, sent, now)
  {
    now := got + Payload(frame);
    if frame.Binary? || frame.Text? {
      var out := RecryptMessage(frame.data, dec, enc);
      writer.WriteAll(out);
      RecryptGrows(dec.p, a, b, sent, got, frame.data, []);
    } else {
      assert now == got;
    }
  }

  lemma RecryptNothing(p: Primitives, a: Ctr, b: Ctr, sent: Bytes)
    ensures sent + Recrypt(p, a, b, []) == sent && a.Skip(0) == a && b.Skip(0) == b
  {
  }

  /** One turn of the download: cut off, over, or one frame handed on. */
  method DownloadTurn(
      frames: seq<WsMessage>, i: nat, dec: AesCtr256, enc: AesCtr256, writer: ClientWriter, interruptible: bool,
      ghost a: Ctr, ghost b: Ctr, ghost sent: Bytes, ghost got: Bytes, ghost all: Bytes)
    returns (over: Option<bool>, ghost now: Bytes)
    requires i < |frames| && UpTo(frames, i, got, all)
    requires dec != enc && dec.p == enc.p && Passed(dec, enc, writer, a, b, sent, got)
    modifies dec, enc, writer, writer.writer
    ensures Passed(dec, enc, writer, a, b, sent, now)
    ensures over.None? ==> UpTo(frames, i + 1, now, all)
    ensures over.Some? ==> now <= all && (over.value ==> now == all) && (!interruptible ==> over.value)
  {
    OneFrameOn(frames, i, got, all);
    var cut := CutOff(interruptible);
    if cut {
      return Some(false), got;
    }
    if frames[i].CloseOrError? {
      return Some(true), got;
    }
    now := PassFrame(frames[i], dec, enc, writer, a, b, sent, got);
    return None, now;
  }

  /** Download of `bridge_ws`: control frames are skipped, anything else ends it. */
  method DownloadWs(frames: seq<WsMessage>, dec: AesCtr256, enc: AesCtr256, writer: ClientWriter, interruptible: bool)
    returns (eof: bool, ghost got: Bytes)
    requires writer.Valid() && dec != enc && dec.p == enc.p
    modifies dec, enc, writer, writer.writer
    ensures writer.Valid() && (!interruptible ==> eof)
    ensures got <= Delivered(frames) && (eof ==> got == Delivered(frames))
    ensures writer.Sent() == old(writer.Sent()) + Recrypt(dec.p, old(dec.State()), old(enc.State()), got)
  {
    ghost var a, b, sent, all := dec.State(), enc.State(), writer.Sent(), Delivered(frames);
    got := [];
    RecryptNothing(dec.p, a, b, sent);
    UpToEnds(frames, got, all);
    for i := 0 to |frames|
      invariant UpTo(frames, i, got, all)
      invariant Passed(dec, enc, writer, a, b, sent, got)
    {
      var over;
      over, got := DownloadTurn(frames, i, dec, enc, writer, interruptible, a, b, sent, got, all);
      if over.Some? {
        return over.value, got;
      }
    }
    UpToEnds(frames, got, all);
    return true, got;
  }

  // --------------------------------------------------------- one connection

  /** What `handle_client_with_runtime` has in hand when it starts to route. */
  datatype Prepared = Prepared(
    info: HandshakeInfo, secret: Bytes, dc: nat, isTest: bool, dcIdx: i16, relayInit: Block,
    cltDec: AesCtr256, cltEnc: AesCtr256, tgEnc: AesCtr256, tgDec: AesCtr256)

  /** The first of our secrets under which the handshake parses. */
  ghost predicate FirstSecret(p: Primitives, h: Block, secrets: seq<Bytes>, i: nat)
  {
    && i < |secrets| && ParseHandshake(p, h, secrets[i]).Some?
    && forall j :: 0 <= j < i ==> ParseHandshake(p, h, secrets[j]).None?
  }

  method FindSecret(p: Primitives, h: Block, secrets: seq<Bytes>) returns (r: Option<nat>)
    ensures r.Some? ==> FirstSecret(p, h, secrets, r.value)
    ensures r.None? ==> forall j :: 0 <= j < |secrets| ==> ParseHandshake(p, h, secrets[j]).None?
  {
    for i := 0 to |secrets|
      invariant forall j :: 0 <= j < i ==> ParseHandshake(p, h, secrets[j]).None?
    {
      if ParseHandshake(p, h, secrets[i]).Some? {
        return Some(i);
      }
    }
    return None;
  }

  /**
   * Steps 2 to 4: parse, strip the test offset, make the relay init and the
   * four ciphers. What Telegram reads out of the relay init is the tag and the
   * signed DC the client asked for, and each pair of ciphers is in the state
   * of its peer.
   */
  method Prepare(p: Primitives, h: Block, secrets: seq<Bytes>, forceTest: bool, rng: nat -> Block, pad: Bytes)
    returns (r: Option<Prepared>)
    requires SomeUsable(rng) && |pad| == 2
    ensures r.None? <==> forall j :: 0 <= j < |secrets| ==> ParseHandshake(p, h, secrets[j]).None?
    ensures r.Some? ==> var c := r.value;
      && (exists i: nat :: FirstSecret(p, h, secrets, i) && c.secret == secrets[i])
      && ParseHandshake(p, h, c.secret) == Some(c.info)
      && c.dc == RouteDc(c.info.dcId) && c.isTest == IsTestDc(c.info.dcId, forceTest)
      && Abs(c.dcIdx) == c.dc && (c.dcIdx < 0 <==> c.info.isMedia && c.dc > 0)
      && !Reserved(c.relayInit)
      && ReadRelayInit(p, c.relayInit)
         == Some(HandshakeInfo(c.dc, c.dcIdx < 0, c.info.proto, PrekeyAndIv(c.relayInit)))
      && fresh({c.cltDec, c.cltEnc, c.tgEnc, c.tgDec})
      && c.cltDec != c.tgEnc && c.tgDec != c.cltEnc && {c.cltDec, c.tgEnc} !! {c.cltEnc, c.tgDec}
      && c.cltDec.p == c.cltEnc.p == c.tgEnc.p == c.tgDec.p == p
      && Session(c.cltDec.State(), c.cltEnc.State()) == HashedSession(p, PrekeyAndIv(h), c.secret)
      && Session(c.tgEnc.State(), c.tgDec.State()) == RawSession(PrekeyAndIv(c.relayInit))
  {
    var found := FindSecret(p, h, secrets);
    if found.None? {
      return None;
    }
    var secret := secrets[found.value];
    var info := ParseHandshake(p, h, secret).value;
    var dc := RouteDc(info.dcId);
    var dcIdx := ResignParsed(p, h, secret, info);
    var relayInit := GenerateRelayInit(p, info.proto, dcIdx, rng, pad);
    ghost var i :| !Reserved(rng(i))
      && relayInit == Embed(p, RawCtr(PrekeyAndIv(rng(i))), rng(i), RelayPlain(info.proto, dcIdx, pad));
    RelayInitReadsBack(p, dcIdx, info.proto, rng(i), pad);
    var cltDec, cltEnc, tgEnc, tgDec := BuildConnectionCiphers(p, info.prekeyIv, secret, relayInit);
    return Some(Prepared(info, secret, dc, IsTestDc(info.dcId, forceTest), dcIdx, relayInit,
                         cltDec, cltEnc, tgEnc, tgDec));
  }

  method ResignParsed(p: Primitives, h: Block, secret: Bytes, info: HandshakeInfo) returns (dcIdx: i16)
    requires ParseHandshake(p, h, secret) == Some(info)
    ensures Abs(dcIdx) == RouteDc(info.dcId) && (dcIdx < 0 <==> info.isMedia && RouteDc(info.dcId) > 0)
  {
    ResignNeverTruncates(Apply(p, HashedCtr(p, PrekeyAndIv(h), secret), h), PrekeyAndIv(h));
    dcIdx := ResignDc(RouteDc(info.dcId), info.isMedia);
  }

  /**
   * The TCP fallback: relay init, then the re-encrypted stream. Telegram,
   * holding only the 64 octets of the relay init, decrypts exactly what the
   * client decrypts to under its own handshake.
   */
  method UploadTcp(
      p: Primitives, h: Block, c: Prepared, reader: ClientReader, sink: ClientWriter, interruptible: bool)
    returns (began: bool, eof: bool, ghost taken: Bytes)
    requires reader.pending.Valid() && sink.Valid() && !sink.faketls && sink.Sent() == []
    requires c.cltDec != c.tgEnc && c.cltDec.p == c.tgEnc.p == p
    requires c.cltDec.State() == HashedSession(p, PrekeyAndIv(h), c.secret).up
    requires c.tgEnc.State() == RawSession(PrekeyAndIv(c.relayInit)).up
    modifies reader.reader, reader.pending, c.cltDec, c.tgEnc, sink, sink.writer
    ensures !interruptible ==> eof
    ensures taken <= old(reader.Remaining(CLIENT_BUF)) && (eof ==> taken == old(reader.Remaining(CLIENT_BUF)))
    ensures sink.Valid() && (!began ==> !eof && taken == [] && sink.Sent() == [])
    ensures began ==>
      && |sink.Sent()| == 64 + |taken| && sink.Sent()[..64] == c.relayInit
      && TelegramSees(p, sink.Sent()) == ClientMeant(p, h, c.secret, taken)
  {
    var failed := CutOff(interruptible);
    if failed {
      return false, false, [];
    }
    began := true;
    sink.WriteAll(c.relayInit);
    eof, taken := PumpStream(reader, c.cltDec, c.tgEnc, sink, CLIENT_BUF, interruptible);
    ReachesTelegram(p, h, c.secret, c.relayInit, taken, sink.Sent());
  }

  /**
   * How the relay init and the stream go out as WebSocket messages. At EOF, or
   * when the client falls idle, Telegram has all of it; a session cut short
   * delivers a prefix, and one that is refused the packets before that read.
   */
  method UploadWs(
      p: Primitives, h: Block, c: Prepared, packets: bool, reader: ClientReader, sink: WsSink, interruptible: bool)
    returns (end: UploadEnd, ghost taken: Bytes, ghost sure: Bytes)
    requires reader.pending.Valid() && sink.messages == []
    requires c.cltDec != c.tgEnc && c.cltDec.p == c.tgEnc.p == p
    requires c.cltDec.State() == HashedSession(p, PrekeyAndIv(h), c.secret).up
    requires c.tgEnc.State() == RawSession(PrekeyAndIv(c.relayInit)).up
    modifies reader.reader, reader.pending, c.cltDec, c.tgEnc, sink
    ensures !interruptible ==> end.Eof? || (packets && end.Corrupt?)
    ensures sure <= taken <= old(reader.Remaining(CLIENT_BUF))
      && (end.Eof? ==> taken == old(reader.Remaining(CLIENT_BUF)))
    ensures sink.messages == [] ==> end.Interrupted? && taken == []
    ensures sink.messages != [] ==>
      && sink.messages[0] == c.relayInit && |Concat(sink.messages)| >= 64
      && TelegramSees(p, Concat(sink.messages)) <= ClientMeant(p, h, c.secret, taken)
      && (end.Eof? || end.Idle? || !packets ==>
          TelegramSees(p, Concat(sink.messages)) == ClientMeant(p, h, c.secret, taken))
      && (packets ==>
          Delivers(p, RawSession(PrekeyAndIv(c.relayInit)).up, c.info.proto, end, ClientMeant(p, h, c.secret, taken),
                   ClientMeant(p, h, c.secret, sure), sink.messages[1..]))
  {
    var failed := CutOff(interruptible);
    if failed {
      return Interrupted, [], [];
    }
    sink.Send(c.relayInit);
    if packets {
      end, taken, sure := UploadFramed(c.info.proto, reader, c.cltDec, c.tgEnc, sink, interruptible);
    } else {
      var eof;
      eof, taken := UploadTunnel(reader, c.cltDec, c.tgEnc, sink, interruptible);
      end, sure := if eof then Eof else Interrupted, taken;
    }
    FirstMessage(sink.messages, c.relayInit);
    PrefixReaches(p, h, c.secret, c.relayInit, taken, Concat(sink.messages));
    if end.Eof? || end.Idle? || !packets {
      ReachesTelegram(p, h, c.secret, c.relayInit, taken, Concat(sink.messages));
    }
  }

  /** Packets framing, with a splitter of its own. */
  method UploadFramed(
      proto: ProtoTag, reader: ClientReader, dec: AesCtr256, enc: AesCtr256, sink: WsSink, interruptible: bool)
    returns (end: UploadEnd, ghost taken: Bytes, ghost sure: Bytes)
    requires reader.pending.Valid() && dec != enc && dec.p == enc.p
    modifies reader.reader, reader.pending, dec, enc, sink
    ensures !interruptible ==> end.Eof? || end.Corrupt?
    ensures sure <= taken <= old(reader.Remaining(CLIENT_BUF))
      && (end.Eof? ==> taken == old(reader.Remaining(CLIENT_BUF)))
    ensures old(sink.messages) <= sink.messages
    ensures Delivers(enc.p, old(enc.State()), proto, end, Apply(dec.p, old(dec.State()), taken),
                     Apply(dec.p, old(dec.State()), sure), sink.messages[|old(sink.messages)|..])
  {
    var splitter := new MsgSplitter(proto, enc);
    end, taken, sure := UploadPackets(reader, dec, enc, splitter, sink, interruptible);
  }

  lemma FirstMessage(messages: seq<Bytes>, first: Bytes)
    requires [first] <= messages
    ensures Concat(messages) == first + Concat(messages[1..]) && messages[0] == first
  {
    assert messages == [first] + messages[1..];
    ConcatCons(first, messages[1..]);
  }

  /** A session cut short: Telegram has the beginning of what the client meant. */
  lemma PrefixReaches(p: Primitives, h: Block, secret: Bytes, init: Block, taken: Bytes, wire: Bytes)
    requires init <= wire
    requires wire <= init + Recrypt(p, HashedSession(p, PrekeyAndIv(h), secret).up,
      RawSession(PrekeyAndIv(init)).up, taken)
    ensures TelegramSees(p, wire) <= ClientMeant(p, h, secret, taken)
  {
    var meant, up := ClientMeant(p, h, secret, taken), RawSession(PrekeyAndIv(init)).up;
    var sent := Apply(p, up, meant);
    var k := |wire| - 64;
    assert wire[64..] == (init + sent)[64..64 + k] == sent[..k];
    assert wire[..64] == init;
    assert sent == sent[..k] + sent[k..];
    ApplyGrows(p, up, sent[..k], sent[k..]);
    ApplyTwice(p, up, meant);
  }

  /** What a Telegram server decrypts from an obfuscated stream, given only the stream. */
  function TelegramSees(p: Primitives, wire: Bytes): Bytes
    requires |wire| >= 64
  {
    Apply(p, RawSession(PrekeyAndIv(wire[..64])).up, wire[64..])
  }

  /** The plaintext behind what a client with handshake `h` put on the wire. */
  function ClientMeant(p: Primitives, h: Block, secret: Bytes, wire: Bytes): Bytes
  {
    Apply(p, HashedSession(p, PrekeyAndIv(h), secret).up, wire)
  }

  /** A client that encrypts `plain` with its session means `plain`. */
  lemma ClientMeantPlain(p: Primitives, h: Block, secret: Bytes, plain: Bytes)
    ensures ClientMeant(p, h, secret, Apply(p, HashedSession(p, PrekeyAndIv(h), secret).up, plain)) == plain
  {
    ApplyTwice(p, HashedSession(p, PrekeyAndIv(h), secret).up, plain);
  }

  /** The plaintext behind what Telegram sends back on a session opened with `init`. */
  function TelegramMeant(p: Primitives, init: Block, wire: Bytes): Bytes
  {
    Apply(p, RawSession(PrekeyAndIv(init)).down, wire)
  }

  /** What the client decrypts from the content it receives. */
  function ClientSees(p: Primitives, h: Block, secret: Bytes, content: Bytes): Bytes
  {
    Apply(p, HashedSession(p, PrekeyAndIv(h), secret).down, content)
  }

  /** `n` octets of a handshake from `from` downwards. */
  function Down(h: Block, from: nat, n: nat): (r: Bytes)
    requires from < 64 && n <= from + 1
    ensures |r| == n
  {
    seq(n, i requires 0 <= i < n => h[from - i])
  }

  /**
   * The far ends, octet by octet. Upwards a client and Telegram use key and IV as
   * they stand in the first 64 octets, and the keystream after these; downwards the
   * same 48 octets last one first, and the keystream from its start. With a secret
   * the key is SHA-256 of the 32 octets and the secret.
   */
  lemma FarEnds(p: Primitives, h: Block, secret: Bytes, wire: Bytes, i: nat)
    requires i < |wire|
    ensures ClientMeant(p, h, secret, wire)[i]
      == Xor(wire[i], p.keystream(p.sha256(h[8..40] + secret), h[40..56], 64 + i))
    ensures ClientSees(p, h, secret, wire)[i]
      == Xor(wire[i], p.keystream(p.sha256(Down(h, 55, 32) + secret), Down(h, 23, 16), i))
    ensures TelegramMeant(p, h, wire)[i] == Xor(wire[i], p.keystream(Down(h, 55, 32), Down(h, 23, 16), i))
    ensures |TelegramSees(p, h + wire)| == |wire|
    ensures TelegramSees(p, h + wire)[i] == Xor(wire[i], p.keystream(h[8..40], h[40..56], 64 + i))
  {
    KeyAndIv(h);
    var back := Reverse(PrekeyAndIv(h));
    assert back[..32] == Down(h, 55, 32);
    assert back[32..] == Down(h, 23, 16);
    assert (h + wire)[..64] == h && (h + wire)[64..] == wire;
  }

  lemma ReachesClient(p: Primitives, h: Block, secret: Bytes, init: Block, taken: Bytes, content: Bytes)
    requires content
      == Recrypt(p, RawSession(PrekeyAndIv(init)).down, HashedSession(p, PrekeyAndIv(h), secret).down, taken)
    ensures |content| == |taken| && ClientSees(p, h, secret, content) == TelegramMeant(p, init, taken)
  {
    ApplyTwice(p, HashedSession(p, PrekeyAndIv(h), secret).down, TelegramMeant(p, init, taken));
  }

  /** The TCP fallback downwards: the client decrypts exactly what Telegram meant. */
  method DownloadTcp(
      p: Primitives, h: Block, c: Prepared, reader: ClientReader, sink: ClientWriter, interruptible: bool)
    returns (eof: bool, ghost taken: Bytes)
    requires reader.pending.Valid() && !reader.faketls && sink.Valid() && sink.Sent() == []
    requires c.tgDec != c.cltEnc && c.tgDec.p == c.cltEnc.p == p
    requires c.tgDec.State() == RawSession(PrekeyAndIv(c.relayInit)).down
    requires c.cltEnc.State() == HashedSession(p, PrekeyAndIv(h), c.secret).down
    modifies reader.reader, reader.pending, c.tgDec, c.cltEnc, sink, sink.writer
    ensures !interruptible ==> eof
    ensures taken <= old(reader.reader.data) && (eof ==> taken == old(reader.reader.data))
    ensures sink.Valid() && |sink.Sent()| == |taken|
    ensures ClientSees(p, h, c.secret, sink.Sent()) == TelegramMeant(p, c.relayInit, taken)
  {
    eof, taken := PumpStream(reader, c.tgDec, c.cltEnc, sink, RELAY_BUF, interruptible);
    ReachesClient(p, h, c.secret, c.relayInit, taken, sink.Sent());
  }

  /** And through WebSocket messages, however Telegram frames them. */
  method DownloadMessages(
      p: Primitives, h: Block, c: Prepared, frames: seq<WsMessage>, sink: ClientWriter, interruptible: bool)
    returns (eof: bool, ghost got: Bytes)
    requires sink.Valid() && sink.Sent() == []
    requires c.tgDec != c.cltEnc && c.tgDec.p == c.cltEnc.p == p
    requires c.tgDec.State() == RawSession(PrekeyAndIv(c.relayInit)).down
    requires c.cltEnc.State() == HashedSession(p, PrekeyAndIv(h), c.secret).down
    modifies c.tgDec, c.cltEnc, sink, sink.writer
    ensures !interruptible ==> eof
    ensures got <= Delivered(frames) && (eof ==> got == Delivered(frames))
    ensures sink.Valid() && |sink.Sent()| == |got|
    ensures ClientSees(p, h, c.secret, sink.Sent()) == TelegramMeant(p, c.relayInit, got)
  {
    eof, got := DownloadWs(frames, c.tgDec, c.cltEnc, sink, interruptible);
    ReachesClient(p, h, c.secret, c.relayInit, got, sink.Sent());
  }

  lemma ReachesTelegram(p: Primitives, h: Block, secret: Bytes, init: Block, taken: Bytes, wire: Bytes)
    requires wire == init + Recrypt(p, HashedSession(p, PrekeyAndIv(h), secret).up,
      RawSession(PrekeyAndIv(init)).up, taken)
    ensures |wire| == 64 + |taken| && wire[..64] == init
    ensures TelegramSees(p, wire) == ClientMeant(p, h, secret, taken)
  {
    ApplyTwice(p, RawSession(PrekeyAndIv(init)).up, ClientMeant(p, h, secret, taken));
    assert wire[64..] == Apply(p, RawSession(PrekeyAndIv(init)).up, ClientMeant(p, h, secret, taken));
  }

  /**
   * Both directions of a session between any two ends that hold the same
   * cipher states as our two sides: what either end encrypts, the other reads.
   */
  lemma SessionIsTransparent(p: Primitives, client: Session, telegram: Session, up: Bytes, down: Bytes)
    ensures Apply(p, telegram.up, Recrypt(p, client.up, telegram.up, Apply(p, client.up, up))) == up
    ensures Apply(p, client.down, Recrypt(p, telegram.down, client.down, Apply(p, telegram.down, down))) == down
  {
    RecryptIsTransparent(p, client.up, telegram.up, up);
    RecryptIsTransparent(p, telegram.down, client.down, down);
  }

  // --------------------------------------------------------- upstream proxies

  datatype Connection = Connection(handshake: Block, enc: AesCtr256, dec: AesCtr256, sink: ClientWriter)

  /** How the network treats one attempt to reach a proxy. */
  datatype Dial = Dial(connects: bool, helloSent: bool, handshakeSent: bool)

  /**
   * `connect_mtproto_upstream`: plain, or behind a signed FakeTLS hello whose
   * answer is drained first. On success the proxy, seeing only our stream and
   * its own key, parses the DC and tag we asked for and ends up with the
   * mirror images of our ciphers; and its answer was drained exactly.
   */
  method ConnectUpstream(
      p: Primitives, key: Bytes, host: Option<Bytes>, dcIdx: i16, proto: ProtoTag, rng: nat -> Block,
      sid: Bytes, timestamp: nat, dial: Dial, reader: ByteReader, writer: ByteWriter)
    returns (r: Option<Connection>)
    requires SomeUsable(rng) && |sid| == 32 && timestamp < 0x1_0000_0000 && writer.data == []
    modifies reader, writer
    ensures r.Some? <==>
      && dial.connects && dial.handshakeSent
      && (host.Some? ==> dial.helloSent && Drained(old(reader.data), MAX_HANDSHAKE_RECORDS).Some?)
    ensures !dial.connects ==> writer.data == [] && reader.data == old(reader.data)
    ensures r.Some? ==> var c := r.value;
      && fresh(c.enc) && fresh(c.dec) && fresh(c.sink) && c.enc != c.dec && c.enc.p == c.dec.p == p
      && ParseHandshake(p, c.handshake, key)
         == Some(HandshakeInfo(Abs(dcIdx), dcIdx < 0, proto, PrekeyAndIv(c.handshake)))
      && Session(c.enc.State(), c.dec.State()) == HashedSession(p, PrekeyAndIv(c.handshake), key)
      && c.sink.Valid() && c.sink.writer == writer && c.sink.faketls == host.Some? && c.sink.Sent() == c.handshake
      && c.sink.before == (if host.Some? then SignedHello(p, host.value, sid, key, timestamp) else [])
      && (if host.Some? then Some(reader.data) == Drained(old(reader.data), MAX_HANDSHAKE_RECORDS)
          else reader.data == old(reader.data))
  {
    if !dial.connects {
      return None;
    }
    var handshake, enc, dec := StartSession(p, key, dcIdx, proto, rng);
    if host.Some? {
      var ok := OpenFakeTls(p, host.value, sid, key, timestamp, dial.helloSent, reader, writer);
      if !ok {
        return None;
      }
    }
    var sink := OpenSink(host.Some?, handshake, dial.handshakeSent, writer);
    if sink.None? {
      return None;
    }
    return Some(Connection(handshake, enc, dec, sink.value));
  }

  /** The handshake goes out, framed where records are spoken. */
  method OpenSink(faketls: bool, handshake: Block, sent: bool, writer: ByteWriter) returns (r: Option<ClientWriter>)
    modifies writer
    ensures r.Some? <==> sent
    ensures r.Some? ==>
      && fresh(r.value) && r.value.Valid() && r.value.writer == writer && r.value.faketls == faketls
      && r.value.Sent() == handshake && r.value.before == old(writer.data)
  {
    if !sent {
      FailWrite(writer, handshake);
      return None;
    }
    var sink := new ClientWriter(faketls, writer);
    sink.WriteAll(handshake);
    return Some(sink);
  }

  /** A write that fails may have put out some of its data. */
  method FailWrite(writer: ByteWriter, data: Bytes)
    modifies writer
    ensures Begun(old(writer.data), writer.data, data)
  {
    var n: nat :| n <= |data|;
    writer.WriteAll(data[..n]);
  }

  /** A generated handshake with its ciphers, as the far end will parse it. */
  method StartSession(p: Primitives, key: Bytes, dcIdx: i16, proto: ProtoTag, rng: nat -> Block)
    returns (handshake: Block, enc: AesCtr256, dec: AesCtr256)
    requires SomeUsable(rng)
    ensures fresh(enc) && fresh(dec) && enc != dec && enc.p == dec.p == p
    ensures ParseHandshake(p, handshake, key)
      == Some(HandshakeInfo(Abs(dcIdx), dcIdx < 0, proto, PrekeyAndIv(handshake)))
    ensures Session(enc.State(), dec.State()) == HashedSession(p, PrekeyAndIv(handshake), key)
  {
    handshake, enc, dec := GenerateClientHandshake(p, key, dcIdx, proto, rng);
    ghost var i :| !Reserved(rng(i)) && handshake == ClientHandshake(p, key, dcIdx, proto, rng(i));
    ParseInvertsGenerate(p, key, dcIdx, proto, rng(i));
  }

  /** Sends the signed hello and drains the fake handshake that answers it. */
  method OpenFakeTls(
      p: Primitives, host: Bytes, sid: Bytes, key: Bytes, timestamp: nat, sent: bool, reader: ByteReader,
      writer: ByteWriter)
    returns (ok: bool)
    requires |sid| == 32 && timestamp < 0x1_0000_0000
    modifies reader, writer
    ensures ok <==> sent && Drained(old(reader.data), MAX_HANDSHAKE_RECORDS).Some?
    ensures ok ==> Some(reader.data) == Drained(old(reader.data), MAX_HANDSHAKE_RECORDS)
    ensures ok ==> writer.data == old(writer.data) + SignedHello(p, host, sid, key, timestamp)
  {
    var hello := SignedClientHello(p, host, sid, key, timestamp);
    if !sent {
      FailWrite(writer, hello);
      return false;
    }
    writer.WriteAll(hello);
    ok := DrainServerHello(reader);
  }

  /** Builds a hello and signs it in place. */
  method SignedClientHello(p: Primitives, host: Bytes, sid: Bytes, key: Bytes, timestamp: nat) returns (hello: Bytes)
    requires |sid| == 32 && timestamp < 0x1_0000_0000
    ensures hello == SignedHello(p, host, sid, key, timestamp)
  {
    var built := BuildClientHello(host, sid);
    BuiltShape(host, sid);
    var record := new byte[|built|](i requires 0 <= i < |built| => built[i]);
    assert record[..] == built;
    SignClientHello(p, record, key, timestamp);
    hello := record[..];
  }

  lemma BuiltShape(host: Bytes, sid: Bytes)
    requires |sid| == 32
    ensures var built := HelloRecord(host, sid, Zeros(32));
      && |built| >= DIGEST_POS + DIGEST_LEN && Zeroed(built) == built
      && built[..DIGEST_POS] == HelloHead(host) && built[DIGEST_POS + DIGEST_LEN..] == HelloTail(host, sid)
  {
    Cut3(HelloHead(host), Zeros(32), HelloTail(host, sid));
  }

  /**
   * Upload through an upstream proxy. The proxy, parsing our stream with its own
   * key, decrypts exactly what the client meant.
   */
  method UploadRelay(
      p: Primitives, h: Block, secret: Bytes, key: Bytes, conn: Connection, cltDec: AesCtr256, reader: ClientReader,
      interruptible: bool)
    returns (eof: bool, ghost taken: Bytes)
    requires reader.pending.Valid() && conn.sink.Valid() && conn.sink.Sent() == conn.handshake
    requires cltDec != conn.enc && cltDec.p == conn.enc.p == p
    requires cltDec.State() == HashedSession(p, PrekeyAndIv(h), secret).up
    requires conn.enc.State() == HashedSession(p, PrekeyAndIv(conn.handshake), key).up
    modifies reader.reader, reader.pending, cltDec, conn.enc, conn.sink, conn.sink.writer
    ensures !interruptible ==> eof
    ensures taken <= old(reader.Remaining(CLIENT_BUF)) && (eof ==> taken == old(reader.Remaining(CLIENT_BUF)))
    ensures conn.sink.Valid() && |conn.sink.Sent()| == 64 + |taken| && conn.sink.Sent()[..64] == conn.handshake
    ensures ClientMeant(p, conn.handshake, key, conn.sink.Sent()[64..]) == ClientMeant(p, h, secret, taken)
  {
    eof, taken := PumpStream(reader, cltDec, conn.enc, conn.sink, CLIENT_BUF, interruptible);
    ghost var up := HashedSession(p, PrekeyAndIv(conn.handshake), key).up;
    ApplyTwice(p, up, ClientMeant(p, h, secret, taken));
    assert conn.sink.Sent()[64..] == Apply(p, up, ClientMeant(p, h, secret, taken));
  }

  /** The read buffer for the proxy's replies: a whole record where there are records. */
  function ReplyBuf(faketls: bool): nat
  {
    if faketls then CLIENT_BUF else RELAY_BUF
  }

  /** Records as long as TLS allows them, 2^14 + 256 octets, are read whole in either direction. */
  lemma WholeRecordsFit(recs: seq<Record>)
    requires DataPhase(recs, 16640)
    ensures ReadAll(Encode(recs), CLIENT_BUF) == ReadAll(Encode(recs), ReplyBuf(true)) == Carried(recs)
  {
    ReadAllCarried(recs, CLIENT_BUF);
  }

  /**
   * The replies of an upstream proxy. Our client decrypts exactly what the proxy
   * encrypted for a client of its own with our handshake and the proxy's key.
   */
  method DownloadRelay(
      p: Primitives, h: Block, secret: Bytes, key: Bytes, conn: Connection, cltEnc: AesCtr256, reader: ClientReader,
      sink: ClientWriter, interruptible: bool)
    returns (eof: bool, ghost taken: Bytes)
    requires reader.pending.Valid() && sink.Valid() && sink.Sent() == []
    requires conn.dec != cltEnc && conn.dec.p == cltEnc.p == p
    requires conn.dec.State() == HashedSession(p, PrekeyAndIv(conn.handshake), key).down
    requires cltEnc.State() == HashedSession(p, PrekeyAndIv(h), secret).down
    modifies reader.reader, reader.pending, conn.dec, cltEnc, sink, sink.writer
    ensures !interruptible ==> eof
    ensures var due := old(reader.Remaining(ReplyBuf(reader.faketls))); taken <= due && (eof ==> taken == due)
    ensures sink.Valid() && |sink.Sent()| == |taken|
    ensures ClientSees(p, h, secret, sink.Sent()) == ClientSees(p, conn.handshake, key, taken)
  {
    eof, taken := PumpStream(reader, conn.dec, cltEnc, sink, ReplyBuf(reader.faketls), interruptible);
    ApplyTwice(p, HashedSession(p, PrekeyAndIv(h), secret).down, ClientSees(p, conn.handshake, key, taken));
  }
}
