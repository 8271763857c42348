/**
 * One connection from end to end (proxy.rs): what the client put on its socket
 * against what Telegram's socket gets, and back, over the TCP fallback.
 */
module Serving {
  import opened Wrappers
  import opened Bytes
  import opened Crypto
  import opened Records
  import opened Hello
  import opened Inbound
  import opened Bridge

  /** What a client's socket carries once the hello of a FakeTLS session is off. */
  function Inner(domain: Option<Bytes>, s: Bytes): Bytes
  {
    if domain.None? then s else if HasRecord(s) then ReadAll(s[5 + LengthField(s)..], CLIENT_BUF) else []
  }

  /** Who gets past the first step: a whole handshake, behind a welcome hello if FakeTLS is on. */
  ghost predicate LetIn(p: Primitives, domain: Option<Bytes>, secrets: seq<Bytes>, s: Bytes)
  {
    (domain.Some? ==> Welcome(p, s, secrets, domain.value)) && |Inner(domain, s)| >= 64
  }

  /** A client that drains the handshake flight, if there is one, reads `content` out of `written`. */
  ghost predicate ClientReads(domain: Option<Bytes>, written: Bytes, content: Bytes)
  {
    if domain.None? then written == content
    else
      var rest := Drained(written, MAX_HANDSHAKE_RECORDS);
      rest.Some? && ReadAll(rest.value, CLIENT_BUF) == content
  }

  /** `start` and what a writer found after it: nothing, or a flight that drains exactly. */
  ghost predicate Opened(faketls: bool, start: Bytes, before: Bytes)
  {
    && start <= before
    && (if faketls then forall rest :: Drained(before[|start|..] + rest, MAX_HANDSHAKE_RECORDS) == Some(rest)
        else before == start)
  }

  lemma FlightDrains(start: Bytes, before: Bytes, content: Bytes)
    requires Opened(true, start, before)
    ensures Drained(before[|start|..] + content, MAX_HANDSHAKE_RECORDS) == Some(content)
  {
  }

  lemma Behind(start: Bytes, before: Bytes, content: Bytes)
    requires start <= before
    ensures start <= before + content && (before + content)[|start|..] == before[|start|..] + content
    ensures (before + content)[|before|..] == content
  {
  }

  /** Whatever a bridge sends through such a writer is what the client reads. */
  lemma ClientReadsBack(domain: Option<Bytes>, start: Bytes, w: ClientWriter)
    requires w.Valid() && w.faketls == domain.Some? && Opened(w.faketls, start, w.before)
    ensures start <= w.writer.data && ClientReads(domain, w.writer.data[|start|..], w.Sent())
  {
    var content := if w.faketls then Encode(AppRecords(w.pieces)) else Concat(w.pieces);
    Behind(start, w.before, content);
    if domain.Some? {
      FlightDrains(start, w.before, content);
      w.ClientReadsSent();
    }
  }

  /** Both halves of a client that was let in. */
  datatype Door = Door(handshake: Block, reader: ClientReader, writer: ClientWriter)

  method OpenDoor(handshake: Block, faketls: bool, reader: ByteReader, pending: PendingData, writer: ByteWriter)
    returns (d: Door)
    requires pending.Valid()
    ensures d.handshake == handshake && d.reader.faketls == faketls && d.reader.reader == reader
      && d.reader.pending == pending
    ensures d.reader.Remaining(CLIENT_BUF)
      == if faketls then pending.Rest() + ReadAll(reader.data, CLIENT_BUF) else reader.data
    ensures fresh(d.writer) && d.writer.Valid() && d.writer.writer == writer && d.writer.Sent() == []
    ensures d.writer.faketls == faketls && d.writer.before == writer.data
  {
    var from := new ClientReader(faketls, reader, pending);
    var to := new ClientWriter(faketls, writer);
    return Door(handshake, from, to);
  }

  lemma Rejoined(carried: Bytes, taken: Bytes)
    requires |carried| >= 64 && taken <= carried[64..]
    ensures carried[..64] + taken <= carried && (taken == carried[64..] ==> carried[..64] + taken == carried)
  {
    assert carried == carried[..64] + carried[64..];
  }

  lemma Front(handshake: Bytes, pending: Bytes, later: Bytes, carried: Bytes)
    requires handshake + pending + later == carried
    ensures handshake <= carried && carried[|handshake|..] == pending + later
  {
    Rebracket(handshake, pending, later);
  }

  /** Step 1, `read_inbound_handshake`, and the reader and writer made from it. */
  method Greet(
      p: Primitives, domain: Option<Bytes>, secrets: seq<Bytes>, reader: ByteReader, writer: ByteWriter,
      draw: FlightDraw, site: ByteWriter, answer: Bytes)
    returns (r: Option<Door>)
    requires writer != site
    modifies reader, writer, site
    ensures r.Some? <==> LetIn(p, domain, secrets, old(reader.data))
    ensures r.Some? ==> var d, carried := r.value, Inner(domain, old(reader.data));
      && d.reader.reader == reader && fresh(d.reader.pending) && d.reader.pending.Valid()
      && d.handshake == carried[..64] && d.reader.Remaining(CLIENT_BUF) == carried[64..]
      && fresh(d.writer) && d.writer.Valid() && d.writer.writer == writer && d.writer.Sent() == []
      && d.writer.faketls == domain.Some? && Opened(domain.Some?, old(writer.data), d.writer.before)
  {
    ghost var carried := Inner(domain, reader.data);
    if domain.None? {
      var got := reader.ReadExact(64);
      if got.None? {
        return None;
      }
      var none := new PendingData.FromRecord([], 0);
      var door := OpenDoor(got.value, false, reader, none, writer);
      return Some(door);
    }
    var accept := AcceptInboundFakeTls(p, reader, writer, secrets, domain.value, draw, site, answer);
    if !accept.Accepted? {
      return None;
    }
    assert accept.handshake + accept.pending.Rest() + ReadAll(reader.data, CLIENT_BUF) == carried;
    Front(accept.handshake, accept.pending.Rest(), ReadAll(reader.data, CLIENT_BUF), carried);
    var door := OpenDoor(accept.handshake, true, reader, accept.pending, writer);
    return Some(door);
  }

  /** Some secret of ours reads the handshake. */
  ghost predicate Known(p: Primitives, h: Block, secrets: seq<Bytes>)
  {
    exists i :: 0 <= i < |secrets| && ParseHandshake(p, h, secrets[i]).Some?
  }

  /** The first one that does. */
  ghost predicate OurSecret(p: Primitives, h: Block, secrets: seq<Bytes>, secret: Bytes)
  {
    exists i: nat :: FirstSecret(p, h, secrets, i) && secret == secrets[i]
  }

  /** What became of one connection, in terms of the plaintext on either side. */
  datatype Traffic = Traffic(secret: Bytes, relayInit: Block, taken: Bytes, got: Bytes, seen: Bytes)

  /** What a handshake asks for, read off the relay init by Telegram alone. */
  ghost predicate AsksFor(p: Primitives, h: Block, secret: Bytes, init: Block)
  {
    var info := ParseHandshake(p, h, secret);
    && info.Some?
    && var dc := RouteDc(info.value.dcId);
    && ReadRelayInit(p, init)
       == Some(HandshakeInfo(dc, info.value.isMedia && dc > 0, info.value.proto, PrekeyAndIv(init)))
  }

  /** Telegram's socket: nothing, or a relay init and exactly what the client meant behind it. */
  ghost predicate TelegramServed(p: Primitives, h: Block, t: Traffic, wire: Bytes)
  {
    if wire == [] then t.taken == [] && t.got == []
    else
      && |wire| == 64 + |t.taken| && wire[..64] == t.relayInit
      && AsksFor(p, h, t.secret, t.relayInit) && TelegramSees(p, wire) == ClientMeant(p, h, t.secret, t.taken)
  }

  /** The client's socket: the replies, readable behind the flight, are exactly what Telegram meant. */
  ghost predicate ClientServed(p: Primitives, domain: Option<Bytes>, h: Block, t: Traffic, written: Bytes)
  {
    && ClientReads(domain, written, t.seen)
    && ClientSees(p, h, t.secret, t.seen) == TelegramMeant(p, t.relayInit, t.got)
  }

  /** The four ciphers stand where a session of `h` starts. */
  ghost predicate Ready(p: Primitives, h: Block, c: Prepared)
    reads c.cltDec, c.cltEnc, c.tgEnc, c.tgDec
  {
    && {c.cltDec, c.tgEnc} !! {c.cltEnc, c.tgDec} && c.cltDec != c.tgEnc && c.tgDec != c.cltEnc
    && c.cltDec.p == c.cltEnc.p == c.tgEnc.p == c.tgDec.p == p
    && Session(c.cltDec.State(), c.cltEnc.State()) == HashedSession(p, PrekeyAndIv(h), c.secret)
    && Session(c.tgEnc.State(), c.tgDec.State()) == RawSession(PrekeyAndIv(c.relayInit))
  }

  /**
   * `bridge_tcp` once the dial has succeeded. The two directions share no state,
   * so running one after the other is running them in any order; `up` and `down`
   * say whether each may be cut off.
   */
  method BridgeTcp(
      p: Primitives, h: Block, c: Prepared, reader: ClientReader, writer: ClientWriter,
      tgReader: ByteReader, tgWriter: ByteWriter, up: bool, down: bool, ghost domain: Option<Bytes>, ghost start: Bytes)
    returns (ghost t: Traffic)
    requires reader.pending.Valid() && writer.Valid() && writer.Sent() == [] && tgWriter.data == []
    requires tgWriter != writer.writer && tgReader != reader.reader
    requires Ready(p, h, c) && AsksFor(p, h, c.secret, c.relayInit)
    requires writer.faketls == domain.Some? && Opened(domain.Some?, start, writer.before)
    modifies reader.reader, reader.pending, writer, writer.writer, tgReader, tgWriter
    modifies c.cltDec, c.cltEnc, c.tgEnc, c.tgDec
    ensures t.secret == c.secret
    ensures t.taken <= old(reader.Remaining(CLIENT_BUF)) && (!up ==> t.taken == old(reader.Remaining(CLIENT_BUF)))
    ensures t.got <= old(tgReader.data) && (!up && !down ==> t.got == old(tgReader.data))
    ensures TelegramServed(p, h, t, tgWriter.data)
    ensures start <= writer.writer.data && ClientServed(p, domain, h, t, writer.writer.data[|start|..])
  {
    var none := new PendingData.FromRecord([], 0);
    var from := new ClientReader(false, tgReader, none);
    var to := new ClientWriter(false, tgWriter);
    var began, eof, taken := UploadTcp(p, h, c, reader, to, up);
    assert tgWriter.data == to.Sent();
    if !began {
      ReachesClient(p, h, c.secret, c.relayInit, [], []);
      ClientReadsBack(domain, start, writer);
      return Traffic(c.secret, c.relayInit, [], [], []);
    }
    var over, got := DownloadTcp(p, h, c, from, writer, down);
    ClientReadsBack(domain, start, writer);
    return Traffic(c.secret, c.relayInit, taken, got, writer.Sent());
  }

  /** Steps 2 to 4. */
  method MakeReady(p: Primitives, h: Block, secrets: seq<Bytes>, forceTest: bool, rng: nat -> Block, pad: Bytes)
    returns (r: Option<Prepared>)
    requires SomeUsable(rng) && |pad| == 2
    ensures r.Some? <==> Known(p, h, secrets)
    ensures r.Some? ==> var c := r.value;
      && OurSecret(p, h, secrets, c.secret)
      && Ready(p, h, c) && AsksFor(p, h, c.secret, c.relayInit)
      && fresh({c.cltDec, c.cltEnc, c.tgEnc, c.tgDec})
  {
    r := Prepare(p, h, secrets, forceTest, rng, pad);
  }

  /** A client gets as far as a bridge. */
  ghost predicate Admitted(p: Primitives, domain: Option<Bytes>, secrets: seq<Bytes>, s: Bytes)
  {
    LetIn(p, domain, secrets, s) && Known(p, Inner(domain, s)[..64], secrets)
  }

  /** `handle_client_with_runtime` up to the routing. */
  method Admit(
      p: Primitives, domain: Option<Bytes>, secrets: seq<Bytes>, reader: ByteReader, writer: ByteWriter,
      draw: FlightDraw, site: ByteWriter, answer: Bytes, forceTest: bool, rng: nat -> Block, pad: Bytes)
    returns (r: Option<(Door, Prepared)>)
    requires SomeUsable(rng) && |pad| == 2 && writer != site
    modifies reader, writer, site
    ensures r.Some? <==> Admitted(p, domain, secrets, old(reader.data))
    ensures r.Some? ==> var (d, c), carried := r.value, Inner(domain, old(reader.data));
      && d.reader.reader == reader && fresh(d.reader.pending) && d.reader.pending.Valid()
      && d.handshake == carried[..64] && d.reader.Remaining(CLIENT_BUF) == carried[64..]
      && fresh(d.writer) && d.writer.Valid() && d.writer.writer == writer && d.writer.Sent() == []
      && d.writer.faketls == domain.Some? && Opened(domain.Some?, old(writer.data), d.writer.before)
      && OurSecret(p, d.handshake, secrets, c.secret)
      && Ready(p, d.handshake, c) && AsksFor(p, d.handshake, c.secret, c.relayInit)
      && fresh({c.cltDec, c.cltEnc, c.tgEnc, c.tgDec})
  {
    var door := Greet(p, domain, secrets, reader, writer, draw, site, answer);
    if door.None? {
      return None;
    }
    var prepared := MakeReady(p, door.value.handshake, secrets, forceTest, rng, pad);
    if prepared.None? {
      return None;
    }
    return Some((door.value, prepared.value));
  }

  /**
   * A whole connection routed to TCP, the dial having succeeded. Telegram's
   * socket gets exactly what the client meant and the client reads exactly what
   * Telegram meant, whatever the two sockets carry.
   */
  method ServeTcp(
      p: Primitives, domain: Option<Bytes>, secrets: seq<Bytes>, reader: ByteReader, writer: ByteWriter,
      draw: FlightDraw, site: ByteWriter, answer: Bytes, forceTest: bool, rng: nat -> Block, pad: Bytes,
      tgReader: ByteReader, tgWriter: ByteWriter, up: bool, down: bool)
    returns (ghost r: Option<Traffic>)
    requires SomeUsable(rng) && |pad| == 2 && tgWriter.data == []
    requires writer != site && tgWriter != writer && tgWriter != site && tgReader != reader
    modifies reader, writer, site, tgReader, tgWriter
    ensures r.Some? <==> Admitted(p, domain, secrets, old(reader.data))
    ensures r.None? ==> tgWriter.data == [] && tgReader.data == old(tgReader.data)
    ensures r.Some? ==> var t, carried := r.value, Inner(domain, old(reader.data)); var h := carried[..64];
      && OurSecret(p, h, secrets, t.secret)
      && h + t.taken <= carried && (!up ==> h + t.taken == carried)
      && t.got <= old(tgReader.data) && (!up && !down ==> t.got == old(tgReader.data))
      && TelegramServed(p, h, t, tgWriter.data)
      && old(writer.data) <= writer.data && ClientServed(p, domain, h, t, writer.data[|old(writer.data)|..])
  {
    ghost var start, carried := writer.data, Inner(domain, reader.data);
    var admitted := Admit(p, domain, secrets, reader, writer, draw, site, answer, forceTest, rng, pad);
    if admitted.None? {
      return None;
    }
    var (d, c) := admitted.value;
    var t := BridgeTcp(p, d.handshake, c, d.reader, d.writer, tgReader, tgWriter, up, down, domain, start);
    Rejoined(carried, t.taken);
    return Some(t);
  }
}
