/**
 * The client side of a connection (proxy.rs): accepting an inbound FakeTLS
 * session, the left-over bytes of the record that completed the handshake, and
 * the reader and writer the bridges use.
 */
module Inbound {
  import opened Wrappers
  import opened Bytes
  import opened Crypto
  import opened Records
  import opened Hello

  /** `CLIENT_READ_BUF_SIZE`: a full record payload and its AEAD headroom. */
  const CLIENT_BUF: nat := MAX_PAYLOAD + READ_HEADROOM

  // ------------------------------------------------------------ pending data

  /** What is left of the record whose front completed the handshake. */
  class PendingData {
    var data: Bytes
    var offset: nat

    constructor FromRecord(data: Bytes, offset: nat)
      requires offset <= |data|
      ensures Valid() && Rest() == data[offset..]
    {
      this.data, this.offset := data, offset;
    }

    predicate Valid()
      reads this
    {
      offset <= |data|
    }

    function Rest(): Bytes
      reads this
      requires Valid()
    {
      data[offset..]
    }

    /** None once everything was handed out; the record is released with its last octet. */
    method Read(buf: array<byte>) returns (r: Option<nat>)
      requires Valid()
      modifies this, buf
      ensures Valid()
      ensures r.None? <==> old(Rest()) == []
      ensures r.None? ==> Rest() == [] && buf[..] == old(buf[..])
      ensures r.Some? ==>
        && r.value <= buf.Length && r.value == (if buf.Length < |old(Rest())| then buf.Length else |old(Rest())|)
        && buf[..r.value] == old(Rest())[..r.value] && Rest() == old(Rest())[r.value..]
        && (Rest() == [] ==> data == [])
    {
      var remaining := data[offset..];
      if remaining == [] {
        return None;
      }
      var n := if buf.Length < |remaining| then buf.Length else |remaining|;
      forall i | 0 <= i < n {
        buf[i] := remaining[i];
      }
      offset := offset + n;
      if offset == |data| {
        data, offset := [], 0;
      }
      return Some(n);
    }
  }

  // ------------------------------------------------------- inbound handshake

  /** One record at the front of a stream, as `read_tls_record_bytes` cuts it off. */
  predicate HasRecord(s: Bytes)
  {
    |s| >= 5 && LengthField(s) <= CLIENT_BUF && |s| >= 5 + LengthField(s)
  }

  /** Unrolls the reference reader by one record. */
  lemma ReadAllStep(s: Bytes)
    ensures HasRecord(s) ==>
      && s[5 + LengthField(s)..] == s[5..][LengthField(s)..]
      && s[5..5 + LengthField(s)] == s[5..][..LengthField(s)]
    ensures HasRecord(s) && s[0] == CHANGE_CIPHER_SPEC ==>
      ReadAll(s, CLIENT_BUF) == ReadAll(s[5 + LengthField(s)..], CLIENT_BUF)
    ensures HasRecord(s) && s[0] == APPLICATION_DATA && LengthField(s) > 0 ==>
      ReadAll(s, CLIENT_BUF) == s[5..5 + LengthField(s)] + ReadAll(s[5 + LengthField(s)..], CLIENT_BUF)
    ensures !HasRecord(s)
      || (s[0] != CHANGE_CIPHER_SPEC && (s[0] != APPLICATION_DATA || LengthField(s) == 0))
      ==> ReadAll(s, CLIENT_BUF) == []
  {
  }

  datatype Part = Stop | Ignore | Data(record: Bytes)

  /** What a stream still carries in Application Data records. */
  ghost predicate Carries(s: Bytes, content: Bytes) { ReadAll(s, CLIENT_BUF) == content }

  /** Reads one record of the handshake phase and says what it is. */
  method NextPart(reader: ByteReader, ghost stream: Bytes) returns (r: Part, ghost left: Bytes)
    requires Carries(reader.data, stream)
    modifies reader
    ensures r.Stop? ==> stream == []
    ensures !r.Stop? ==> Carries(reader.data, left) && |reader.data| < |old(reader.data)|
    ensures r.Ignore? ==> left == stream
    ensures r.Data? ==> |r.record| > 5 && r.record[5..] + left == stream
  {
    ReadAllStep(reader.data);
    var got := ReadRecordBytes(reader, CLIENT_BUF);
    left := ReadAll(reader.data, CLIENT_BUF);
    if got.None? {
      return Stop, left;
    }
    var record := got.value;
    var payloadLen := |record| - 5;
    if record[0] == CHANGE_CIPHER_SPEC {
      return Ignore, left;
    }
    if record[0] != APPLICATION_DATA || payloadLen == 0 {
      return Stop, left;
    }
    return Data(record), left;
  }

  /**
   * The loop that fills the 64-byte MTProto handshake from Application Data
   * records. No octet is lost: handshake, pending bytes and what is still to be
   * read make up exactly what the stream carries, for every stream.
   */
  method FillHandshake(reader: ByteReader) returns (r: Option<(Bytes, PendingData)>)
    modifies reader
    ensures r.Some? <==> |ReadAll(old(reader.data), CLIENT_BUF)| >= 64
    ensures r.Some? ==> var (handshake, pending) := r.value;
      && fresh(pending) && pending.Valid() && |handshake| == 64
      && handshake + pending.Rest() + ReadAll(reader.data, CLIENT_BUF) == ReadAll(old(reader.data), CLIENT_BUF)
  {
    var buf := new byte[64](_ => 0);
    ghost var stream := ReadAll(reader.data, CLIENT_BUF);
    var full, rest, left := FillBuffer(reader, buf, stream);
    if !full {
      return None;
    }
    var pending := new PendingData.FromRecord(rest.0, rest.1);
    return Some((buf[..], pending));
  }

  /** Fills `buf`; what the last record holds beyond it starts at index `rest.1`. */
  method FillBuffer(reader: ByteReader, buf: array<byte>, ghost stream: Bytes)
    returns (full: bool, rest: (Bytes, nat), ghost left: Bytes)
    requires Carries(reader.data, stream)
    modifies reader, buf
    ensures rest.1 <= |rest.0|
    ensures !full ==> |stream| < buf.Length
    ensures full ==> Carries(reader.data, left) && buf[..] + rest.0[rest.1..] + left == stream
  {
    ghost var got := buf[..0];
    left := stream;
    var filled := 0;
    assert buf.Length == 0 ==> buf[..] == got;
    while filled < buf.Length
      invariant 0 <= filled <= buf.Length
      invariant Carries(reader.data, left)
      invariant buf[..filled] == got && (filled == buf.Length ==> buf[..] == got)
      invariant got + left == stream
      decreases |reader.data|
    {
      var part;
      part, left := NextPart(reader, left);
      if part.Stop? {
        Runout(got, stream);
        return false, ([], 0), left;
      }
      if part.Data? {
        var take;
        take, got := CopyPayload(buf, filled, part.record, got, left, stream);
        filled := filled + take;
        if take != |part.record| - 5 {
          return true, (part.record, 5 + take), left;
        }
      }
    }
    NothingLeft(got, left);
    return true, ([], 0), left;
  }

  lemma Runout(got: Bytes, stream: Bytes)
    requires got + [] == stream
    ensures |stream| == |got|
  {
  }

  lemma NothingLeft(a: Bytes, b: Bytes)
    ensures a + [][0..] + b == a + b
  {
  }

  /** Copies as much of a record's payload as the handshake still needs. */
  method CopyPayload(
      buf: array<byte>, filled: nat, record: Bytes, ghost got: Bytes, ghost later: Bytes, ghost whole: Bytes)
    returns (take: nat, ghost now: Bytes)
    requires filled < buf.Length && |record| > 5
    requires buf[..filled] == got && got + (record[5..] + later) == whole
    modifies buf
    ensures take == if |record| - 5 < buf.Length - filled then |record| - 5 else buf.Length - filled
    ensures buf[..filled + take] == now && (filled + take == buf.Length ==> buf[..] == now)
    ensures now + record[5 + take..] + later == whole
    ensures take == |record| - 5 ==> now + later == whole
  {
    take := if |record| - 5 < buf.Length - filled then |record| - 5 else buf.Length - filled;
    forall i | 0 <= i < take {
      buf[filled + i] := record[5 + i];
    }
    now := got + record[5..5 + take];
    assert filled + take == buf.Length ==> buf[..] == buf[..filled + take];
    assert buf[..filled] == got;
    Regrouped(got, record, take, later, whole);
  }

  lemma Regrouped(before: Bytes, record: Bytes, take: nat, rest: Bytes, whole: Bytes)
    requires 5 + take <= |record| && before + (record[5..] + rest) == whole
    ensures (before + record[5..5 + take]) + record[5 + take..] + rest == whole
    ensures 5 + take == |record| ==> (before + record[5..5 + take]) + rest == whole
  {
    assert record[5..] == record[5..5 + take] + record[5 + take..];
  }

  /** The first secret that authenticates a hello, as `find_map` finds it. */
  ghost predicate FirstHello(p: Primitives, record: Bytes, secrets: seq<Bytes>, i: nat)
  {
    && i < |secrets| && HelloOf(p, record, secrets[i]).Some?
    && forall j :: 0 <= j < i ==> HelloOf(p, record, secrets[j]).None?
  }

  method FindHello(p: Primitives, record: Bytes, secrets: seq<Bytes>) returns (r: Option<(ClientHello, nat)>)
    ensures r.None? ==> forall j :: 0 <= j < |secrets| ==> HelloOf(p, record, secrets[j]).None?
    ensures r.Some? ==>
      && FirstHello(p, record, secrets, r.value.1)
      && HelloOf(p, record, secrets[r.value.1]) == Some(r.value.0)
  {
    for i := 0 to |secrets|
      invariant forall j :: 0 <= j < i ==> HelloOf(p, record, secrets[j]).None?
    {
      var hello := ParseClientHello(p, record, secrets[i]);
      if hello.Some? {
        return Some((hello.value, i));
      }
    }
    return None;
  }

  /** How the acceptance of an inbound connection can end. */
  datatype Accept =
    | Refused
    | Redirected
    | Masked
    | Accepted(handshake: Block, pending: PendingData, hello: ClientHello, secret: Bytes)

  /** A hello one of our secrets signed, for our domain, opens the stream. */
  ghost predicate Welcome(p: Primitives, s: Bytes, secrets: seq<Bytes>, domain: Bytes)
  {
    && HasRecord(s) && s[0] == HANDSHAKE && s[1] == 3 && s[2] == 1
    && var record := s[..5 + LengthField(s)];
       exists i: nat :: FirstHello(p, record, secrets, i)
         && HelloOf(p, record, secrets[i]).value.hostname == Some(domain)
  }

  /** The first of our secrets that authenticates the hello answers its random, octets 11 to 42 of the stream. */
  ghost predicate Answered(p: Primitives, s: Bytes, secrets: seq<Bytes>, flight: Bytes)
  {
    && HasRecord(s) && |s| >= 43
    && exists i: nat :: FirstHello(p, s[..5 + LengthField(s)], secrets, i)
                        && ClientAccepts(p, secrets[i], s[11..43], flight)
  }

  /** The hello of a stream, and the secret it is taken under. */
  ghost predicate Picked(p: Primitives, s: Bytes, secrets: seq<Bytes>, hello: ClientHello, secret: Bytes)
  {
    && HasRecord(s) && |s| >= 43 && hello.random == s[11..43]
    && exists i: nat :: FirstHello(p, s[..5 + LengthField(s)], secrets, i) && secret == secrets[i]
  }

  lemma PickedByParser(p: Primitives, s: Bytes, secrets: seq<Bytes>, i: nat)
    requires HasRecord(s) && FirstHello(p, s[..5 + LengthField(s)], secrets, i)
    ensures Picked(p, s, secrets, HelloOf(p, s[..5 + LengthField(s)], secrets[i]).value, secrets[i])
  {
    var record := s[..5 + LengthField(s)];
    AcceptedIsSigned(p, record, secrets[i]);
    assert record[11..43] == s[11..43];
  }

  lemma PickedIsAnswered(
      p: Primitives, s: Bytes, secrets: seq<Bytes>, hello: ClientHello, secret: Bytes, flight: Bytes)
    requires Picked(p, s, secrets, hello, secret) && ClientAccepts(p, secret, hello.random, flight)
    ensures Answered(p, s, secrets, flight)
  {
  }

  /** The random octets one ServerHello flight consumes. */
  datatype FlightDraw = FlightDraw(keyShare: Key, fill: nat -> byte, certDraw: nat)

  datatype Greeting = NoHello(answer: Accept) | Greeted(hello: ClientHello, secret: Bytes)

  /** The client does not even speak TLS. */
  predicate NotTls(s: Bytes) { |s| >= 5 && s[0] != HANDSHAKE }

  /** The hello never arrives whole, or is too long. */
  predicate Unfinished(s: Bytes) { |s| < 5 || (s[0] == HANDSHAKE && !HasRecord(s)) }

  /** What becomes of a connection without a welcome hello. */
  function Rejection(s: Bytes): Accept
  {
    if NotTls(s) then Redirected else if Unfinished(s) then Refused else Masked
  }

  /**
   * By octets: whoever starts with another octet than 22 is redirected; one whose
   * record is cut short or longer than 16640 octets gets nothing.
   */
  lemma RejectedByOctets(s: Bytes)
    ensures Rejection(s).Redirected? <==> |s| >= 5 && s[0] != 22
    ensures Rejection(s).Refused? <==> |s| < 5 || (s[0] == 22 && !Whole(s, 16640))
    ensures Rejection(s).Masked? <==> |s| >= 5 && s[0] == 22 && Whole(s, 16640)
  {
  }

  function Ascii(s: string): Bytes
  {
    seq(|s|, i requires 0 <= i < |s| => (s[i] as int % 256) as byte)
  }

  /** The answer a plain HTTP client gets. */
  function Redirect(domain: Bytes): Bytes
  {
    Ascii("HTTP/1.1 301 Moved Permanently\r\nLocation: https://") + domain
      + Ascii("/\r\nContent-Length: 0\r\nConnection: close\r\n\r\n")
  }

  /** Its status is 301, the domain stands in it, its length field says 0, and it ends with an empty line. */
  lemma RedirectsToDomain(domain: Bytes)
    ensures var r, n := Redirect(domain), |domain|;
      && |r| == 93 + n && r[9] == 51 && r[10] == 48 && r[11] == 49 && r[50..50 + n] == domain
      && r[69 + n] == 48 && r[70 + n] == 13 && r[89 + n] == r[91 + n] == 13 && r[90 + n] == r[92 + n] == 10
  {
    var s := "HTTP/1.1 301 Moved Permanently\r\nLocation: https://";
    var t := "/\r\nContent-Length: 0\r\nConnection: close\r\n\r\n";
    var a, b := Ascii(s), Ascii(t);
    assert s[9] == '3' && s[10] == '0' && s[11] == '1';
    assert t[19] == '0' && t[20] == '\r' && t[39] == t[41] == '\r' && t[40] == t[42] == '\n';
    Cut3(a, domain, b);
    var r, n := Redirect(domain), |domain|;
    assert r == a + domain + b;
    assert r[9] == a[9] && r[10] == a[10] && r[11] == a[11];
    assert forall i :: 0 <= i < 43 ==> r[50 + n + i] == b[i];
  }

  /** The half of `accept_inbound_faketls` that reads and judges the hello. */
  method TakeHello(p: Primitives, reader: ByteReader, secrets: seq<Bytes>, domain: Bytes)
    returns (r: Greeting, record: Bytes)
    modifies reader
    ensures r.Greeted? <==> Welcome(p, old(reader.data), secrets, domain)
    ensures r.NoHello? ==> r.answer == Rejection(old(reader.data))
    ensures r.NoHello? && r.answer.Masked? ==> record + reader.data == old(reader.data)
    ensures r.Greeted? ==>
      && r.secret in secrets && r.hello.hostname == Some(domain) && FromParser(r.hello)
      && reader.data == old(reader.data)[5 + LengthField(old(reader.data))..]
      && HelloOf(p, old(reader.data)[..5 + LengthField(old(reader.data))], r.secret) == Some(r.hello)
      && Picked(p, old(reader.data), secrets, r.hello, r.secret)
  {
    ghost var s := reader.data;
    record := [];
    var got := reader.ReadExact(5);
    if got.None? {
      return NoHello(Refused), record;
    }
    var header := got.value;
    if header[0] != HANDSHAKE {
      return NoHello(Redirected), record;
    }
    var payloadLen := FromBe16(header[3], header[4]);
    if payloadLen > MAX_PAYLOAD + READ_HEADROOM {
      return NoHello(Refused), record;
    }
    var payload := reader.ReadExact(payloadLen);
    if payload.None? {
      return NoHello(Refused), record;
    }
    record := header + payload.value;
    assert record == s[..5 + LengthField(s)] && s[5..][payloadLen..] == s[5 + LengthField(s)..];
    if record[1] != 3 || record[2] != 1 {
      return NoHello(Masked), record;
    }
    var found := FindHello(p, record, secrets);
    if found.None? {
      return NoHello(Masked), record;
    }
    var (hello, index) := found.value;
    FirstHelloIsUnique(p, record, secrets, index);
    if hello.hostname != Some(domain) {
      return NoHello(Masked), record;
    }
    ParserGivesFromParser(p, record, secrets[index]);
    PickedByParser(p, s, secrets, index);
    return Greeted(hello, secrets[index]), record;
  }

  lemma FirstHelloIsUnique(p: Primitives, record: Bytes, secrets: seq<Bytes>, i: nat)
    requires FirstHello(p, record, secrets, i)
    ensures forall j: nat :: FirstHello(p, record, secrets, j) ==> j == i
  {
  }

  /** The half that answers it. */
  method AnswerHello(p: Primitives, writer: ByteWriter, hello: ClientHello, secret: Bytes, draw: FlightDraw)
    requires FromParser(hello)
    modifies writer
    ensures old(writer.data) <= writer.data
    ensures forall rest :: Drained(writer.data[|old(writer.data)|..] + rest, MAX_HANDSHAKE_RECORDS) == Some(rest)
    ensures ClientAccepts(p, secret, hello.random, writer.data[|old(writer.data)|..])
  {
    ghost var before := writer.data;
    var flight := BuildServerHello(p, secret, hello, draw.keyShare, draw.fill, draw.certDraw);
    ghost var cert := FakeCertificate(draw.fill, draw.certDraw);
    writer.WriteAll(flight);
    assert writer.data[|before|..] == flight;
    ghost var random := ServerRandom(p, secret, hello, draw.keyShare, cert);
    forall rest
      ensures Drained(flight + rest, MAX_HANDSHAKE_RECORDS) == Some(rest)
    {
      FlightDrainedExactly(hello, random, draw.keyShare, cert, rest);
    }
  }

  /**
   * `proxy_to_masking_domain`: the hello and what follows it go to the site, the
   * site's answer to the client, until either side ends.
   */
  method ProxyToMaskingDomain(
      reader: ByteReader, writer: ByteWriter, record: Bytes, site: ByteWriter, answer: Bytes)
    requires writer != site
    modifies reader, writer, site
    ensures Begun(old(site.data), site.data, record + old(reader.data))
    ensures Begun(old(writer.data), writer.data, answer)
  {
    var reached := *;
    if !reached {
      assert site.data == old(site.data) + [] && writer.data == old(writer.data) + [];
      return;
    }
    var up: nat :| up <= |reader.data|;
    var down: nat :| down <= |answer|;
    site.WriteAll(record);
    site.WriteAll(reader.data[..up]);
    assert old(site.data) + record + reader.data[..up] == old(site.data) + (record + reader.data[..up]);
    assert record + reader.data[..up] <= record + reader.data;
    reader.data := reader.data[up..];
    writer.WriteAll(answer[..down]);
  }

  /** Something of `due`, from its beginning on, has come after `before`. */
  predicate Begun(before: Bytes, now: Bytes, due: Bytes)
  {
    before <= now && now[|before|..] <= due
  }

  /**
   * `accept_inbound_faketls`. A connection is accepted exactly when its hello
   * is welcome and the records after it carry a whole handshake; then nothing
   * of the stream is lost, and what was written is a flight that the client's
   * drain takes off exactly. A stranger gets the redirect, or nothing, or what
   * the masking site itself answers to the stranger's own octets.
   */
  method AcceptInboundFakeTls(
      p: Primitives, reader: ByteReader, writer: ByteWriter, secrets: seq<Bytes>, domain: Bytes, draw: FlightDraw,
      site: ByteWriter, answer: Bytes)
    returns (r: Accept)
    requires writer != site
    modifies reader, writer, site
    ensures r.Accepted? <==>
      && Welcome(p, old(reader.data), secrets, domain)
      && |ReadAll(old(reader.data)[5 + LengthField(old(reader.data))..], CLIENT_BUF)| >= 64
    ensures r.Accepted? ==>
      && fresh(r.pending) && r.pending.Valid()
      && r.secret in secrets && r.hello.hostname == Some(domain)
      && HelloOf(p, old(reader.data)[..5 + LengthField(old(reader.data))], r.secret) == Some(r.hello)
      && r.handshake + r.pending.Rest() + ReadAll(reader.data, CLIENT_BUF)
         == ReadAll(old(reader.data)[5 + LengthField(old(reader.data))..], CLIENT_BUF)
    ensures old(writer.data) <= writer.data
    ensures Welcome(p, old(reader.data), secrets, domain) ==>
      && site.data == old(site.data)
      && Answered(p, old(reader.data), secrets, writer.data[|old(writer.data)|..])
      && forall rest :: Drained(writer.data[|old(writer.data)|..] + rest, MAX_HANDSHAKE_RECORDS) == Some(rest)
    ensures !Welcome(p, old(reader.data), secrets, domain) ==>
      && r == Rejection(old(reader.data))
      && (r.Redirected? ==> writer.data == old(writer.data) + Redirect(domain))
      && (r.Refused? ==> writer.data == old(writer.data))
      && (r.Masked? ==>
          Begun(old(writer.data), writer.data, answer) && Begun(old(site.data), site.data, old(reader.data)))
  {
    ghost var s := reader.data;
    var greeting, record := TakeHello(p, reader, secrets, domain);
    if greeting.NoHello? {
      if greeting.answer.Redirected? {
        writer.WriteAll(Redirect(domain));
      } else if greeting.answer.Masked? {
        assert record + reader.data == s;
        ProxyToMaskingDomain(reader, writer, record, site, answer);
      }
      return greeting.answer;
    }
    ghost var before := writer.data;
    AnswerHello(p, writer, greeting.hello, greeting.secret, draw);
    PickedIsAnswered(p, s, secrets, greeting.hello, greeting.secret, writer.data[|before|..]);
    var filled := FillHandshake(reader);
    match filled
    case None => return Refused;
    case Some((handshake, pending)) =>
      return Accepted(handshake, pending, greeting.hello, greeting.secret);
  }

  // ------------------------------------------------------- reader and writer

  /** `ClientReader`: plain, or FakeTLS with pending bytes in front of the records. */
  class ClientReader {
    const faketls: bool
    const reader: ByteReader
    const pending: PendingData

    constructor (faketls: bool, reader: ByteReader, pending: PendingData)
      ensures this.faketls == faketls && this.reader == reader && this.pending == pending
    {
      this.faketls, this.reader, this.pending := faketls, reader, pending;
    }

    /** Every octet this reader is still going to hand out to reads with buffers of `size`. */
    ghost function Remaining(size: nat): Bytes
      requires pending.Valid()
      reads this, reader, pending
    {
      if faketls then pending.Rest() + ReadAll(reader.data, size) else reader.data
    }

    /**
     * One read. A plain socket may return any non-empty part of what is there.
     * While pending octets or a plain socket are read, buffers of any sizes may
     * take turns; the record part keeps to one size, for a record that does not
     * fit reads as the end.
     */
    method Read(buf: array<byte>) returns (n: nat)
      requires pending.Valid() && buf.Length > 0
      modifies reader, pending, buf
      ensures pending.Valid() && n <= buf.Length
      ensures n == 0 <==> old(Remaining(buf.Length)) == []
      ensures n > 0 ==> buf[..n] + Remaining(buf.Length) == old(Remaining(buf.Length))
      ensures n > 0 && (!faketls || old(pending.Rest()) != []) ==>
        forall size: nat :: buf[..n] + Remaining(size) == old(Remaining(size))
    {
      if !faketls {
        n := ReadSocket(reader, buf);
        return;
      }
      n := ReadFakeTls(reader, pending, buf);
      if old(pending.Rest()) != [] {
        forall size: nat
          ensures buf[..n] + Remaining(size) == old(Remaining(size))
        {
          Rebracket(buf[..n], pending.Rest(), ReadAll(reader.data, size));
        }
      } else {
        EmptyFront(ReadAll(reader.data, buf.Length));
        EmptyFront(ReadAll(old(reader.data), buf.Length));
      }
    }
  }

  /** A FakeTLS read: pending bytes first, then records. */
  method ReadFakeTls(reader: ByteReader, pending: PendingData, buf: array<byte>) returns (n: nat)
    requires pending.Valid() && buf.Length > 0
    modifies reader, pending, buf
    ensures pending.Valid() && n <= buf.Length
    ensures n == 0 <==> old(pending.Rest()) == [] && ReadAll(old(reader.data), buf.Length) == []
    ensures old(pending.Rest()) == [] ==>
      && pending.Rest() == []
      && (n > 0 ==> buf[..n] + ReadAll(reader.data, buf.Length) == ReadAll(old(reader.data), buf.Length))
    ensures old(pending.Rest()) != [] ==>
      buf[..n] + pending.Rest() == old(pending.Rest()) && reader.data == old(reader.data)
  {
    var fromPending := pending.Read(buf);
    if fromPending.Some? {
      n := fromPending.value;
      Handed(old(pending.Rest()), n);
    } else {
      n := ReadRecords(reader, buf);
    }
  }

  /** A read of a plain socket: some non-empty part of what has arrived, or EOF. */
  method ReadSocket(reader: ByteReader, buf: array<byte>) returns (n: nat)
    requires buf.Length > 0
    modifies reader, buf
    ensures n <= buf.Length
    ensures n == 0 <==> old(reader.data) == []
    ensures buf[..n] + reader.data == old(reader.data)
  {
    var available := |reader.data|;
    if available == 0 {
      assert buf[..0] + reader.data == reader.data;
      return 0;
    }
    var most := if available < buf.Length then available else buf.Length;
    n :| 1 <= n <= most;
    ghost var s := reader.data;
    var ok := reader.ReadExactInto(buf, n);
    assert s == s[..n] + s[n..];
  }

  lemma EmptyFront(b: Bytes)
    ensures [] + b == b
  {
  }

  lemma Handed(rest: Bytes, n: nat)
    requires n <= |rest|
    ensures rest[..n] + rest[n..] == rest
  {
  }

  /** A read of the record part, against the reference reader. */
  method ReadRecords(reader: ByteReader, buf: array<byte>) returns (n: nat)
    modifies reader, buf
    ensures n <= buf.Length
    ensures n == 0 <==> ReadAll(old(reader.data), buf.Length) == []
    ensures n > 0 ==> buf[..n] + ReadAll(reader.data, buf.Length) == ReadAll(old(reader.data), buf.Length)
  {
    n := ReadAppData(reader, buf);
  }

  /** Writing `data` after `pieces` appends its chunks. */
  lemma MoreRecords(before: Bytes, pieces: seq<Bytes>, data: Bytes)
    ensures Concat(pieces + Chunks(data)) == Concat(pieces) + data
    ensures before + Encode(AppRecords(pieces)) + Encode(AppRecords(Chunks(data)))
      == before + Encode(AppRecords(pieces + Chunks(data)))
    ensures forall x :: x in Chunks(data) ==> 1 <= |x| <= MAX_PAYLOAD
  {
    ChunksPartition(data);
    ConcatAppend(pieces, Chunks(data));
    RecordsAppend(pieces, Chunks(data));
    Rebracket(before, Encode(AppRecords(pieces)), Encode(AppRecords(Chunks(data))));
  }

  lemma RecordsAppend(a: seq<Bytes>, b: seq<Bytes>)
    ensures Encode(AppRecords(a + b)) == Encode(AppRecords(a)) + Encode(AppRecords(b))
  {
    assert AppRecords(a + b) == AppRecords(a) + AppRecords(b);
    EncodeAppend(AppRecords(a), AppRecords(b));
  }

  /** `ClientWriter`: `sent` is what the client gets to see, framing removed. */
  class ClientWriter {
    const faketls: bool
    const writer: ByteWriter
    ghost const before: Bytes
    ghost var pieces: seq<Bytes>

    constructor (faketls: bool, writer: ByteWriter)
      ensures this.faketls == faketls && this.writer == writer && Valid() && Sent() == []
      ensures before == writer.data
    {
      this.faketls, this.writer := faketls, writer;
      before, pieces := writer.data, [];
      new;
      assert before + Encode([]) == before;
    }

    ghost predicate Valid()
      reads this, writer
    {
      && (faketls ==> forall x :: x in pieces ==> 1 <= |x| <= MAX_PAYLOAD)
      && writer.data == before + (if faketls then Encode(AppRecords(pieces)) else Concat(pieces))
    }

    ghost function Sent(): Bytes
      reads this
    {
      Concat(pieces)
    }

    method WriteAll(data: Bytes)
      requires Valid()
      modifies this, writer
      ensures Valid() && Sent() == old(Sent()) + data
    {
      if faketls {
        WriteAppData(writer, data);
        MoreRecords(before, pieces, data);
        pieces := pieces + Chunks(data);
      } else {
        writer.WriteAll(data);
        ConcatSnoc(pieces, data);
        pieces := pieces + [data];
      }
    }

    /** A FakeTLS client that reads the records back gets exactly `Sent`. */
    lemma ClientReadsSent()
      requires Valid() && faketls
      ensures ReadAll(writer.data[|before|..], CLIENT_BUF) == Sent()
    {
      assert writer.data[|before|..] == Encode(AppRecords(pieces));
      CarriedByAppRecords(pieces);
      ReadAllCarried(AppRecords(pieces), CLIENT_BUF);
    }
  }
}
