/**
 * The FakeTLS hellos (faketls.rs): the ClientHello an outgoing connection signs
 * with its proxy secret, the parser that authenticates one, and the ServerHello
 * flight sent in answer.
 */
module Hello {
  import opened Wrappers
  import opened Bytes
  import opened Crypto
  import opened Records

  const DIGEST_POS: nat := 11
  const DIGEST_LEN: nat := 32

  const CIPHER_SUITES: Bytes := [
    0x13, 0x01, 0x13, 0x02, 0x13, 0x03,
    0xc0, 0x2b, 0xc0, 0x2f, 0xc0, 0x2c, 0xc0, 0x30,
    0xcc, 0xa9, 0xcc, 0xa8,
    0xc0, 0x13, 0xc0, 0x14,
    0x00, 0x9c, 0x00, 0x9d, 0x00, 0x2f, 0x00, 0x35, 0x00, 0x0a]

  const MASTER_SECRET_EXT: Bytes := [0x00, 0x17] + Be16(0) + []
  const RENEGOTIATION_EXT: Bytes := [0xff, 0x01] + Be16(1) + [0x00]
  const GROUPS_EXT: Bytes := [0x00, 0x0a] + Be16(10) + [0x00, 0x08, 0x00, 0x1d, 0x00, 0x17, 0x00, 0x18, 0x00, 0x19]
  const POINT_FORMATS_EXT: Bytes := [0x00, 0x0b] + Be16(2) + [0x01, 0x00]
  const TICKET_EXT: Bytes := [0x00, 0x23] + Be16(0) + []
  const SIGNATURES_EXT: Bytes := [0x00, 0x0d] + Be16(20) + [
    0x00, 0x12, 0x04, 0x03, 0x08, 0x04, 0x04, 0x01, 0x05, 0x03, 0x08, 0x05, 0x05, 0x01,
    0x08, 0x06, 0x06, 0x01, 0x02, 0x01]

  const FIXED_EXTENSIONS: Bytes :=
    MASTER_SECRET_EXT + (RENEGOTIATION_EXT + (GROUPS_EXT + (POINT_FORMATS_EXT + (TICKET_EXT + SIGNATURES_EXT))))

  /** The longest host name whose hello still fits its record length field. */
  const MAX_HOSTNAME: nat := 65360

  // ----------------------------------------------------------- ClientHello

  /** The server_name extension; its `u16` sums wrap as release arithmetic does. */
  function SniExtension(host: Bytes): Bytes
  {
    var hostLen := |host| % 65536;
    var listLen := (3 + hostLen) % 65536;
    var dataLen := (2 + listLen) % 65536;
    [0x00, 0x00] + Be16(dataLen) + Be16(listLen) + [0x00] + Be16(hostLen) + host
  }

  function SniDataLen(host: Bytes): nat
  {
    (2 + (3 + |host| % 65536) % 65536) % 65536
  }

  function ExtensionsLen(host: Bytes): nat { 4 + SniDataLen(host) + 57 }

  function HelloLen(host: Bytes): nat { 2 + 32 + 1 + 32 + 2 + 32 + 2 + 2 + ExtensionsLen(host) }

  /** Everything in front of the `random` field: record header, handshake header, version. */
  function HelloHead(host: Bytes): (r: Bytes)
    ensures |r| == DIGEST_POS
  {
    [HANDSHAKE, 0x03, 0x01] + Be16(4 + HelloLen(host)) + [0x01] + Be24(HelloLen(host)) + [0x03, 0x03]
  }

  function HelloFields(sid: Bytes): Bytes
  {
    [(|sid| % 256) as byte] + sid + Be16(32) + CIPHER_SUITES + [0x01, 0x00]
  }

  function HelloTail(host: Bytes, sid: Bytes): Bytes
  {
    HelloFields(sid) + Be16(ExtensionsLen(host)) + (SniExtension(host) + FIXED_EXTENSIONS)
  }

  function HelloRecord(host: Bytes, sid: Bytes, random: Bytes): Bytes
  {
    HelloHead(host) + random + HelloTail(host, sid)
  }

  /** `build_faketls_client_hello`; `sid` is the random session id it draws. */
  method BuildClientHello(host: Bytes, sid: Bytes) returns (record: Bytes)
    requires |sid| == 32
    ensures record == HelloRecord(host, sid, Zeros(32))
  {
    var hostLen := |host| % 65536;
    var sniListLen := (3 + hostLen) % 65536;
    var sniDataLen := (2 + sniListLen) % 65536;
    var extensionsLen := 4 + sniDataLen + |FIXED_EXTENSIONS|;
    var helloLen := 2 + 32 + 1 + 32 + 2 + |CIPHER_SUITES| + 2 + 2 + extensionsLen;
    var handshakeLen := 4 + helloLen;

    record := [HANDSHAKE];
    record := record + [0x03, 0x01];
    record := record + Be16(handshakeLen);
    record := record + [0x01];
    record := record + Be24(helloLen);
    record := record + [0x03, 0x03];
    assert record == HelloHead(host);
    record := record + Zeros(32);
    var fields: Bytes := [|sid| as byte];
    fields := fields + sid;
    fields := fields + Be16(|CIPHER_SUITES|);
    fields := fields + CIPHER_SUITES;
    fields := fields + [0x01, 0x00];
    assert fields == HelloFields(sid);
    var sni: Bytes := [0x00, 0x00];
    sni := sni + Be16(sniDataLen);
    sni := sni + Be16(sniListLen);
    sni := sni + [0x00];
    sni := sni + Be16(hostLen);
    sni := sni + host;
    record := record + (fields + Be16(extensionsLen) + (sni + FIXED_EXTENSIONS));
  }

  function Zeroed(record: Bytes): (r: Bytes)
    requires |record| >= DIGEST_POS + DIGEST_LEN
    ensures |r| == |record|
  {
    record[..DIGEST_POS] + Zeros(DIGEST_LEN) + record[DIGEST_POS + DIGEST_LEN..]
  }

  /** The `random` field: the MAC, its last four octets masked with the timestamp. */
  function SignedRandom(mac: Key, timestamp: nat): (r: Bytes)
    requires timestamp < 0x1_0000_0000
    ensures |r| == 32
  {
    mac[..28] + seq(4, i requires 0 <= i < 4 => Xor(mac[28 + i], Le32(timestamp)[i]))
  }

  /** `sign_faketls_client_hello`; the clock reading is an input. */
  method SignClientHello(p: Primitives, record: array<byte>, secret: Bytes, timestamp: nat)
    requires record.Length >= DIGEST_POS + DIGEST_LEN && timestamp < 0x1_0000_0000
    modifies record
    ensures record[..] == old(record[..DIGEST_POS])
      + SignedRandom(p.hmac(secret, Zeroed(old(record[..]))), timestamp)
      + old(record[DIGEST_POS + DIGEST_LEN..])
  {
    ghost var was := record[..];
    forall i | DIGEST_POS <= i < DIGEST_POS + DIGEST_LEN {
      record[i] := 0;
    }
    assert record[..] == Zeroed(was);
    var computed := p.hmac(secret, record[..]);
    forall i | 0 <= i < 28 {
      record[DIGEST_POS + i] := computed[i];
    }
    var stamp := Le32(timestamp);
    for i := 0 to 4
      invariant record[..DIGEST_POS] == was[..DIGEST_POS]
      invariant record[DIGEST_POS + DIGEST_LEN..] == was[DIGEST_POS + DIGEST_LEN..]
      invariant forall k :: 0 <= k < 28 ==> record[DIGEST_POS + k] == computed[k]
      invariant forall k :: 0 <= k < i ==> record[DIGEST_POS + 28 + k] == Xor(computed[28 + k], stamp[k])
    {
      record[DIGEST_POS + 28 + i] := Xor(computed[28 + i], stamp[i]);
    }
    var random := SignedRandom(computed, timestamp);
    assert record[DIGEST_POS..DIGEST_POS + DIGEST_LEN] == random;
    assert record[..] == record[..DIGEST_POS] + record[DIGEST_POS..DIGEST_POS + DIGEST_LEN]
      + record[DIGEST_POS + DIGEST_LEN..];
  }

  datatype ClientHello = ClientHello(random: Bytes, sessionId: Bytes, cipherSuite: Bytes, hostname: Option<Bytes>)

  /** The MAC part of `random` matches, whatever timestamp masks the rest. */
  predicate Authentic(p: Primitives, record: Bytes, secret: Bytes)
    requires |record| >= DIGEST_POS + DIGEST_LEN
  {
    record[DIGEST_POS..DIGEST_POS + 28] == p.hmac(secret, Zeroed(record))[..28]
  }

  /** The host name of the first usable server_name extension. */
  function SniOf(p: Primitives, ext: Bytes): Option<Bytes>
    decreases |ext|
  {
    if |ext| < 4 then None
    else
      var len := FromBe16(ext[2], ext[3]);
      if |ext| - 4 < len then None
      else if FromBe16(ext[0], ext[1]) != 0 || len < 5 then SniOf(p, ext[4 + len..])
      else SniHost(p, ext[4..4 + len])
  }

  function SniHost(p: Primitives, e: Bytes): Option<Bytes>
    requires |e| >= 5
  {
    var listLen := FromBe16(e[0], e[1]);
    if |e| < 2 + listLen || listLen < 3 || e[2] != 0 then None
    else
      var hostLen := FromBe16(e[3], e[4]);
      if |e| < 5 + hostLen || !p.utf8(e[5..5 + hostLen]) then None else Some(e[5..5 + hostLen])
  }

  /** `parse_sni_extension`. */
  method ParseSni(p: Primitives, extensions: Bytes) returns (host: Option<Bytes>)
    ensures host == SniOf(p, extensions)
  {
    var rest := extensions;
    while |rest| >= 4
      invariant SniOf(p, rest) == SniOf(p, extensions)
      decreases |rest|
    {
      var extType := FromBe16(rest[0], rest[1]);
      var extLen := FromBe16(rest[2], rest[3]);
      var after := rest[4..];
      if |after| < extLen {
        return None;
      }
      var ext := after[..extLen];
      assert ext == rest[4..4 + extLen] && after[extLen..] == rest[4 + extLen..];
      rest := after[extLen..];
      if extType != 0 || |ext| < 5 {
        continue;
      }
      var listLen := FromBe16(ext[0], ext[1]);
      if |ext| < 2 + listLen || listLen < 3 || ext[2] != 0 {
        return None;
      }
      var hostLen := FromBe16(ext[3], ext[4]);
      if |ext| < 5 + hostLen {
        return None;
      }
      return if p.utf8(ext[5..5 + hostLen]) then Some(ext[5..5 + hostLen]) else None;
    }
    return None;
  }

  /** The framing of a ClientHello record: both outer lengths are exact. */
  predicate Framed(record: Bytes)
  {
    && |record| >= 47
    && record[0] == HANDSHAKE
    && |record| == 5 + LengthField(record)
    && record[5] == 0x01
    && |record| == 9 + FromBe24(record[6], record[7], record[8])
  }

  /** The fields after `random`; `body` starts at the ClientHello version. */
  function BodyOf(p: Primitives, random: Bytes, body: Bytes): Option<ClientHello>
  {
    if |body| < 35 then None
    else
      var sidLen := body[34] as nat;
      var end := 35 + sidLen;
      if |body| < end + 2 then None
      else
        var suites := FromBe16(body[end], body[end + 1]);
        if suites < 2 || |body| < end + 2 + suites + 1 then None
        else
          var compression := body[end + 2 + suites] as nat;
          var at := end + 2 + suites + 1 + compression;
          if |body| < at + 2 then None
          else
            var extLen := FromBe16(body[at], body[at + 1]);
            if |body| < at + 2 + extLen then None
            else Some(ClientHello(random, body[35..end], [body[end + 2], body[end + 3]],
                                  SniOf(p, body[at + 2..at + 2 + extLen])))
  }

  method ParseBody(p: Primitives, random: Bytes, body: Bytes) returns (r: Option<ClientHello>)
    ensures r == BodyOf(p, random, body)
  {
    if |body| < 2 + 32 + 1 {
      return None;
    }
    var sidLen := body[34] as nat;
    var end := 35 + sidLen;
    if |body| < end + 2 {
      return None;
    }
    var sessionId := body[35..end];
    var suites := FromBe16(body[end], body[end + 1]);
    if suites < 2 || |body| < end + 2 + suites + 1 {
      return None;
    }
    var cipherSuite: Bytes := [body[end + 2], body[end + 3]];
    var at := end + 2 + suites;
    var compression := body[at] as nat;
    at := at + 1 + compression;
    if |body| < at + 2 {
      return None;
    }
    var extLen := FromBe16(body[at], body[at + 1]);
    at := at + 2;
    if |body| < at + extLen {
      return None;
    }
    var hostname := ParseSni(p, body[at..at + extLen]);
    return Some(ClientHello(random, sessionId, cipherSuite, hostname));
  }

  function HelloOf(p: Primitives, record: Bytes, secret: Bytes): Option<ClientHello>
  {
    if Framed(record) && Authentic(p, record, secret)
    then BodyOf(p, record[DIGEST_POS..DIGEST_POS + DIGEST_LEN], record[9..])
    else None
  }

  /** Compares the MAC by exclusive-or, octet by octet. */
  method MacMatches(computed: Key, random: Bytes) returns (ok: bool)
    requires |random| == 32
    ensures ok <==> random[..28] == computed[..28]
  {
    var xored := new byte[32](_ => 0);
    for i := 0 to 32
      invariant forall k :: 0 <= k < i ==> xored[k] == Xor(computed[k], random[k])
    {
      xored[i] := Xor(computed[i], random[i]);
    }
    var diff := xored[..];
    ok := true;
    for i := 0 to 28
      invariant ok <==> random[..i] == computed[..i]
    {
      XorZero(computed[i], random[i]);
      PrefixEqual(random, computed, i);
      if diff[i] != 0 {
        ok := false;
      }
    }
  }

  /** `parse_faketls_client_hello`. */
  method ParseClientHello(p: Primitives, record: Bytes, secret: Bytes) returns (r: Option<ClientHello>)
    ensures r == HelloOf(p, record, secret)
  {
    if |record| < 5 + 4 + 6 + DIGEST_LEN || record[0] != HANDSHAKE {
      return None;
    }
    if |record| != 5 + FromBe16(record[3], record[4]) {
      return None;
    }
    if record[5] != 0x01 || |record| - 5 != 4 + FromBe24(record[6], record[7], record[8]) {
      return None;
    }
    var random := record[DIGEST_POS..DIGEST_POS + DIGEST_LEN];
    assert random[..28] == record[DIGEST_POS..DIGEST_POS + 28];
    var ok := MacMatches(p.hmac(secret, Zeroed(record)), random);
    if !ok {
      return None;
    }
    r := ParseBody(p, random, record[9..]);
  }

  /** The record an outgoing connection sends. */
  function SignedHello(p: Primitives, host: Bytes, sid: Bytes, secret: Bytes, timestamp: nat): Bytes
    requires timestamp < 0x1_0000_0000
  {
    HelloRecord(host, sid, HelloRandom(p, host, sid, secret, timestamp))
  }

  function HelloRandom(p: Primitives, host: Bytes, sid: Bytes, secret: Bytes, timestamp: nat): (r: Bytes)
    requires timestamp < 0x1_0000_0000
    ensures |r| == 32
  {
    SignedRandom(p.hmac(secret, HelloRecord(host, sid, Zeros(32))), timestamp)
  }

  lemma TailLength(host: Bytes, sid: Bytes)
    requires |sid| == 32
    ensures |HelloTail(host, sid)| == 69 + 2 + 9 + |host| + 57
  {
  }

  /** Outside `random` the signed record is the built one, so its MAC verifies. */
  lemma SignedIsAuthentic(p: Primitives, host: Bytes, sid: Bytes, secret: Bytes, timestamp: nat)
    requires timestamp < 0x1_0000_0000 && |sid| == 32
    ensures var record := SignedHello(p, host, sid, secret, timestamp);
      && |record| >= DIGEST_POS + DIGEST_LEN && Authentic(p, record, secret)
      && record[DIGEST_POS..DIGEST_POS + DIGEST_LEN] == HelloRandom(p, host, sid, secret, timestamp)
  {
    var random := HelloRandom(p, host, sid, secret, timestamp);
    var head, tail := HelloHead(host), HelloTail(host, sid);
    var record := SignedHello(p, host, sid, secret, timestamp);
    assert record[..DIGEST_POS] == head && record[DIGEST_POS + DIGEST_LEN..] == tail;
    assert Zeroed(record) == HelloRecord(host, sid, Zeros(32));
    assert record[DIGEST_POS..DIGEST_POS + DIGEST_LEN] == random;
    assert record[DIGEST_POS..DIGEST_POS + 28] == random[..28];
  }

  /**
   * What a server checks, on the octets alone: with 11 to 42 taken as zero, the
   * record's MAC begins with octets 11 to 38; the last four of it, undone from 39
   * to 42, are the clock, least significant octet first.
   */
  ghost predicate ServerAccepts(p: Primitives, secret: Bytes, record: Bytes, timestamp: nat)
  {
    && |record| >= 43
    && var mac := p.hmac(secret, record[..11] + Zeros(32) + record[43..]);
       && record[11..39] == mac[..28]
       && Xor(record[39], mac[28]) as nat + 256 * (Xor(record[40], mac[29]) as nat)
          + 65536 * (Xor(record[41], mac[30]) as nat) + 16777216 * (Xor(record[42], mac[31]) as nat) == timestamp
  }

  /** Every signed hello passes that check. */
  lemma SignedIsAccepted(p: Primitives, host: Bytes, sid: Bytes, secret: Bytes, timestamp: nat)
    requires timestamp < 0x1_0000_0000 && |sid| == 32
    ensures ServerAccepts(p, secret, SignedHello(p, host, sid, secret, timestamp), timestamp)
  {
    var zeroed := HelloRecord(host, sid, Zeros(32));
    var mac, stamp := p.hmac(secret, zeroed), Le32(timestamp);
    var random := SignedRandom(mac, timestamp);
    var record := SignedHello(p, host, sid, secret, timestamp);
    Cut3(HelloHead(host), random, HelloTail(host, sid));
    assert record[..11] + Zeros(32) + record[43..] == zeroed;
    forall i | 0 <= i < 4
      ensures Xor(record[39 + i], mac[28 + i]) == stamp[i]
    {
      assert record[39 + i] == random[28 + i] == Xor(mac[28 + i], stamp[i]);
      XorInvolution(mac[28 + i], stamp[i]);
      XorInvolution(stamp[i], mac[28 + i]);
    }
    assert record[11..39] == random[..28] == mac[..28];
    LeastSignificantFirst(timestamp, 0);
  }

  /** And whatever the parser accepts carries that MAC, and is one whole record with one whole ClientHello. */
  lemma AcceptedIsSigned(p: Primitives, record: Bytes, secret: Bytes)
    ensures HelloOf(p, record, secret).Some? ==>
      && |record| >= 43 && record[11..39] == p.hmac(secret, record[..11] + Zeros(32) + record[43..])[..28]
      && HelloOf(p, record, secret).value.random == record[11..43]
      && record[0] == 22 && 256 * (record[3] as nat) + record[4] as nat == |record| - 5
      && record[5] == 1
      && 65536 * (record[6] as nat) + 256 * (record[7] as nat) + record[8] as nat == |record| - 9
  {
  }

  lemma HeadOctets(host: Bytes)
    ensures var h, n := HelloHead(host), HelloLen(host);
      && h[..3] == [22, 3, 1] && h[5] == 0x01 && h[9] == 0x03 && h[10] == 0x03
      && [h[3], h[4]] == Be16(4 + n) && [h[6], h[7], h[8]] == Be24(n)
  {
    var n := HelloLen(host);
    assert HelloHead(host) == [HANDSHAKE, 0x03, 0x01, Be16(4 + n)[0], Be16(4 + n)[1], 0x01,
                               Be24(n)[0], Be24(n)[1], Be24(n)[2], 0x03, 0x03];
  }

  lemma FramedLengths(n: nat, actual: nat)
    ensures FromBe16(Be16(n)[0], Be16(n)[1]) == n % 65536
    ensures n < 16777216 ==> FromBe24(Be24(n)[0], Be24(n)[1], Be24(n)[2]) == n
  {
  }

  lemma HelloIsFramed(host: Bytes, sid: Bytes, random: Bytes)
    requires |sid| == 32 && |random| == 32
    ensures |HelloRecord(host, sid, random)| == 180 + |host|
    ensures Framed(HelloRecord(host, sid, random)) <==> |host| <= MAX_HOSTNAME
    ensures |host| <= MAX_HOSTNAME ==> HelloLen(host) == 171 + |host|
  {
    TailLength(host, sid);
    FramedRecord(host, random + HelloTail(host, sid));
    Cut3(HelloHead(host), random, HelloTail(host, sid));
  }

  lemma FramedRecord(host: Bytes, rest: Bytes)
    requires |rest| == 169 + |host|
    ensures Framed(HelloHead(host) + rest) <==> |host| <= MAX_HOSTNAME
    ensures |host| <= MAX_HOSTNAME ==> HelloLen(host) == 171 + |host|
  {
    HeadOctets(host);
    FramedLengths(4 + HelloLen(host), 0);
    FramedLengths(HelloLen(host), 0);
    SniLengthBound(host);
    HeadSays(HelloHead(host), rest, HelloLen(host));
  }

  lemma SniLengthBound(host: Bytes)
    ensures HelloLen(host) < 16777216
    ensures |host| <= MAX_HOSTNAME ==> SniDataLen(host) == 5 + |host|
  {
  }

  /** What the octets of a head `h` announcing `n` say about a record. */
  lemma HeadSays(h: Bytes, rest: Bytes, n: nat)
    requires |h| == 11 && |rest| >= 169 && h[0] == HANDSHAKE && h[5] == 0x01
    requires FromBe16(h[3], h[4]) == (4 + n) % 65536 && FromBe24(h[6], h[7], h[8]) == n
    ensures Framed(h + rest) <==> |rest| + 6 == (4 + n) % 65536 && |rest| + 2 == n
  {
    var record := h + rest;
    assert record[0] == h[0] && record[3] == h[3] && record[4] == h[4] && record[5] == h[5];
    assert record[6] == h[6] && record[7] == h[7] && record[8] == h[8];
  }

  /** The server_name extension of a host name that fits, as type, length and data. */
  function SniData(host: Bytes): Bytes
  {
    Be16(3 + |host|) + [0x00] + Be16(|host|) + host
  }

  lemma SniExtensionShape(host: Bytes)
    requires |host| <= MAX_HOSTNAME
    ensures |SniData(host)| == 5 + |host|
    ensures SniExtension(host) == [0x00, 0x00] + Be16(|SniData(host)|) + SniData(host)
    ensures |SniExtension(host)| == 9 + |host|
  {
    var h := |host|;
    Unwrapped(h);
    assert |SniData(host)| == 5 + h;
    Regroup4([0x00, 0x00] + Be16(5 + h), Be16(3 + h), [0x00], Be16(h), host);
  }

  lemma Unwrapped(h: nat)
    requires h <= MAX_HOSTNAME
    ensures h % 65536 == h && (3 + h) % 65536 == 3 + h && (2 + (3 + h)) % 65536 == 5 + h
  {
  }

  lemma Regroup4(a: Bytes, b: Bytes, c: Bytes, d: Bytes, e: Bytes)
    ensures a + b + c + d + e == a + (b + c + d + e)
  {
  }

  lemma SniHostOfData(p: Primitives, host: Bytes)
    requires |host| <= MAX_HOSTNAME && p.utf8(host)
    ensures |SniData(host)| >= 5 && SniHost(p, SniData(host)) == Some(host)
  {
    var five: Bytes := Be16(3 + |host|) + [0x00] + Be16(|host|);
    FiveOctets(|host|, five);
    FramedLengths(3 + |host|, 0);
    FramedLengths(|host|, 0);
    HostAfterFive(p, five, host);
  }

  lemma FiveOctets(h: nat, five: Bytes)
    requires five == Be16(3 + h) + [0x00] + Be16(h)
    ensures five == [Be16(3 + h)[0], Be16(3 + h)[1], 0x00, Be16(h)[0], Be16(h)[1]]
  {
  }

  lemma HostAfterFive(p: Primitives, five: Bytes, host: Bytes)
    requires |five| == 5 && FromBe16(five[0], five[1]) == 3 + |host| && five[2] == 0
    requires FromBe16(five[3], five[4]) == |host| && p.utf8(host)
    ensures SniHost(p, five + host) == Some(host)
  {
    var e := five + host;
    assert e[0] == five[0] && e[1] == five[1] && e[2] == five[2] && e[3] == five[3] && e[4] == five[4];
    assert e[5..5 + |host|] == host;
  }

  /** An extension in front of others, as the readers see it. */
  lemma ExtensionAtFront(kind: Bytes, data: Bytes, rest: Bytes)
    requires |kind| == 2 && |data| < 65536
    ensures var s := kind + Be16(|data|) + data + rest;
      && |s| == 4 + |data| + |rest|
      && s[0] == kind[0] && s[1] == kind[1] && FromBe16(s[2], s[3]) == |data|
      && s[4..4 + |data|] == data && s[4 + |data|..] == rest
  {
    var n := |data|;
    var head: Bytes := kind + Be16(n);
    assert head == [kind[0], kind[1], Be16(n)[0], Be16(n)[1]];
    Cut3([], head, data + rest);
    Cut3(head, data, rest);
    assert [] + head + (data + rest) == head + data + rest;
    FramedLengths(n, 0);
    assert FromBe16(head[2], head[3]) == n;
  }

  lemma SniOfBuilt(p: Primitives, host: Bytes)
    requires |host| <= MAX_HOSTNAME && p.utf8(host)
    ensures SniOf(p, SniExtension(host) + FIXED_EXTENSIONS) == Some(host)
  {
    SniExtensionShape(host);
    ExtensionAtFront([0x00, 0x00], SniData(host), FIXED_EXTENSIONS);
    SniHostOfData(p, host);
  }

  /** The fixed-size fields between session id length and extensions length. */
  lemma FieldOctets(sid: Bytes, suites: Bytes, f: Bytes)
    requires |sid| == 32 && |suites| == 32 && f == [32] + sid + Be16(32) + suites + [0x01, 0x00]
    ensures |f| == 69 && f[0] == 32 && f[1..33] == sid
    ensures FromBe16(f[33], f[34]) == 32 && [f[35], f[36]] == suites[..2] && f[67] == 1
  {
    Cut3([32] + sid, Be16(32), suites + [0x01, 0x00]);
    assert f == ([32] + sid) + Be16(32) + (suites + [0x01, 0x00]);
    assert f[33] == Be16(32)[0] && f[34] == Be16(32)[1];
    assert f[35..] == suites + [0x01, 0x00];
    assert f[35] == f[35..][0] && f[36] == f[35..][1] && f[67] == f[35..][32];
  }

  /** Octets of `f` and `lens` seen through everything in front of them. */
  lemma Layout(pre: Bytes, f: Bytes, lens: Bytes, exts: Bytes)
    requires |f| == 69 && |lens| == 2
    ensures var s, n := pre + (f + lens + exts), |pre|;
      && |s| == n + 71 + |exts|
      && (forall i :: 0 <= i < 69 ==> s[n + i] == f[i])
      && s[n + 1..n + 33] == f[1..33]
      && s[n + 69] == lens[0] && s[n + 70] == lens[1] && s[n + 71..] == exts
  {
    var s, n := pre + (f + lens + exts), |pre|;
    assert s[n..] == f + lens + exts;
    assert forall i :: 0 <= i < 71 ==> s[n + i] == s[n..][i];
    assert s[n + 71..] == s[n..][71..];
  }

  lemma CipherSuitesLength()
    ensures |CIPHER_SUITES| == 32 && CIPHER_SUITES[..2] == [0x13, 0x01]
  {
  }

  lemma FixedLength()
    ensures |FIXED_EXTENSIONS| == 57
  {
  }

  /** `pre` stands for the octets up to and including `random`. */
  lemma TailOctets(pre: Bytes, host: Bytes, sid: Bytes, suites: Bytes, f: Bytes, exts: Bytes)
    requires |host| <= MAX_HOSTNAME && |sid| == 32 && |suites| == 32
    requires f == [32] + sid + Be16(32) + suites + [0x01, 0x00]
    requires |exts| == 66 + |host|
    ensures var s, n := pre + (f + Be16(66 + |host|) + exts), |pre|;
      && |s| == n + 137 + |host|
      && s[n] == 32 && s[n + 1..n + 33] == sid
      && FromBe16(s[n + 33], s[n + 34]) == 32 && [s[n + 35], s[n + 36]] == suites[..2] && s[n + 67] == 1
      && FromBe16(s[n + 69], s[n + 70]) == 66 + |host|
      && s[n + 71..] == exts
  {
    FieldOctets(sid, suites, f);
    Layout(pre, f, Be16(66 + |host|), exts);
    FramedLengths(66 + |host|, 0);
  }

  /** The pieces of the tail of a hello that fits. */
  lemma TailPieces(host: Bytes, sid: Bytes)
    requires |host| <= MAX_HOSTNAME && |sid| == 32
    ensures HelloFields(sid) == [32] + sid + Be16(32) + CIPHER_SUITES + [0x01, 0x00]
    ensures |SniExtension(host) + FIXED_EXTENSIONS| == 66 + |host|
    ensures HelloTail(host, sid) == HelloFields(sid) + Be16(66 + |host|) + (SniExtension(host) + FIXED_EXTENSIONS)
  {
    SniExtensionShape(host);
    FixedLength();
    SniLengthBound(host);
    JoinLength(SniExtension(host), FIXED_EXTENSIONS);
  }

  lemma JoinLength(a: Bytes, b: Bytes)
    ensures |a + b| == |a| + |b|
  {
  }

  lemma BodyOfBuilt(p: Primitives, host: Bytes, sid: Bytes, random: Bytes)
    requires |host| <= MAX_HOSTNAME && p.utf8(host) && |sid| == 32 && |random| == 32
    ensures BodyOf(p, random, [0x03, 0x03] + random + HelloTail(host, sid))
      == Some(ClientHello(random, sid, [0x13, 0x01], Some(host)))
  {
    var pre: Bytes := [0x03, 0x03] + random;
    var body := pre + HelloTail(host, sid);
    var exts := SniExtension(host) + FIXED_EXTENSIONS;
    TailPieces(host, sid);
    CipherSuitesLength();
    TailOctets(pre, host, sid, CIPHER_SUITES, HelloFields(sid), exts);
    SniOfBuilt(p, host);
    BodyReads(p, random, body, sid, 66 + |host|);
  }

  /** A body whose fields sit where `BodyOf` looks for them. */
  lemma BodyReads(p: Primitives, random: Bytes, body: Bytes, sid: Bytes, extLen: nat)
    requires |body| == 105 + extLen && body[34] == 32 && body[35..67] == sid
    requires FromBe16(body[67], body[68]) == 32 && body[101] == 1 && FromBe16(body[103], body[104]) == extLen
    ensures BodyOf(p, random, body) == Some(ClientHello(random, sid, [body[69], body[70]], SniOf(p, body[105..])))
  {
    assert body[105..105 + extLen] == body[105..];
  }

  /**
   * ClientHello round trip. For every secret, timestamp and session id the
   * parser accepts the signed hello and returns its fields, exactly when the
   * host name has at most 65360 octets; a longer one overflows the record
   * length and is rejected.
   */
  lemma ClientHelloRoundTrip(p: Primitives, host: Bytes, sid: Bytes, secret: Bytes, timestamp: nat)
    requires timestamp < 0x1_0000_0000 && |sid| == 32 && p.utf8(host)
    ensures var record := SignedHello(p, host, sid, secret, timestamp);
      HelloOf(p, record, secret) ==
        if |host| <= MAX_HOSTNAME
        then Some(ClientHello(HelloRandom(p, host, sid, secret, timestamp), sid, [0x13, 0x01], Some(host)))
        else None
  {
    var random := HelloRandom(p, host, sid, secret, timestamp);
    var record := SignedHello(p, host, sid, secret, timestamp);
    SignedIsAuthentic(p, host, sid, secret, timestamp);
    HelloIsFramed(host, sid, random);
    if |host| <= MAX_HOSTNAME {
      var head := HelloHead(host);
      assert head[9..] == [0x03, 0x03];
      assert record[9..] == [0x03, 0x03] + random + HelloTail(host, sid);
      BodyOfBuilt(p, host, sid, random);
    }
  }

  /** A sequence of extensions, each exactly as long as it says. */
  predicate Tiles(ext: Bytes)
    decreases |ext|
  {
    ext == [] || (|ext| >= 4 && |ext| >= 4 + FromBe16(ext[2], ext[3]) && Tiles(ext[4 + FromBe16(ext[2], ext[3])..]))
  }

  lemma TilesCons(kind: Bytes, data: Bytes, rest: Bytes)
    requires |kind| == 2 && |data| < 65536 && Tiles(rest)
    ensures Tiles(kind + Be16(|data|) + data + rest)
  {
    ExtensionAtFront(kind, data, rest);
  }

  /** Every nested length of the built hello equals what follows it (RFC 5246, section 7.4.1.2; RFC 6066, section 3). */
  lemma ClientHelloLengths(host: Bytes, sid: Bytes, random: Bytes)
    requires |host| <= MAX_HOSTNAME && |sid| == 32 && |random| == 32
    ensures var record := HelloRecord(host, sid, random);
      && |record| == 180 + |host| && record[..3] == [22, 3, 1] && record[5] == 1 && record[9] == 3 && record[10] == 3
      && LengthField(record) == |record| - 5
      && FromBe24(record[6], record[7], record[8]) == |record| - 9
      && record[43] as nat == |sid| && FromBe16(record[76], record[77]) == |CIPHER_SUITES|
      && FromBe16(record[112], record[113]) == |record| - 114
      && Tiles(record[114..])
  {
    HelloIsFramed(host, sid, random);
    HeadOctets(host);
    StartsAlike(HelloHead(host), random + HelloTail(host, sid), HelloRecord(host, sid, random));
    TailPieces(host, sid);
    CipherSuitesLength();
    TailOctets(HelloHead(host) + random, host, sid, CIPHER_SUITES, HelloFields(sid),
      SniExtension(host) + FIXED_EXTENSIONS);
    FixedExtensionsTile();
    SniExtensionShape(host);
    TilesCons([0x00, 0x00], SniData(host), FIXED_EXTENSIONS);
  }

  lemma StartsAlike(head: Bytes, rest: Bytes, record: Bytes)
    requires |head| == 11 && record == head + rest
    ensures record[..3] == head[..3] && forall i :: 0 <= i < 11 ==> record[i] == head[i]
  {
  }

  lemma FixedExtensionsTile()
    ensures Tiles(FIXED_EXTENSIONS)
  {
    assert Tiles([]);
    var s5 := SIGNATURES_EXT;
    TilesCons([0x00, 0x0d], SIGNATURES_EXT[4..], []);
    assert s5 == [0x00, 0x0d] + Be16(20) + SIGNATURES_EXT[4..] + [];
    var s4 := TICKET_EXT + s5;
    TilesCons([0x00, 0x23], [], s5);
    var s3 := POINT_FORMATS_EXT + s4;
    TilesCons([0x00, 0x0b], [0x01, 0x00], s4);
    var s2 := GROUPS_EXT + s3;
    TilesCons([0x00, 0x0a], [0x00, 0x08, 0x00, 0x1d, 0x00, 0x17, 0x00, 0x18, 0x00, 0x19], s3);
    var s1 := RENEGOTIATION_EXT + s2;
    TilesCons([0xff, 0x01], [0x00], s2);
    TilesCons([0x00, 0x17], [], s1);
  }

  // ----------------------------------------------------------- ServerHello

  const VERSIONS_EXT: Bytes := [0x00, 0x2b] + Be16(2) + [0x03, 0x04]
  const KEY_SHARE_HEAD: Bytes := [0x00, 0x33] + Be16(36) + [0x00, 0x1d, 0x00, 0x20]

  /** Compression, extensions length, and the extensions up to the key share itself. */
  const SERVER_EXTENSIONS: Bytes := [0x00] + Be16(46) + (VERSIONS_EXT + KEY_SHARE_HEAD)

  /** Type, length and version of a ServerHello whose session id has `n` octets. */
  function MessageHead(n: nat): (r: Bytes)
    ensures |r| == 6
  {
    [0x02] + Be24(86 + n) + [0x03, 0x03]
  }

  /** Everything after the `random` field. */
  function MessageTail(hello: ClientHello, keyShare: Bytes): Bytes
  {
    [(|hello.sessionId| % 256) as byte] + hello.sessionId + hello.cipherSuite + (SERVER_EXTENSIONS + keyShare)
  }

  /** The handshake message of the ServerHello, with `random` in place. */
  function ServerHelloMessage(hello: ClientHello, random: Bytes, keyShare: Bytes): Bytes
  {
    MessageHead(|hello.sessionId|) + random + MessageTail(hello, keyShare)
  }

  /** The whole flight: ServerHello, ChangeCipherSpec, and the fake certificate. */
  function ServerFlight(hello: ClientHello, random: Bytes, keyShare: Bytes, cert: Bytes): seq<Record>
  {
    [ Record(HANDSHAKE, (3, 3), ServerHelloMessage(hello, random, keyShare)),
      Record(CHANGE_CIPHER_SPEC, (3, 3), [1]),
      AppRecord(cert) ]
  }

  function PushHeader(out: Bytes, kind: byte, payloadLen: nat): Bytes
  {
    out + [kind] + [0x03, 0x03] + Be16(payloadLen)
  }

  /** A hello as the parser returns it: lengths fit their octets. */
  predicate FromParser(hello: ClientHello)
  {
    |hello.random| == 32 && |hello.sessionId| < 256 && |hello.cipherSuite| == 2
  }

  lemma ParserGivesFromParser(p: Primitives, record: Bytes, secret: Bytes)
    ensures HelloOf(p, record, secret).Some? ==> FromParser(HelloOf(p, record, secret).value)
  {
  }

  /** The digest over client random and packet that goes into the server `random`. */
  function ServerRandom(p: Primitives, secret: Bytes, hello: ClientHello, keyShare: Bytes, cert: Bytes): Key
  {
    p.hmac(secret, hello.random + Encode(ServerFlight(hello, Zeros(32), keyShare, cert)))
  }

  lemma EncodeFlight(a: Record, b: Record, c: Record)
    ensures Encode([a, b, c]) == Frame(a) + Frame(b) + Frame(c)
  {
    assert [a, b, c][1..] == [b, c] && [b, c][1..] == [c];
    assert Encode([c]) == Frame(c) + Encode([]);
  }

  lemma MessageLength(hello: ClientHello, random: Bytes, keyShare: Bytes)
    requires FromParser(hello) && |random| == 32 && |keyShare| == 32
    ensures |ServerHelloMessage(hello, random, keyShare)| == 90 + |hello.sessionId|
  {
  }

  /** The first eleven octets of the flight. */
  function FlightHead(hello: ClientHello): (r: Bytes)
    ensures |r| == DIGEST_POS
  {
    [HANDSHAKE, 3, 3] + Be16(90 + |hello.sessionId|) + MessageHead(|hello.sessionId|)
  }

  /** The flight as octets, split around `random`. */
  lemma FlightBytes(hello: ClientHello, random: Bytes, keyShare: Bytes, cert: Bytes)
    requires FromParser(hello) && |random| == 32 && |keyShare| == 32
    ensures var flight := ServerFlight(hello, random, keyShare, cert);
      Encode(flight) == FlightHead(hello) + random
        + (MessageTail(hello, keyShare) + (Frame(flight[1]) + Frame(flight[2])))
  {
    var flight := ServerFlight(hello, random, keyShare, cert);
    EncodeFlight(flight[0], flight[1], flight[2]);
    MessageLength(hello, random, keyShare);
    RegroupFlight([HANDSHAKE, 3, 3] + Be16(90 + |hello.sessionId|), MessageHead(|hello.sessionId|), random,
                  MessageTail(hello, keyShare), Frame(flight[1]), Frame(flight[2]));
  }

  lemma RegroupFlight(a: Bytes, b: Bytes, c: Bytes, d: Bytes, e: Bytes, f: Bytes)
    ensures a + (b + c + d) + e + f == a + b + c + (d + (e + f))
  {
  }

  /** Pushes the ServerHello record, its `random` still zero. */
  method PushServerHello(hello: ClientHello, keyShare: Bytes) returns (packet: Bytes)
    requires FromParser(hello) && |keyShare| == 32
    ensures packet == FlightHead(hello) + Zeros(32) + MessageTail(hello, keyShare)
  {
    var bodyLen := 86 + |hello.sessionId|;
    packet := PushHeader([], HANDSHAKE, 4 + bodyLen);
    packet := packet + [0x02];
    packet := packet + Be24(bodyLen);
    packet := packet + [0x03, 0x03];
    assert packet == FlightHead(hello);
    packet := packet + Zeros(32);
    var tail: Bytes := [|hello.sessionId| as byte];
    tail := tail + hello.sessionId;
    tail := tail + hello.cipherSuite;
    packet := packet + (tail + (SERVER_EXTENSIONS + keyShare));
  }

  /** Random octets of a random length pose as the encrypted certificate. */
  function FakeCertificate(fill: nat -> byte, draw: nat): (cert: Bytes)
    ensures 1024 <= |cert| < 4116
  {
    seq(1024 + draw % 3092, i requires 0 <= i < 1024 + draw % 3092 => fill(i))
  }

  /**
   * What a client checks, on the octets alone: 11 to 42 of the flight are the MAC
   * over its own random and the flight with these taken as zero, in this order.
   */
  ghost predicate ClientAccepts(p: Primitives, secret: Bytes, random: Bytes, flight: Bytes)
  {
    |flight| >= 43 && flight[11..43] == p.hmac(secret, random + (flight[..11] + Zeros(32) + flight[43..]))
  }

  lemma PatchIsAccepted(p: Primitives, secret: Bytes, random: Bytes, head: Bytes, rest: Bytes)
    requires |head| == 11
    ensures ClientAccepts(p, secret, random, head + p.hmac(secret, random + (head + Zeros(32) + rest)) + rest)
  {
    Cut3(head, p.hmac(secret, random + (head + Zeros(32) + rest)), rest);
  }

  /**
   * `build_faketls_server_hello`: pushes the three records, then patches the
   * digest over them into the `random` field. `keyShare` and `fill` are random.
   */
  method BuildServerHello(
      p: Primitives, secret: Bytes, hello: ClientHello, keyShare: Bytes, fill: nat -> byte, draw: nat)
    returns (packet: Bytes)
    requires FromParser(hello) && |keyShare| == 32
    ensures var cert := FakeCertificate(fill, draw);
      packet == Encode(ServerFlight(hello, ServerRandom(p, secret, hello, keyShare, cert), keyShare, cert))
    ensures ClientAccepts(p, secret, hello.random, packet)
  {
    var certLen := 1024 + draw % 3092;
    var certBytes: Bytes := seq(certLen, i requires 0 <= i < certLen => fill(i));
    ghost var cert := FakeCertificate(fill, draw);
    assert certBytes == cert;
    packet := PushServerHello(hello, keyShare);
    packet := PushHeader(packet, CHANGE_CIPHER_SPEC, 1);
    packet := packet + [1];
    packet := PushHeader(packet, APPLICATION_DATA, certLen);
    packet := packet + certBytes;
    ghost var tail := MessageTail(hello, keyShare);
    ghost var rest := Frame(Record(CHANGE_CIPHER_SPEC, (3, 3), [1])) + Frame(AppRecord(cert));
    Pushed(FlightHead(hello) + Zeros(32) + tail, cert);
    assert packet == FlightHead(hello) + Zeros(32) + (tail + rest);
    FlightBytes(hello, Zeros(32), keyShare, cert);

    var digest := p.hmac(secret, hello.random + packet);
    FlightBytes(hello, digest, keyShare, cert);
    Cut3(FlightHead(hello), Zeros(32), tail + rest);
    packet := packet[..DIGEST_POS] + digest + packet[DIGEST_POS + DIGEST_LEN..];
    PatchIsAccepted(p, secret, hello.random, FlightHead(hello), tail + rest);
  }

  lemma Pushed(before: Bytes, cert: Bytes)
    ensures PushHeader(PushHeader(before, CHANGE_CIPHER_SPEC, 1) + [1], APPLICATION_DATA, |cert|) + cert
      == before + (Frame(Record(CHANGE_CIPHER_SPEC, (3, 3), [1])) + Frame(AppRecord(cert)))
  {
    var ccs, app := Record(CHANGE_CIPHER_SPEC, (3, 3), [1]), AppRecord(cert);
    assert PushHeader(before, CHANGE_CIPHER_SPEC, 1) + [1] == before + Frame(ccs);
    assert PushHeader(before + Frame(ccs), APPLICATION_DATA, |cert|) + cert == (before + Frame(ccs)) + Frame(app);
  }

  /** The ServerHello's inner lengths are exact (RFC 8446, section 4.1.3). */
  lemma ServerHelloLengths(hello: ClientHello, random: Bytes, keyShare: Bytes)
    requires FromParser(hello) && |random| == 32 && |keyShare| == 32
    ensures var m, n := ServerHelloMessage(hello, random, keyShare), |hello.sessionId|;
      && |m| == 90 + n && FromBe24(m[1], m[2], m[3]) == |m| - 4
      && m[0] == 2 && m[4] == 3 && m[5] == 3 && m[6..38] == random && m[|m| - 32..] == keyShare
      && m[38] as nat == n && m[39..39 + n] == hello.sessionId && m[39 + n..41 + n] == hello.cipherSuite
      && FromBe16(m[41 + n..][1], m[41 + n..][2]) == |m| - (44 + n)
      && Tiles(m[41 + n..][3..])
  {
    var n := |hello.sessionId|;
    assert n % 256 == n;
    FramedLengths(86 + n, 0);
    MessageHeadOctets(n);
    ServerExtensionsTile(keyShare);
    MessageLayout(MessageHead(n), random, (n % 256) as byte, hello.sessionId, hello.cipherSuite,
      SERVER_EXTENSIONS + keyShare);
    EndsWith(ServerHelloMessage(hello, random, keyShare), 41 + n, SERVER_EXTENSIONS, keyShare);
  }

  lemma EndsWith(m: Bytes, at: nat, front: Bytes, end: Bytes)
    requires at <= |m| && m[at..] == front + end
    ensures m[|m| - |end|..] == end
  {
    assert m[at + |front|..] == m[at..][|front|..];
  }

  lemma MessageHeadOctets(n: nat)
    ensures var h := MessageHead(n); [h[1], h[2], h[3]] == Be24(86 + n) && h[0] == 2 && h[4] == 3 && h[5] == 3
  {
    assert MessageHead(n) == [0x02, Be24(86 + n)[0], Be24(86 + n)[1], Be24(86 + n)[2], 0x03, 0x03];
  }

  lemma MessageLayout(head: Bytes, random: Bytes, len: byte, sid: Bytes, suite: Bytes, exts: Bytes)
    requires |head| == 6 && |random| == 32 && |sid| == len as nat && |suite| == 2
    ensures var m, n := head + random + ([len] + sid + suite + exts), len as nat;
      && |m| == 41 + n + |exts|
      && (forall i :: 0 <= i < 6 ==> m[i] == head[i]) && m[6..38] == random
      && m[38] == len && m[39..39 + n] == sid && m[39 + n..41 + n] == suite && m[41 + n..] == exts
  {
    var m := head + random + ([len] + sid + suite + exts);
    var front := head + random;
    assert m == front + [len] + sid + suite + exts;
    Cut3(front + [len], sid, suite + exts);
    assert m == (front + [len]) + sid + (suite + exts);
    Cut3(front + [len] + sid, suite, exts);
  }

  lemma ServerExtensionsTile(keyShare: Bytes)
    requires |keyShare| == 32
    ensures var exts := SERVER_EXTENSIONS + keyShare;
      |exts| == 49 && FromBe16(exts[1], exts[2]) == 46 && Tiles(exts[3..])
  {
    KeyShareTiles(keyShare);
    VersionsTile(KEY_SHARE_HEAD + keyShare);
    Split3([0x00] + Be16(46), VERSIONS_EXT, KEY_SHARE_HEAD, keyShare);
    var exts := SERVER_EXTENSIONS + keyShare;
    assert exts[1] == Be16(46)[0] && exts[2] == Be16(46)[1];
    Retiled(VERSIONS_EXT + (KEY_SHARE_HEAD + keyShare), exts[3..]);
  }

  lemma Retiled(s: Bytes, t: Bytes)
    requires Tiles(s) && s == t
    ensures Tiles(t)
  {
  }

  lemma VersionsTile(rest: Bytes)
    requires Tiles(rest)
    ensures Tiles(VERSIONS_EXT + rest)
  {
    TilesCons([0x00, 0x2b], [0x03, 0x04], rest);
  }

  lemma KeyShareTiles(keyShare: Bytes)
    requires |keyShare| == 32
    ensures Tiles(KEY_SHARE_HEAD + keyShare)
  {
    var share: Bytes := [0x00, 0x1d, 0x00, 0x20] + keyShare;
    assert Tiles([]);
    TilesCons([0x00, 0x33], share, []);
    Retiled([0x00, 0x33] + Be16(36) + share + [], KEY_SHARE_HEAD + keyShare);
  }

  lemma Split3(a: Bytes, b: Bytes, c: Bytes, d: Bytes)
    requires |a| == 3
    ensures (a + (b + c) + d)[3..] == b + (c + d)
    ensures forall i :: 0 <= i < 3 ==> (a + (b + c) + d)[i] == a[i]
  {
  }

  /** Draining takes exactly the flight off the stream and leaves what comes after it. */
  lemma FlightDrainedExactly(hello: ClientHello, random: Bytes, keyShare: Bytes, cert: Bytes, rest: Bytes)
    requires FromParser(hello) && |random| == 32 && |keyShare| == 32 && 1024 <= |cert| < 1024 + 3092
    ensures Drained(Encode(ServerFlight(hello, random, keyShare, cert)) + rest, MAX_HANDSHAKE_RECORDS) == Some(rest)
  {
    var f := ServerFlight(hello, random, keyShare, cert);
    EncodeFlight(f[0], f[1], f[2]);
    var s2 := Frame(f[2]) + rest;
    var s1 := Frame(f[1]) + s2;
    assert Encode(f) + rest == Frame(f[0]) + s1;
    DrainStep(f[0], s1, 20);
    DrainStep(f[1], s2, 19);
    DrainStep(f[2], rest, 18);
  }
}
