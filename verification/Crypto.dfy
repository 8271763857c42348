/**
 * The MTProto obfuscation layer (crypto.rs): the 64-byte handshakes, the relay
 * init, and the four AES-256-CTR ciphers of one connection.
 *
 * SHA-256, HMAC-SHA256 and the AES-CTR keystream are arbitrary functions here,
 * so every statement holds whatever they compute.
 */
module Crypto {
  import opened Wrappers
  import opened Bytes

  type Key = k: Bytes | |k| == 32 witness Zeros(32)
  type Iv = k: Bytes | |k| == 16 witness Zeros(16)
  type Block = k: Bytes | |k| == 64 witness Zeros(64)

  datatype Primitives = Primitives(
    sha256: Bytes -> Key,
    hmac: (Bytes, Bytes) -> Key,
    keystream: (Key, Iv, nat) -> byte,
    utf8: Bytes -> bool)

  // ---------------------------------------------------------------- CTR mode

  /** A cipher as a value: which keystream, and how much of it is used up. */
  datatype Ctr = Ctr(key: Key, iv: Iv, pos: nat)
  {
    function Skip(n: nat): Ctr { this.(pos := pos + n) }

    function At(p: Primitives, i: nat): byte { p.keystream(key, iv, pos + i) }
  }

  /** What `apply_keystream` turns `data` into. */
  function Apply(p: Primitives, c: Ctr, data: Bytes): (r: Bytes)
    ensures |r| == |data|
  {
    seq(|data|, i requires 0 <= i < |data| => Xor(data[i], c.At(p, i)))
  }

  lemma ApplyTwice(p: Primitives, c: Ctr, data: Bytes)
    ensures Apply(p, c, Apply(p, c, data)) == data
  {
    forall i | 0 <= i < |data|
      ensures Apply(p, c, Apply(p, c, data))[i] == data[i]
    {
      XorInvolution(data[i], c.At(p, i));
    }
  }

  /** Splitting a stream at any point does not change what is produced. */
  lemma ApplySplit(p: Primitives, c: Ctr, a: Bytes, b: Bytes)
    ensures Apply(p, c, a + b) == Apply(p, c, a) + Apply(p, c.Skip(|a|), b)
  {
    var whole, parts := Apply(p, c, a + b), Apply(p, c, a) + Apply(p, c.Skip(|a|), b);
    forall i | 0 <= i < |a + b|
      ensures whole[i] == parts[i]
    {
      if i >= |a| {
        assert c.Skip(|a|).At(p, i - |a|) == c.At(p, i);
      }
    }
  }

  /** `AesCtr256`: the key and counter block are fixed, the position moves. */
  class AesCtr256 {
    const p: Primitives
    const key: Key
    const iv: Iv
    var pos: nat

    constructor (p: Primitives, key: Key, iv: Iv)
      ensures this.p == p && State() == Ctr(key, iv, 0)
    {
      this.p, this.key, this.iv, this.pos := p, key, iv, 0;
    }

    function State(): Ctr
      reads this
    {
      Ctr(key, iv, pos)
    }

    /** Encrypts or decrypts `buf[lo..hi]` in place and moves on. */
    method ApplyKeystream(buf: array<byte>, lo: nat, hi: nat)
      requires lo <= hi <= buf.Length
      modifies this, buf
      ensures State() == old(State()).Skip(hi - lo)
      ensures buf[lo..hi] == Apply(p, old(State()), old(buf[lo..hi]))
      ensures buf[..lo] == old(buf[..lo]) && buf[hi..] == old(buf[hi..])
    {
      ghost var was, start := buf[..], State();
      var i := lo;
      while i < hi
        invariant lo <= i <= hi
        invariant State() == start.Skip(i - lo)
        invariant buf[..lo] == was[..lo] && buf[i..] == was[i..]
        invariant forall k :: lo <= k < i ==> buf[k] == Xor(was[k], start.At(p, k - lo))
      {
        assert buf[i] == buf[i..][0] == was[i];
        buf[i] := Xor(buf[i], p.keystream(key, iv, pos));
        pos := pos + 1;
        i := i + 1;
      }
      assert was[lo..hi] == old(buf[lo..hi]);
    }

    /** Fast-forwards past a 64-byte handshake by encrypting a scratch block. */
    method FastForward()
      modifies this
      ensures State() == old(State()).Skip(64)
    {
      var dummy := new byte[64](_ => 0);
      ApplyKeystream(dummy, 0, 64);
    }
  }

  // ---------------------------------------------------------- protocol tags

  datatype ProtoTag = Abridged | Intermediate | PaddedIntermediate

  function TagBytes(t: ProtoTag): (r: Bytes)
    ensures |r| == 4
  {
    match t
    case Abridged => [0xef, 0xef, 0xef, 0xef]
    case Intermediate => [0xee, 0xee, 0xee, 0xee]
    case PaddedIntermediate => [0xdd, 0xdd, 0xdd, 0xdd]
  }

  function TagFromBytes(b: Bytes): Option<ProtoTag>
  {
    if b == TagBytes(Abridged) then Some(Abridged)
    else if b == TagBytes(Intermediate) then Some(Intermediate)
    else if b == TagBytes(PaddedIntermediate) then Some(PaddedIntermediate)
    else None
  }

  /** The key inside a proxy secret: a `dd`/`ee` mode octet is stripped. */
  function SecretKey(raw: Bytes): Bytes
  {
    if |raw| >= 17 && (raw[0] == 0xdd || raw[0] == 0xee) then raw[1..17] else raw
  }

  /** The host name an `ee` secret carries after its key. */
  function FakeTlsHostname(raw: Bytes): Option<Bytes>
  {
    if |raw| > 17 && raw[0] == 0xee then Some(raw[17..]) else None
  }

  /** Whatever follows the 16-octet key, only the key takes part in key derivation. */
  lemma SecretForms(key: Bytes, host: Bytes)
    requires |key| == 16
    ensures SecretKey(key) == SecretKey([0xdd] + key) == SecretKey([0xee] + key + host) == key
    ensures FakeTlsHostname(key) == FakeTlsHostname([0xdd] + key + host) == None
    ensures FakeTlsHostname([0xee] + key + host) == if host == [] then None else Some(host)
  {
    assert ([0xee] + key + host)[1..17] == key;
    assert ([0xdd] + key)[1..17] == key;
    assert ([0xee] + key + host)[17..] == host;
  }

  // ------------------------------------------------- keys inside a handshake

  function PrekeyAndIv(h: Block): (r: Bytes)
    ensures |r| == 48
  {
    h[8..56]
  }

  lemma KeyAndIv(h: Block)
    ensures h[8..40] == PrekeyAndIv(h)[..32] && h[40..56] == PrekeyAndIv(h)[32..]
  {
    var both := PrekeyAndIv(h);
    assert forall i :: 0 <= i < 32 ==> both[..32][i] == h[8 + i];
    assert forall i :: 0 <= i < 16 ==> both[32..][i] == h[40 + i];
  }

  /** SHA-256(prekey ∥ secret) with the embedded IV: the secret-hashed derivation. */
  function HashedCtr(p: Primitives, prekeyIv: Bytes, secret: Bytes): Ctr
    requires |prekeyIv| == 48
  {
    Ctr(p.sha256(prekeyIv[..32] + secret), prekeyIv[32..], 0)
  }

  /** The raw derivation a relay init uses: key and IV are the embedded octets. */
  function RawCtr(prekeyIv: Bytes): Ctr
    requires |prekeyIv| == 48
  {
    Ctr(prekeyIv[..32], prekeyIv[32..], 0)
  }

  // ------------------------------------------------------ handshake parsing

  datatype HandshakeInfo = HandshakeInfo(dcId: nat, isMedia: bool, proto: ProtoTag, prekeyIv: Bytes)

  function Abs(n: int): nat { if n < 0 then -n else n }

  /** Reads tag and DC index out of the decrypted octets. */
  function ReadPlain(plain: Bytes, prekeyIv: Bytes): Option<HandshakeInfo>
    requires |plain| == 64
  {
    match TagFromBytes(plain[56..60])
    case None => None
    case Some(proto) =>
      var dcIdx := FromI16Le(plain[60], plain[61]);
      Some(HandshakeInfo(Abs(dcIdx), dcIdx < 0, proto, prekeyIv))
  }

  function ParseHandshake(p: Primitives, h: Block, secret: Bytes): Option<HandshakeInfo>
  {
    ReadPlain(Apply(p, HashedCtr(p, PrekeyAndIv(h), secret), h), PrekeyAndIv(h))
  }

  /** How a Telegram server reads a relay init: the embedded key, no secret. */
  function ReadRelayInit(p: Primitives, init: Block): Option<HandshakeInfo>
  {
    ReadPlain(Apply(p, RawCtr(PrekeyAndIv(init)), init), PrekeyAndIv(init))
  }

  /** Octet `i` of a handshake, decrypted from its start under `key` and `iv`. */
  function Decrypted(p: Primitives, key: Key, iv: Iv, h: Block, i: nat): byte
    requires i < 64
  {
    Xor(h[i], p.keystream(key, iv, i))
  }

  /** The four tag octets of each transport, as the protocol fixes them. */
  predicate TagOctets(proto: ProtoTag, a: byte, b: byte, c: byte, d: byte)
  {
    && a == b == c == d
    && (proto.Abridged? <==> a == 0xef)
    && (proto.Intermediate? <==> a == 0xee)
    && (proto.PaddedIntermediate? <==> a == 0xdd)
  }

  /** What six octets say: four of tag and a signed DC index, low octet first. */
  ghost predicate Says(a: byte, b: byte, c: byte, d: byte, lo: byte, hi: byte, r: Option<HandshakeInfo>)
  {
    var index := lo as nat + 256 * (hi as nat);
    var signed: int := if index < 32768 then index else index - 65536;
    && (r.None? <==> forall proto :: !TagOctets(proto, a, b, c, d))
    && (r.Some? ==>
        && TagOctets(r.value.proto, a, b, c, d) && (r.value.isMedia <==> signed < 0)
        && r.value.dcId == (if signed < 0 then -signed else signed))
  }

  /** The tag of a handshake stands in octets 56 to 59, the index in 60 and 61. */
  ghost predicate SaysOctets(p: Primitives, key: Key, iv: Iv, h: Block, r: Option<HandshakeInfo>)
  {
    && Says(Decrypted(p, key, iv, h, 56), Decrypted(p, key, iv, h, 57), Decrypted(p, key, iv, h, 58),
            Decrypted(p, key, iv, h, 59), Decrypted(p, key, iv, h, 60), Decrypted(p, key, iv, h, 61), r)
    && (r.Some? ==> r.value.prekeyIv == h[8..56])
  }

  /** Parsing, octet by octet: the client's handshake under the hashed key, a relay init under the embedded one. */
  lemma ParsedByOctets(p: Primitives, h: Block, secret: Bytes)
    ensures SaysOctets(p, p.sha256(h[8..40] + secret), h[40..56], h, ParseHandshake(p, h, secret))
    ensures SaysOctets(p, h[8..40], h[40..56], h, ReadRelayInit(p, h))
  {
    KeyAndIv(h);
    PlainSays(p, HashedCtr(p, PrekeyAndIv(h), secret), h);
    PlainSays(p, RawCtr(PrekeyAndIv(h)), h);
  }

  lemma TagSays(tag: Bytes)
    requires |tag| == 4
    ensures var r := TagFromBytes(tag);
      && (r.None? <==> forall proto :: !TagOctets(proto, tag[0], tag[1], tag[2], tag[3]))
      && (r.Some? ==> TagOctets(r.value, tag[0], tag[1], tag[2], tag[3]))
  {
    var r := TagFromBytes(tag);
    forall proto
      ensures TagOctets(proto, tag[0], tag[1], tag[2], tag[3]) <==> tag == TagBytes(proto)
      ensures tag == TagBytes(proto) ==> r.Some?
    {
      assert tag == TagBytes(proto) <==> forall i :: 0 <= i < 4 ==> tag[i] == TagBytes(proto)[i];
    }
    if r.Some? {
      assert tag == TagBytes(r.value);
    }
  }

  lemma ReadPlainSays(plain: Bytes, prekeyIv: Bytes)
    requires |plain| == 64
    ensures Says(plain[56], plain[57], plain[58], plain[59], plain[60], plain[61], ReadPlain(plain, prekeyIv))
    ensures ReadPlain(plain, prekeyIv).Some? ==> ReadPlain(plain, prekeyIv).value.prekeyIv == prekeyIv
  {
    assert plain[56..60] == [plain[56], plain[57], plain[58], plain[59]];
    TagSays(plain[56..60]);
  }

  lemma PlainSays(p: Primitives, c: Ctr, h: Block)
    requires c.pos == 0
    ensures SaysOctets(p, c.key, c.iv, h, ReadPlain(Apply(p, c, h), PrekeyAndIv(h)))
  {
    var plain := Apply(p, c, h);
    forall i | 0 <= i < 64
      ensures plain[i] == Decrypted(p, c.key, c.iv, h, i)
    {
    }
    ReadPlainSays(plain, PrekeyAndIv(h));
  }

  // --------------------------------------------------- handshake generation

  /** The prefixes Telegram or a middlebox would take for another protocol. */
  predicate Reserved(b: Bytes)
    requires |b| >= 8
  {
    || b[0] == 0xef
    || b[..4] == [0x48, 0x45, 0x41, 0x44]
    || b[..4] == [0x50, 0x4f, 0x53, 0x54]
    || b[..4] == [0x47, 0x45, 0x54, 0x20]
    || b[..4] == [0xee, 0xee, 0xee, 0xee]
    || b[..4] == [0xdd, 0xdd, 0xdd, 0xdd]
    || b[..4] == [0x16, 0x03, 0x01, 0x02]
    || b[4..8] == [0, 0, 0, 0]
  }

  /** Whether `s` starts with the characters of `word`. */
  predicate StartsWith(s: Bytes, word: string)
  {
    |s| >= |word| && forall i :: 0 <= i < |word| ==> s[i] as int == word[i] as int
  }

  /** A draw is usable exactly if nothing on the way can take it for HTTP, for TLS, or for a bare transport. */
  lemma UsableIsUnmistakable(b: Bytes)
    requires |b| >= 8
    ensures !Reserved(b) <==>
      && !StartsWith(b, "HEAD") && !StartsWith(b, "POST") && !StartsWith(b, "GET ")
      && !([0x16, 0x03, 0x01, 0x02] <= b) && b[0] != TagBytes(Abridged)[0]
      && !(TagBytes(Intermediate) <= b) && !(TagBytes(PaddedIntermediate) <= b)
      && !(b[4] as int + b[5] as int + b[6] as int + b[7] as int == 0)
  {
    FourOctets(b, "HEAD", [0x48, 0x45, 0x41, 0x44]);
    FourOctets(b, "POST", [0x50, 0x4f, 0x53, 0x54]);
    FourOctets(b, "GET ", [0x47, 0x45, 0x54, 0x20]);
    Beginning(b, [0x16, 0x03, 0x01, 0x02]);
    Beginning(b, TagBytes(Intermediate));
    Beginning(b, TagBytes(PaddedIntermediate));
    var more := b[4..8];
    assert more == [b[4], b[5], b[6], b[7]];
  }

  lemma Beginning(b: Bytes, w: Bytes)
    requires |b| >= 8 && |w| == 4
    ensures w <= b <==> b[..4] == w
  {
  }

  lemma FourOctets(b: Bytes, word: string, octets: Bytes)
    requires |b| >= 8 && |word| == |octets| == 4
    requires forall i :: 0 <= i < 4 ==> octets[i] as int == word[i] as int
    ensures StartsWith(b, word) <==> b[..4] == octets
  {
    assert StartsWith(b, word) <==> forall i :: 0 <= i < 4 ==> b[..4][i] == octets[i];
  }

  /** `raw` with `plain` encrypted under `c` into the octets from 56 on. */
  function Embed(p: Primitives, c: Ctr, raw: Block, plain: Bytes): Block
    requires |plain| <= 8
  {
    seq(64, i requires 0 <= i < 64 =>
      if 56 <= i < 56 + |plain| then Xor(plain[i - 56], c.At(p, i)) else raw[i])
  }

  /** Embedding leaves the key material alone and decrypts to what was embedded. */
  lemma EmbedDecrypts(p: Primitives, c: Ctr, raw: Block, plain: Bytes)
    requires |plain| <= 8
    ensures Embed(p, c, raw, plain)[..56] == raw[..56]
    ensures PrekeyAndIv(Embed(p, c, raw, plain)) == PrekeyAndIv(raw)
    ensures Apply(p, c, Embed(p, c, raw, plain))[56..56 + |plain|] == plain
  {
    var h := Embed(p, c, raw, plain);
    forall i | 56 <= i < 56 + |plain|
      ensures Apply(p, c, h)[i] == plain[i - 56]
    {
      XorInvolution(plain[i - 56], c.At(p, i));
    }
    assert PrekeyAndIv(h) == h[..56][8..];
  }

  /** The first usable draw of an endless random source; the source loops until it finds one. */
  ghost predicate SomeUsable(rng: nat -> Block)
  {
    exists i :: !Reserved(rng(i))
  }

  method DrawUsable(rng: nat -> Block) returns (raw: Block, ghost index: nat)
    requires SomeUsable(rng)
    ensures raw == rng(index) && !Reserved(raw)
    ensures forall j: nat :: j < index ==> Reserved(rng(j))
  {
    ghost var bound: nat :| !Reserved(rng(bound));
    var i := 0;
    while Reserved(rng(i))
      invariant i <= bound
      invariant forall j: nat :: j < i ==> Reserved(rng(j))
      decreases bound - i
    {
      i := i + 1;
    }
    raw, index := rng(i), i;
  }

  function RelayPlain(proto: ProtoTag, dcIdx: i16, pad: Bytes): (r: Bytes)
    requires |pad| == 2
    ensures |r| == 8
  {
    TagBytes(proto) + I16Le(dcIdx) + pad
  }

  lemma EmbedKeepsPrefix(p: Primitives, c: Ctr, raw: Block, plain: Bytes)
    requires |plain| <= 8 && !Reserved(raw)
    ensures !Reserved(Embed(p, c, raw, plain))
  {
    var h := Embed(p, c, raw, plain);
    assert h[..4] == raw[..4] && h[4..8] == raw[4..8];
  }

  /** Exclusive-or of ciphertext and plaintext gives the keystream back. */
  lemma KeystreamRecovered(p: Primitives, c: Ctr, raw: Bytes, i: nat)
    requires i < |raw|
    ensures Xor(Apply(p, c, raw)[i], raw[i]) == c.At(p, i)
  {
    XorInvolution(raw[i], c.At(p, i));
    XorInvolution(c.At(p, i), raw[i]);
  }

  /** Encrypting zeros shows the bare keystream. */
  lemma KeystreamOfZeros(p: Primitives, c: Ctr, n: nat, i: nat)
    requires i < n
    ensures Apply(p, c, Zeros(n))[i] == c.At(p, i)
  {
    XorZero(0, c.At(p, i));
  }

  /** Runs a new cipher over a copy of `data`. */
  method EncryptedCopy(p: Primitives, key: Key, iv: Iv, data: Block) returns (r: Block)
    ensures r == Apply(p, Ctr(key, iv, 0), data)
  {
    var buf := new byte[64](i requires 0 <= i < 64 => data[i]);
    var cipher := new AesCtr256(p, key, iv);
    assert buf[0..64] == data;
    cipher.ApplyKeystream(buf, 0, 64);
    r := buf[0..64];
  }

  /** The loop that embeds the plaintext tail, recovering the keystream octet by octet. */
  method PatchTail(p: Primitives, ghost c: Ctr, raw: Block, encrypted: Block, tail: Bytes) returns (init: Block)
    requires |tail| == 8 && encrypted == Apply(p, c, raw)
    ensures init == Embed(p, c, raw, tail)
  {
    var result := new byte[64](i requires 0 <= i < 64 => raw[i]);
    for i := 0 to 8
      invariant forall k :: 0 <= k < 64 ==>
        result[k] == if 56 <= k < 56 + i then Xor(tail[k - 56], c.At(p, k)) else raw[k]
    {
      KeystreamRecovered(p, c, raw, 56 + i);
      var ks := Xor(encrypted[56 + i], raw[56 + i]);
      result[56 + i] := Xor(tail[i], ks);
    }
    init := result[..];
  }

  /** `generate_relay_init`; `rng` and `pad` are the random octets it draws. */
  method GenerateRelayInit(p: Primitives, proto: ProtoTag, dcIdx: i16, rng: nat -> Block, pad: Bytes)
    returns (init: Block)
    requires SomeUsable(rng) && |pad| == 2
    ensures !Reserved(init)
    ensures exists i ::
      !Reserved(rng(i)) && init == Embed(p, RawCtr(PrekeyAndIv(rng(i))), rng(i), RelayPlain(proto, dcIdx, pad))
  {
    var raw, index := DrawUsable(rng);
    ghost var c := RawCtr(PrekeyAndIv(raw));
    KeyAndIv(raw);
    var encrypted := EncryptedCopy(p, raw[8..40], raw[40..56], raw);
    init := PatchTail(p, c, raw, encrypted, RelayPlain(proto, dcIdx, pad));
    EmbedKeepsPrefix(p, c, raw, RelayPlain(proto, dcIdx, pad));
  }

  /** The two ends of an obfuscated session, derived from its first 64 octets. */
  datatype Session = Session(up: Ctr, down: Ctr)

  /** With a proxy secret: up is past the handshake, down starts the reversed keys afresh. */
  function HashedSession(p: Primitives, prekeyIv: Bytes, secret: Bytes): Session
    requires |prekeyIv| == 48
  {
    Session(HashedCtr(p, prekeyIv, secret).Skip(64), HashedCtr(p, Reverse(prekeyIv), secret))
  }

  /** With the raw keys of a relay init. */
  function RawSession(prekeyIv: Bytes): Session
    requires |prekeyIv| == 48
  {
    Session(RawCtr(prekeyIv).Skip(64), RawCtr(Reverse(prekeyIv)))
  }

  /** `key` and `iv` are the 48 octets of `material`, last octet first. */
  predicate Backwards(material: Bytes, key: Bytes, iv: Bytes)
    requires |material| == 48
  {
    && |key| == 32 && |iv| == 16
    && (forall i :: 0 <= i < 32 ==> key[i] == material[47 - i])
    && (forall i :: 0 <= i < 16 ==> iv[i] == material[15 - i])
  }

  /** A cipher of a session with a secret: SHA-256 of some 32 octets and the secret. */
  ghost predicate Hashes(p: Primitives, c: Ctr, octets: Bytes, secret: Bytes)
  {
    c.key == p.sha256(octets + secret)
  }

  /** The keys of the two directions by position: forwards and 64 octets on upwards, backwards and fresh downwards. */
  ghost predicate KeyedBy(p: Primitives, s: Session, material: Bytes, secret: Option<Bytes>)
    requires |material| == 48
  {
    && s.up.iv == material[32..48] && s.up.pos == 64 && s.down.pos == 0
    && (match secret
        case None => s.up.key == material[0..32] && Backwards(material, s.down.key, s.down.iv)
        case Some(x) =>
          && Hashes(p, s.up, material[0..32], x)
          && exists octets :: Backwards(material, octets, s.down.iv) && Hashes(p, s.down, octets, x))
  }

  lemma SessionsAreKeyed(p: Primitives, material: Bytes, secret: Bytes)
    requires |material| == 48
    ensures KeyedBy(p, HashedSession(p, material, secret), material, Some(secret))
    ensures KeyedBy(p, RawSession(material), material, None)
  {
    var back := Reverse(material);
    assert Backwards(material, back[..32], back[32..]);
    assert material[32..48] == material[32..] && material[0..32] == material[..32];
    assert Hashes(p, HashedSession(p, material, secret).down, back[..32], secret);
  }

  function ClientPlain(proto: ProtoTag, dcIdx: i16): (r: Bytes)
    ensures |r| == 6
  {
    TagBytes(proto) + I16Le(dcIdx)
  }

  /** The 64 octets `generate_client_handshake` makes of one random block. */
  function ClientHandshake(p: Primitives, secret: Bytes, dcIdx: i16, proto: ProtoTag, raw: Block): Block
  {
    Embed(p, HashedCtr(p, PrekeyAndIv(raw), secret), raw, ClientPlain(proto, dcIdx))
  }

  /** The patching half of `generate_client_handshake`, for one usable draw. */
  method PatchHandshake(p: Primitives, secret: Bytes, dcIdx: i16, proto: ProtoTag, raw: Block)
    returns (handshake: Block)
    ensures handshake == ClientHandshake(p, secret, dcIdx, proto, raw)
  {
    ghost var c := HashedCtr(p, PrekeyAndIv(raw), secret);
    KeyAndIv(raw);
    var keystream := EncryptedCopy(p, p.sha256(raw[8..40] + secret), raw[40..56], Zeros(64));
    var bytes := new byte[64](i requires 0 <= i < 64 => raw[i]);
    var tag, dc := TagBytes(proto), I16Le(dcIdx);
    ghost var plain := ClientPlain(proto, dcIdx);
    for i := 0 to 4
      invariant forall k :: 0 <= k < 64 ==>
        bytes[k] == if 56 <= k < 56 + i then Xor(plain[k - 56], c.At(p, k)) else raw[k]
    {
      KeystreamOfZeros(p, c, 64, 56 + i);
      bytes[56 + i] := Xor(tag[i], keystream[56 + i]);
    }
    for i := 0 to 2
      invariant forall k :: 0 <= k < 64 ==>
        bytes[k] == if 56 <= k < 60 + i then Xor(plain[k - 56], c.At(p, k)) else raw[k]
    {
      KeystreamOfZeros(p, c, 64, 60 + i);
      bytes[60 + i] := Xor(dc[i], keystream[60 + i]);
    }
    handshake := bytes[..];
  }

  /** `generate_client_handshake`: the handshake and our two ciphers of the session. */
  method GenerateClientHandshake(p: Primitives, secret: Bytes, dcIdx: i16, proto: ProtoTag, rng: nat -> Block)
    returns (handshake: Block, enc: AesCtr256, dec: AesCtr256)
    requires SomeUsable(rng)
    ensures !Reserved(handshake)
    ensures exists i :: !Reserved(rng(i)) && handshake == ClientHandshake(p, secret, dcIdx, proto, rng(i))
    ensures fresh(enc) && fresh(dec) && enc != dec && enc.p == p && dec.p == p
    ensures Session(enc.State(), dec.State()) == HashedSession(p, PrekeyAndIv(handshake), secret)
    ensures KeyedBy(p, Session(enc.State(), dec.State()), handshake[8..56], Some(secret))
  {
    var raw, index := DrawUsable(rng);
    handshake := PatchHandshake(p, secret, dcIdx, proto, raw);
    EmbedKeepsPrefix(p, HashedCtr(p, PrekeyAndIv(raw), secret), raw, ClientPlain(proto, dcIdx));

    var both := PrekeyAndIv(handshake);
    enc := new AesCtr256(p, p.sha256(both[..32] + secret), both[32..]);
    enc.FastForward();
    var reversed := Reverse(both);
    dec := new AesCtr256(p, p.sha256(reversed[..32] + secret), reversed[32..]);
    SessionsAreKeyed(p, both, secret);
  }

  /** `build_connection_ciphers`: client side hashed with the secret, relay side raw. */
  method BuildConnectionCiphers(p: Primitives, prekeyIv: Bytes, secret: Bytes, relayInit: Block)
    returns (cltDec: AesCtr256, cltEnc: AesCtr256, tgEnc: AesCtr256, tgDec: AesCtr256)
    requires |prekeyIv| == 48
    ensures fresh(cltDec) && fresh(cltEnc) && fresh(tgEnc) && fresh(tgDec)
    ensures cltDec != tgEnc && cltEnc != tgDec && {cltDec, tgEnc} !! {cltEnc, tgDec}
    ensures cltDec.p == cltEnc.p == tgEnc.p == tgDec.p == p
    ensures Session(cltDec.State(), cltEnc.State()) == HashedSession(p, prekeyIv, secret)
    ensures Session(tgEnc.State(), tgDec.State()) == RawSession(PrekeyAndIv(relayInit))
    ensures KeyedBy(p, Session(cltDec.State(), cltEnc.State()), prekeyIv, Some(secret))
    ensures KeyedBy(p, Session(tgEnc.State(), tgDec.State()), relayInit[8..56], None)
  {
    var reversed := Reverse(prekeyIv);
    cltDec := new AesCtr256(p, p.sha256(prekeyIv[..32] + secret), prekeyIv[32..]);
    cltEnc := new AesCtr256(p, p.sha256(reversed[..32] + secret), reversed[32..]);
    cltDec.FastForward();

    var both := PrekeyAndIv(relayInit);
    var relayReversed := Reverse(both);
    tgEnc := new AesCtr256(p, both[..32], both[32..]);
    tgDec := new AesCtr256(p, relayReversed[..32], relayReversed[32..]);
    tgEnc.FastForward();
    SessionsAreKeyed(p, prekeyIv, secret);
    SessionsAreKeyed(p, both, secret);
  }

  // ------------------------------------------------------------- properties

  lemma TagRoundTrip(t: ProtoTag)
    ensures TagFromBytes(TagBytes(t)) == Some(t)
  {
    assert TagBytes(Abridged)[0] != TagBytes(Intermediate)[0];
    assert TagBytes(Abridged)[0] != TagBytes(PaddedIntermediate)[0];
    assert TagBytes(Intermediate)[0] != TagBytes(PaddedIntermediate)[0];
  }

  lemma ReadPlainOf(plain: Bytes, prekeyIv: Bytes, proto: ProtoTag, dcIdx: i16)
    requires |plain| == 64 && plain[56..62] == ClientPlain(proto, dcIdx)
    ensures ReadPlain(plain, prekeyIv) == Some(HandshakeInfo(Abs(dcIdx), dcIdx < 0, proto, prekeyIv))
  {
    var six := plain[56..62];
    assert plain[56..60] == six[..4] == TagBytes(proto);
    assert plain[60] == six[4] == I16Le(dcIdx)[0] && plain[61] == six[5] == I16Le(dcIdx)[1];
    TagRoundTrip(proto);
    I16RoundTrip(dcIdx);
  }

  /** The parser inverts the client generator, for every secret, tag, signed DC and random block. */
  lemma ParseInvertsGenerate(p: Primitives, secret: Bytes, dcIdx: i16, proto: ProtoTag, raw: Block)
    ensures var h := ClientHandshake(p, secret, dcIdx, proto, raw);
      ParseHandshake(p, h, secret) == Some(HandshakeInfo(Abs(dcIdx), dcIdx < 0, proto, PrekeyAndIv(h)))
  {
    var c := HashedCtr(p, PrekeyAndIv(raw), secret);
    var h := ClientHandshake(p, secret, dcIdx, proto, raw);
    EmbedDecrypts(p, c, raw, ClientPlain(proto, dcIdx));
    ReadPlainOf(Apply(p, c, h), PrekeyAndIv(h), proto, dcIdx);
  }

  /** A relay init decrypts under its own embedded key to the tag and DC it was made for. */
  lemma RelayInitReadsBack(p: Primitives, dcIdx: i16, proto: ProtoTag, raw: Block, pad: Bytes)
    requires |pad| == 2
    ensures var init := Embed(p, RawCtr(PrekeyAndIv(raw)), raw, RelayPlain(proto, dcIdx, pad));
      ReadRelayInit(p, init) == Some(HandshakeInfo(Abs(dcIdx), dcIdx < 0, proto, PrekeyAndIv(init)))
  {
    var c := RawCtr(PrekeyAndIv(raw));
    var tail := RelayPlain(proto, dcIdx, pad);
    var init := Embed(p, c, raw, tail);
    EmbedDecrypts(p, c, raw, tail);
    var plain := Apply(p, c, init);
    assert plain[56..62] == plain[56..64][..6] == tail[..6] == ClientPlain(proto, dcIdx);
    ReadPlainOf(plain, PrekeyAndIv(init), proto, dcIdx);
  }

  // --------------------------------------------------------- DC arithmetic

  /** The DC a connection is routed to: test DCs arrive offset by 10000. */
  function RouteDc(requested: nat): (dc: nat)
  {
    if requested >= 10000 then requested - 10000 else requested
  }

  predicate IsTestDc(requested: nat, forceTest: bool) { forceTest || requested >= 10000 }

  /** A connection is a test connection if that is forced, or exactly if its index carries the test offset. */
  lemma TestDcs(dc: nat, forceTest: bool)
    ensures IsTestDc(dc, forceTest) <==> forceTest || RouteDc(dc) != dc
    ensures dc < 10000 ==> RouteDc(dc) == dc && RouteDc(10000 + dc) == dc && IsTestDc(10000 + dc, forceTest)
  {
  }

  /** The signed index put into the relay init, narrowed to i16 before it is negated. */
  function ResignDc(dc: nat, isMedia: bool): int
  {
    if isMedia then -AsI16(dc) else AsI16(dc)
  }

  /** Narrowing never truncates: the index the relay carries is the client's, less the test offset. */
  lemma ResignNeverTruncates(plain: Bytes, prekeyIv: Bytes)
    requires |plain| == 64 && ReadPlain(plain, prekeyIv).Some?
    ensures var info := ReadPlain(plain, prekeyIv).value;
      var sent := FromI16Le(plain[60], plain[61]);
      var dc := RouteDc(info.dcId);
      && AsI16(dc) == dc
      && -32768 <= ResignDc(dc, info.isMedia) < 32768
      && ResignDc(dc, info.isMedia) ==
         (if -10000 < sent < 10000 then sent else if sent > 0 then sent - 10000 else sent + 10000)
  {
    var sent := FromI16Le(plain[60], plain[61]);
    assert ReadPlain(plain, prekeyIv).value.dcId == Abs(sent) <= 32768;
  }
}
