/**
 * ClientHellos as any TLS client may write them (RFC 5246, section 7.4.1.2; RFC
 * 6066, section 3), and what the parser of faketls.rs makes of them. The writer
 * is defined by itself: nothing here is shared with the code that reads hellos.
 */
module ClientHellos {
  import opened Wrappers
  import opened Bytes
  import opened Crypto
  import opened Records
  import opened Hello

  datatype Extension = Extension(kind: nat, data: Bytes)
  {
    predicate Fits() { kind < 65536 && |data| < 65536 }
  }

  function ExtensionOctets(e: Extension): Bytes { Be16(e.kind) + Be16(|e.data|) + e.data }

  function AllExtensions(es: seq<Extension>): Bytes
  {
    if es == [] then [] else ExtensionOctets(es[0]) + AllExtensions(es[1..])
  }

  /** The server_name extension with one host name. */
  function NameOf(host: Bytes): Extension
  {
    Extension(0, Be16(3 + |host|) + [0] + Be16(|host|) + host)
  }

  /** The fields of a hello from its version on, whatever their lengths, and what may follow them. */
  datatype Body = Body(
    version: Bytes, random: Bytes, sid: Bytes, suites: Bytes, methods: Bytes, exts: Bytes, later: Bytes)
  {
    predicate Fits()
    {
      && |version| == 2 && |random| == 32 && |sid| < 256 && 2 <= |suites| < 65536 && |methods| < 256 && |exts| < 65536
    }
  }

  function BodyOctets(b: Body): Bytes
    requires b.Fits()
  {
    (b.version + b.random)
    + ([|b.sid| as byte] + b.sid + (Be16(|b.suites|) + b.suites
    + ([|b.methods| as byte] + b.methods + (Be16(|b.exts|) + b.exts + b.later))))
  }

  /** An extension that names no host is passed over. */
  predicate NoName(e: Extension) { e.Fits() && (e.kind == 0 ==> |e.data| < 5) }

  lemma NumberIsRead(n: nat)
    requires n < 65536
    ensures FromBe16(Be16(n)[0], Be16(n)[1]) == n
  {
    FramedLengths(n, 0);
  }

  lemma OneIsPassed(p: Primitives, e: Extension, rest: Bytes)
    requires NoName(e)
    ensures SniOf(p, ExtensionOctets(e) + rest) == SniOf(p, rest)
  {
    ExtensionAtFront(Be16(e.kind), e.data, rest);
    NumberIsRead(e.kind);
  }

  lemma {:induction false} OthersArePassed(p: Primitives, others: seq<Extension>, rest: Bytes)
    requires forall i :: 0 <= i < |others| ==> NoName(others[i])
    ensures SniOf(p, AllExtensions(others) + rest) == SniOf(p, rest)
  {
    if others == [] {
      assert AllExtensions(others) + rest == rest;
    } else {
      var after := AllExtensions(others[1..]) + rest;
      assert AllExtensions(others) + rest == ExtensionOctets(others[0]) + after;
      OneIsPassed(p, others[0], after);
      OthersArePassed(p, others[1..], rest);
    }
  }

  /** The host is found wherever its extension stands, whatever comes before and after; without one there is none. */
  lemma HostIsFound(p: Primitives, others: seq<Extension>, host: Bytes, rest: Bytes)
    requires forall i :: 0 <= i < |others| ==> NoName(others[i])
    requires |host| <= 65530 && p.utf8(host)
    ensures SniOf(p, AllExtensions(others) + (ExtensionOctets(NameOf(host)) + rest)) == Some(host)
    ensures SniOf(p, AllExtensions(others)).None?
  {
    OthersArePassed(p, others, ExtensionOctets(NameOf(host)) + rest);
    var data := NameOf(host).data;
    ExtensionAtFront(Be16(0), data, rest);
    NumberIsRead(0);
    var five: Bytes := Be16(3 + |host|) + [0] + Be16(|host|);
    FiveOctets(|host|, five);
    NumberIsRead(3 + |host|);
    NumberIsRead(|host|);
    HostAfterFive(p, five, host);
    OthersArePassed(p, others, []);
    assert AllExtensions(others) + [] == AllExtensions(others);
  }

  /** `x` stands in `s` from `at` on. */
  predicate StandsAt(s: Bytes, at: nat, x: Bytes) { at + |x| <= |s| && s[at..at + |x|] == x }

  lemma PartAt(s: Bytes, at: nat, x: Bytes, rest: Bytes)
    requires at <= |s| && s[at..] == x + rest
    ensures StandsAt(s, at, x) && s[at + |x|..] == rest
  {
    assert s[at..at + |x|] == s[at..][..|x|];
    assert s[at + |x|..] == s[at..][|x|..];
  }

  /** A field with its length in front. */
  lemma FieldAt(s: Bytes, at: nat, head: Bytes, data: Bytes, rest: Bytes)
    requires at <= |s| && s[at..] == head + data + rest
    ensures StandsAt(s, at, head) && StandsAt(s, at + |head|, data)
    ensures at + |head| + |data| <= |s| && s[at + |head| + |data|..] == rest
  {
    Rebracket(head, data, rest);
    PartAt(s, at, head, data + rest);
    PartAt(s, at + |head|, data, rest);
  }

  lemma OctetAt(s: Bytes, at: nat, x: byte)
    requires StandsAt(s, at, [x])
    ensures s[at] == x
  {
    assert s[at..at + 1][0] == s[at];
  }

  lemma NumberAt(s: Bytes, at: nat, n: nat)
    requires StandsAt(s, at, Be16(n)) && n < 65536
    ensures FromBe16(s[at], s[at + 1]) == n
  {
    assert s[at..at + 2][0] == s[at] && s[at..at + 2][1] == s[at + 1];
    NumberIsRead(n);
  }

  lemma FirstTwo(s: Bytes, at: nat, data: Bytes)
    requires |data| >= 2 && StandsAt(s, at, data)
    ensures [s[at], s[at + 1]] == data[..2]
  {
    assert s[at..at + |data|][0] == s[at] && s[at..at + |data|][1] == s[at + 1];
  }

  /** Where the fields of a body stand, `a`, `c`, `d` and `n` being their lengths. */
  predicate Stand(s: Bytes, a: nat, c: nat, d: nat, n: nat)
  {
    && |s| >= 40 + a + c + d + n
    && s[34] as nat == a && FromBe16(s[35 + a], s[36 + a]) == c >= 2
    && s[37 + a + c] as nat == d && FromBe16(s[38 + a + c + d], s[39 + a + c + d]) == n
  }

  lemma BodySays(p: Primitives, random: Bytes, s: Bytes, a: nat, c: nat, d: nat, n: nat, exts: Bytes)
    requires Stand(s, a, c, d, n) && s[40 + a + c + d..40 + a + c + d + n] == exts
    ensures BodyOf(p, random, s) == Some(ClientHello(random, s[35..35 + a], [s[37 + a], s[38 + a]], SniOf(p, exts)))
  {
    var at := 35 + a + 2 + c + 1 + d;
    assert at + 2 == 40 + a + c + d;
  }

  lemma SliceIs(s: Bytes, at: nat, n: nat, x: Bytes)
    requires StandsAt(s, at, x) && n == |x|
    ensures s[at..at + n] == x
  {
  }

  /** Four fields, each with its length in front, one after the other. */
  lemma FourFields(
      s: Bytes, at: nat, h1: Bytes, x1: Bytes, h2: Bytes, x2: Bytes, h3: Bytes, x3: Bytes, h4: Bytes, x4: Bytes,
      z: Bytes)
    requires at <= |s| && s[at..] == h1 + x1 + (h2 + x2 + (h3 + x3 + (h4 + x4 + z)))
    requires |h1| == |h3| == 1 && |h2| == |h4| == 2
    ensures var a, c, d := at + |x1|, at + |x1| + |x2|, at + |x1| + |x2| + |x3|;
      && StandsAt(s, at, h1) && StandsAt(s, at + 1, x1)
      && StandsAt(s, a + 1, h2) && StandsAt(s, a + 3, x2)
      && StandsAt(s, c + 3, h3) && StandsAt(s, c + 4, x3)
      && StandsAt(s, d + 4, h4) && StandsAt(s, d + 6, x4)
  {
    var a, c, d := at + |x1|, at + |x1| + |x2|, at + |x1| + |x2| + |x3|;
    FieldAt(s, at, h1, x1, h2 + x2 + (h3 + x3 + (h4 + x4 + z)));
    FieldAt(s, a + 1, h2, x2, h3 + x3 + (h4 + x4 + z));
    FieldAt(s, c + 3, h3, x3, h4 + x4 + z);
    FieldAt(s, d + 4, h4, x4, z);
  }

  /** The fields of a body by their places. */
  predicate Fields(b: Body, s: Bytes)
  {
    var a, c, d := |b.sid|, |b.sid| + |b.suites|, |b.sid| + |b.suites| + |b.methods|;
    && b.Fits() && StandsAt(s, 34, [a as byte]) && StandsAt(s, 35, b.sid)
    && StandsAt(s, a + 35, Be16(|b.suites|)) && StandsAt(s, a + 37, b.suites)
    && StandsAt(s, c + 37, [|b.methods| as byte])
    && StandsAt(s, d + 38, Be16(|b.exts|)) && StandsAt(s, d + 40, b.exts)
  }

  lemma FieldsFrom(b: Body, s: Bytes, rest: Bytes)
    requires b.Fits() && |s| >= 34 && s[34..] == rest
    requires rest == [|b.sid| as byte] + b.sid + (Be16(|b.suites|) + b.suites
      + ([|b.methods| as byte] + b.methods + (Be16(|b.exts|) + b.exts + b.later)))
    ensures Fields(b, s)
  {
    FourFields(
      s, 34, [|b.sid| as byte], b.sid, Be16(|b.suites|), b.suites, [|b.methods| as byte], b.methods, Be16(|b.exts|),
      b.exts, b.later);
  }

  lemma BodyHasFields(b: Body)
    requires b.Fits()
    ensures Fields(b, BodyOctets(b))
  {
    var rest := [|b.sid| as byte] + b.sid + (Be16(|b.suites|) + b.suites
      + ([|b.methods| as byte] + b.methods + (Be16(|b.exts|) + b.exts + b.later)));
    var pre := b.version + b.random;
    assert (pre + rest)[34..] == rest;
    FieldsFrom(b, pre + rest, rest);
  }

  lemma FieldsSay(b: Body, s: Bytes)
    requires Fields(b, s)
    ensures Stand(s, |b.sid|, |b.suites|, |b.methods|, |b.exts|)
  {
    OctetAt(s, 34, |b.sid| as byte);
    NumberAt(s, |b.sid| + 35, |b.suites|);
    OctetAt(s, |b.sid| + |b.suites| + 37, |b.methods| as byte);
    NumberAt(s, |b.sid| + |b.suites| + |b.methods| + 38, |b.exts|);
  }

  /** Every such body is read, and its fields come back as they were written. */
  lemma BodyIsRead(p: Primitives, b: Body, s: Bytes)
    requires Fields(b, s)
    ensures BodyOf(p, b.random, s) == Some(ClientHello(b.random, b.sid, b.suites[..2], SniOf(p, b.exts)))
  {
    FieldsSay(b, s);
    var a, c, d, n := |b.sid|, |b.suites|, |b.methods|, |b.exts|;
    SliceIs(s, 40 + a + c + d, n, b.exts);
    SliceIs(s, 35, a, b.sid);
    BodySays(p, b.random, s, a, c, d, n, b.exts);
    FirstTwo(s, 37 + |b.sid|, b.suites);
  }

  /** The record around it: kind 22, both outer lengths, message kind 1. */
  function RecordOctets(version: Bytes, b: Body): Bytes
    requires b.Fits()
  {
    var body := BodyOctets(b);
    [22] + version + Be16(4 + |body|) + [1] + Be24(|body|) + body
  }

  lemma HeadStands(version: Bytes, body: Bytes)
    requires |version| == 2 && 43 <= 4 + |body| < 65536
    ensures var record := [22] + version + Be16(4 + |body|) + [1] + Be24(|body|) + body;
      Framed(record) && record[9..] == body
  {
    var n := |body|;
    var head: Bytes := [22, version[0], version[1], Be16(4 + n)[0], Be16(4 + n)[1], 1,
                        Be24(n)[0], Be24(n)[1], Be24(n)[2]];
    var record := [22] + version + Be16(4 + n) + [1] + Be24(n) + body;
    assert [22] + version + Be16(4 + n) + [1] + Be24(n) == head;
    NumberIsRead(4 + n);
    FramedLengths(n, 0);
    assert forall i :: 0 <= i < 9 ==> record[i] == head[i];
  }

  lemma RandomStands(record: Bytes, version: Bytes, random: Bytes, rest: Bytes)
    requires |record| >= 9 && |version| == 2 && |random| == 32 && record[9..] == version + random + rest
    ensures |record| >= 43 && record[11..43] == random && record[11..39] == random[..28]
  {
    FieldAt(record, 9, version, random, rest);
    assert record[11..39] == record[11..43][..28];
  }

  /** What the MAC of a hello is compared with. */
  predicate Signed(p: Primitives, record: Bytes, random: Bytes, secret: Bytes)
    requires |record| >= 43 && |random| == 32
  {
    random[..28] == p.hmac(secret, record[..11] + Zeros(32) + record[43..])[..28]
  }

  lemma HelloIs(p: Primitives, record: Bytes, b: Body, s: Bytes, secret: Bytes)
    requires |record| >= 43 && Framed(record) && record[9..] == s && Fields(b, s)
    requires record[11..43] == b.random && record[11..39] == b.random[..28]
    ensures HelloOf(p, record, secret) ==
      if Signed(p, record, b.random, secret)
      then Some(ClientHello(b.random, b.sid, b.suites[..2], SniOf(p, b.exts)))
      else None
  {
    BodyIsRead(p, b, s);
  }

  /**
   * Any client's hello that fits a record is accepted exactly if it carries the
   * MAC under our secret, and then its fields are what the client wrote.
   */
  lemma AnyHelloIsRead(p: Primitives, version: Bytes, b: Body, secret: Bytes)
    requires |version| == 2 && b.Fits() && 4 + |BodyOctets(b)| < 65536
    ensures var record := RecordOctets(version, b);
      && |record| >= 43
      && HelloOf(p, record, secret) ==
         if Signed(p, record, b.random, secret)
         then Some(ClientHello(b.random, b.sid, b.suites[..2], SniOf(p, b.exts)))
         else None
  {
    var body := BodyOctets(b);
    BodyHasFields(b);
    HeadStands(version, body);
    RandomStands(RecordOctets(version, b), b.version, b.random, body[34..]);
    HelloIs(p, RecordOctets(version, b), b, body, secret);
  }
}
