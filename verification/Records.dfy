/**
 * TLS record framing over a byte stream (faketls.rs): the Application Data
 * writer and reader, the raw record reader, and the drain of a server's fake
 * handshake. The stream holds what the peer has sent; its end is EOF.
 */
module Records {
  import opened Wrappers
  import opened Bytes

  const HANDSHAKE: byte := 0x16
  const CHANGE_CIPHER_SPEC: byte := 0x14
  const APPLICATION_DATA: byte := 0x17

  const MAX_PAYLOAD: nat := 16384
  const READ_HEADROOM: nat := 256
  const MAX_HANDSHAKE_RECORDS: nat := 20

  /** The receiving half of a socket. */
  class ByteReader {
    var data: Bytes

    constructor (data: Bytes)
      ensures this.data == data
    {
      this.data := data;
    }

    /** `read_exact`: all `n` octets, or the connection has ended. */
    method ReadExact(n: nat) returns (r: Option<Bytes>)
      modifies this
      ensures |old(data)| >= n ==> r == Some(old(data)[..n]) && data == old(data)[n..]
      ensures |old(data)| < n ==> r.None?
    {
      if |data| < n {
        data := [];
        return None;
      }
      r := Some(data[..n]);
      data := data[n..];
    }

    /** `read_exact` into the front of a caller's buffer. */
    method ReadExactInto(buf: array<byte>, n: nat) returns (ok: bool)
      requires n <= buf.Length
      modifies this, buf
      ensures ok == (|old(data)| >= n)
      ensures ok ==> buf[..n] == old(data)[..n] && data == old(data)[n..]
    {
      var got := ReadExact(n);
      if got.None? {
        return false;
      }
      forall i | 0 <= i < n {
        buf[i] := got.value[i];
      }
      return true;
    }
  }

  /** The sending half of a socket: everything written so far. */
  class ByteWriter {
    var data: Bytes

    constructor ()
      ensures data == []
    {
      data := [];
    }

    method WriteAll(bytes: Bytes)
      modifies this
      ensures data == old(data) + bytes
    {
      data := data + bytes;
    }
  }

  // ----------------------------------------------------------------- records

  datatype Record = Record(kind: byte, version: (byte, byte), payload: Bytes)

  function Frame(r: Record): Bytes
  {
    [r.kind, r.version.0, r.version.1] + Be16(|r.payload|) + r.payload
  }

  function Encode(recs: seq<Record>): Bytes
  {
    if recs == [] then [] else Frame(recs[0]) + Encode(recs[1..])
  }

  function LengthField(s: Bytes): nat
    requires |s| >= 5
  {
    FromBe16(s[3], s[4])
  }

  /** A record that fits its length field can be cut off the front of a stream. */
  lemma FrameAtFront(r: Record, rest: Bytes)
    requires |r.payload| < 65536
    ensures var s := Frame(r) + rest; var n := |r.payload|;
      && |s| == 5 + n + |rest| && |Frame(r)| == 5 + n && LengthField(s) == n
      && s[0] == r.kind && (s[1], s[2]) == r.version
      && s[5..5 + n] == r.payload && s[5 + n..] == rest && s[..5 + n] == Frame(r)
      && s[5..][..n] == r.payload && s[5..][n..] == rest
  {
    var s, n := Frame(r) + rest, |r.payload|;
    var head := [r.kind, r.version.0, r.version.1] + Be16(n);
    assert |head| == 5 && s == head + (r.payload + rest);
    assert s[3] == head[3] == Be16(n)[0] && s[4] == head[4] == Be16(n)[1];
    assert s[5..] == r.payload + rest;
  }

  lemma EncodeFirst(recs: seq<Record>, rest: Bytes)
    requires recs != []
    ensures Encode(recs) + rest == Frame(recs[0]) + (Encode(recs[1..]) + rest)
  {
    Rebracket(Frame(recs[0]), Encode(recs[1..]), rest);
  }

  lemma {:induction false} EncodeAppend(a: seq<Record>, b: seq<Record>)
    ensures Encode(a + b) == Encode(a) + Encode(b)
  {
    if a == [] {
      assert a + b == b;
    } else {
      assert (a + b)[1..] == a[1..] + b;
      EncodeAppend(a[1..], b);
    }
  }

  /** A data-phase stream: non-empty Application Data and any ChangeCipherSpec, all fitting `cap`. */
  predicate DataPhase(recs: seq<Record>, cap: nat)
  {
    forall i :: 0 <= i < |recs| ==> DataRecord(recs[i], cap)
  }

  predicate DataRecord(r: Record, cap: nat)
  {
    && |r.payload| <= cap
    && (r.kind == CHANGE_CIPHER_SPEC || (r.kind == APPLICATION_DATA && r.payload != []))
  }

  /** The payload octets the Application Data records carry, in order. */
  function Carried(recs: seq<Record>): Bytes
  {
    if recs == [] then []
    else (if recs[0].kind == APPLICATION_DATA then recs[0].payload else []) + Carried(recs[1..])
  }

  /** The octets of a record that carries `data`: kind 23, version 3.3, the length most significant octet first. */
  lemma AppRecordOctets(data: Bytes, rest: Bytes)
    requires |data| < 65536
    ensures var s := Frame(AppRecord(data)) + rest;
      && s[..3] == [23, 3, 3] && 256 * (s[3] as nat) + s[4] as nat == |data| && s[5..] == data + rest
  {
    FrameAtFront(AppRecord(data), rest);
    MostSignificantFirst(|data|);
    var s := Frame(AppRecord(data)) + rest;
    assert s == [23, 3, 3] + Be16(|data|) + (data + rest);
  }

  /** A whole record of at most `cap` octets stands at the front. */
  predicate Whole(s: Bytes, cap: nat)
  {
    |s| >= 5 && 256 * (s[3] as nat) + s[4] as nat <= cap && |s| >= 5 + 256 * (s[3] as nat) + s[4] as nat
  }

  /** What follows it. */
  function Behind(s: Bytes): Bytes
    requires |s| >= 5 && |s| >= 5 + 256 * (s[3] as nat) + s[4] as nat
  {
    s[5 + 256 * (s[3] as nat) + s[4] as nat..]
  }

  // ------------------------------------------------------------------ writer

  /** `data` in pieces of at most `MAX_PAYLOAD`. */
  function Chunks(data: Bytes): seq<Bytes>
  {
    if data == [] then []
    else if |data| <= MAX_PAYLOAD then [data]
    else [data[..MAX_PAYLOAD]] + Chunks(data[MAX_PAYLOAD..])
  }

  function AppRecord(payload: Bytes): Record
  {
    Record(APPLICATION_DATA, (3, 3), payload)
  }

  function AppRecords(pieces: seq<Bytes>): (r: seq<Record>)
    ensures |r| == |pieces|
  {
    seq(|pieces|, i requires 0 <= i < |pieces| => AppRecord(pieces[i]))
  }

  /** `write_tls_appdata`. */
  method WriteAppData(writer: ByteWriter, data: Bytes)
    modifies writer
    ensures writer.data == old(writer.data) + Encode(AppRecords(Chunks(data)))
  {
    var offset := 0;
    ghost var done: seq<Bytes> := [];
    while offset < |data|
      invariant 0 <= offset <= |data|
      invariant done + Chunks(data[offset..]) == Chunks(data)
      invariant writer.data == old(writer.data) + Encode(AppRecords(done))
    {
      var end := if offset + MAX_PAYLOAD < |data| then offset + MAX_PAYLOAD else |data|;
      var chunk := data[offset..end];
      var len := |chunk|;
      writer.WriteAll([APPLICATION_DATA, 3, 3, (len / 256 % 256) as byte, (len % 256) as byte]);
      writer.WriteAll(chunk);
      WroteChunk(old(writer.data), done, chunk);
      OneChunkLess(data, offset, end, done);
      done := done + [chunk];
      offset := end;
    }
    assert done + [] == done;
  }

  lemma MoveOne<T>(done: seq<T>, all: seq<T>, left: seq<T>, x: T, rest: seq<T>)
    requires done + left == all && left == [x] + rest
    ensures (done + [x]) + rest == all
  {
  }

  lemma SliceOn(data: Bytes, offset: nat, end: nat)
    requires offset <= end <= |data|
    ensures data[offset..end] == data[offset..][..end - offset] && data[offset..][end - offset..] == data[end..]
  {
  }

  lemma OneChunkLess(data: Bytes, offset: nat, end: nat, done: seq<Bytes>)
    requires offset < |data| && end == (if offset + MAX_PAYLOAD < |data| then offset + MAX_PAYLOAD else |data|)
    requires done + Chunks(data[offset..]) == Chunks(data)
    ensures (done + [data[offset..end]]) + Chunks(data[end..]) == Chunks(data)
  {
    var chunk := data[offset..end];
    SliceOn(data, offset, end);
    ChunksStep(data[offset..], chunk);
    MoveOne(done, Chunks(data), Chunks(data[offset..]), chunk, Chunks(data[end..]));
  }

  lemma WroteChunk(before: Bytes, done: seq<Bytes>, chunk: Bytes)
    ensures before + Encode(AppRecords(done))
      + [APPLICATION_DATA, 3, 3, (|chunk| / 256 % 256) as byte, (|chunk| % 256) as byte] + chunk
         == before + Encode(AppRecords(done + [chunk]))
  {
    OneMoreRecord(done, chunk);
    var head := [APPLICATION_DATA, 3, 3, (|chunk| / 256 % 256) as byte, (|chunk| % 256) as byte];
    FrameOf(chunk, head);
    Regroup(before, Encode(AppRecords(done)), head, chunk);
  }

  lemma FrameOf(chunk: Bytes, head: Bytes)
    requires head == [APPLICATION_DATA, 3, 3, (|chunk| / 256 % 256) as byte, (|chunk| % 256) as byte]
    ensures Frame(AppRecord(chunk)) == head + chunk
  {
    assert head == [APPLICATION_DATA, 3, 3] + Be16(|chunk|);
  }

  lemma Regroup<T>(a: seq<T>, b: seq<T>, c: seq<T>, d: seq<T>)
    ensures a + b + c + d == a + (b + (c + d))
  {
  }

  lemma OneMoreRecord(done: seq<Bytes>, chunk: Bytes)
    ensures Encode(AppRecords(done + [chunk])) == Encode(AppRecords(done)) + Frame(AppRecord(chunk))
  {
    assert AppRecords(done + [chunk]) == AppRecords(done) + [AppRecord(chunk)];
    EncodeAppend(AppRecords(done), [AppRecord(chunk)]);
    assert Encode([AppRecord(chunk)]) == Frame(AppRecord(chunk)) + Encode([]);
  }

  lemma ChunksStep(left: Bytes, chunk: Bytes)
    requires left != [] && chunk == left[..if |left| < MAX_PAYLOAD then |left| else MAX_PAYLOAD]
    ensures Chunks(left) == [chunk] + Chunks(left[|chunk|..])
  {
    if |left| <= MAX_PAYLOAD {
      assert chunk == left && left[|chunk|..] == [];
      assert Chunks([]) == [];
    }
  }

  lemma OneChunkMore(n: nat)
    requires n > 16384
    ensures (n + 16383) / 16384 == 1 + (n - 16384 + 16383) / 16384
  {
  }

  /** The pieces are the data: ceil(n / 16384) of them, each of 1 to 16384 octets. */
  lemma {:induction false} ChunksPartition(data: Bytes)
    ensures Concat(Chunks(data)) == data
    ensures |Chunks(data)| == (|data| + 16383) / 16384
    ensures forall i :: 0 <= i < |Chunks(data)| ==> 1 <= |Chunks(data)[i]| <= 16384
  {
    if |data| > MAX_PAYLOAD {
      var first, rest := data[..MAX_PAYLOAD], data[MAX_PAYLOAD..];
      ChunksPartition(rest);
      OneChunkMore(|data|);
      assert Chunks(data) == [first] + Chunks(rest);
      assert Chunks(data)[1..] == Chunks(rest) && data == first + rest;
    } else if data != [] {
      assert Concat([data]) == data + Concat([]);
    }
  }

  lemma {:induction false} CarriedByAppRecords(pieces: seq<Bytes>)
    ensures Carried(AppRecords(pieces)) == Concat(pieces)
  {
    if pieces != [] {
      assert AppRecords(pieces)[1..] == AppRecords(pieces[1..]);
      CarriedByAppRecords(pieces[1..]);
    }
  }

  // ------------------------------------------------------------------ reader

  datatype AppRead = Closed | Got(payload: Bytes, rest: Bytes)

  /** What one read of the data phase takes off a stream, well-formed or not. */
  function NextApp(s: Bytes, cap: nat): AppRead
    decreases |s|
  {
    if |s| < 5 || LengthField(s) > cap then Closed
    else
      var n := LengthField(s);
      if s[0] != APPLICATION_DATA && s[0] != CHANGE_CIPHER_SPEC then Closed
      else if |s| < 5 + n then Closed
      else if s[0] == APPLICATION_DATA then Got(s[5..][..n], s[5..][n..])
      else NextApp(s[5..][n..], cap)
  }

  /** `read_tls_appdata`: 0 stands for EOF and every protocol error alike. */
  method ReadAppData(reader: ByteReader, buf: array<byte>) returns (n: nat)
    modifies reader, buf
    ensures n <= buf.Length
    ensures match NextApp(old(reader.data), buf.Length)
      case Closed => n == 0
      case Got(payload, rest) => buf[..n] == payload && reader.data == rest
  {
    while true
      invariant NextApp(reader.data, buf.Length) == NextApp(old(reader.data), buf.Length)
      decreases |reader.data|
    {
      var got := reader.ReadExact(5);
      if got.None? {
        return 0;
      }
      var header := got.value;
      var len := FromBe16(header[3], header[4]);
      if len > buf.Length {
        return 0;
      }
      if header[0] == APPLICATION_DATA {
        var ok := reader.ReadExactInto(buf, len);
        return if ok then len else 0;
      } else if header[0] == CHANGE_CIPHER_SPEC {
        var ok := reader.ReadExactInto(buf, len);
        if !ok {
          return 0;
        }
      } else {
        return 0;
      }
    }
  }

  /** `read_tls_record_bytes`: one whole record with its header. */
  method ReadRecordBytes(reader: ByteReader, maxPayload: nat) returns (record: Option<Bytes>)
    modifies reader
    ensures var s := old(reader.data);
      if |s| >= 5 && LengthField(s) <= maxPayload && |s| >= 5 + LengthField(s)
      then record == Some(s[..5 + LengthField(s)]) && reader.data == s[5 + LengthField(s)..]
      else record.None?
  {
    ghost var s := reader.data;
    var got := reader.ReadExact(5);
    if got.None? {
      return None;
    }
    var len := FromBe16(got.value[3], got.value[4]);
    if len > maxPayload {
      return None;
    }
    var payload := reader.ReadExact(len);
    if payload.None? {
      return None;
    }
    assert s[5..][len..] == s[5 + len..];
    assert got.value + payload.value == s[..5 + len];
    return Some(got.value + payload.value);
  }

  /**
   * On a data-phase stream one read gives the next Application Data record and
   * leaves the rest, ChangeCipherSpec records having been skipped.
   */
  lemma {:induction false} NextAppOfStream(recs: seq<Record>, cap: nat, tail: Bytes)
    returns (rest: seq<Record>)
    requires cap < 65536 && DataPhase(recs, cap)
    ensures |rest| <= |recs| && DataPhase(rest, cap)
    ensures Carried(recs) == [] ==> rest == [] && NextApp(Encode(recs) + tail, cap) == NextApp(tail, cap)
    ensures Carried(recs) != [] ==>
      exists payload :: payload != [] && |payload| <= cap && |rest| < |recs|
        && Carried(recs) == payload + Carried(rest)
        && NextApp(Encode(recs) + tail, cap) == Got(payload, Encode(rest) + tail)
  {
    if recs == [] {
      assert Encode(recs) + tail == tail;
      return [];
    }
    var after := Encode(recs[1..]) + tail;
    assert Encode(recs) + tail == Frame(recs[0]) + after;
    FrameAtFront(recs[0], after);
    assert DataRecord(recs[0], cap);
    if recs[0].kind == APPLICATION_DATA {
      return recs[1..];
    }
    rest := NextAppOfStream(recs[1..], cap, tail);
  }

  /**
   * A read passes over any ChangeCipherSpec records. It then takes a whole
   * Application Data record; anything else, cut short, too long or of another
   * kind, is the end.
   */
  lemma {:induction false} ReadSkipsOnly(skipped: seq<Record>, s: Bytes, cap: nat)
    requires cap < 65536
    requires forall i :: 0 <= i < |skipped| ==> skipped[i].kind == 20 && |skipped[i].payload| <= cap
    requires !(Whole(s, cap) && s[0] == 20)
    ensures NextApp(Encode(skipped) + s, cap) ==
      if Whole(s, cap) && s[0] == 23 then Got(s[5..|s| - |Behind(s)|], Behind(s)) else Closed
    decreases |skipped|
  {
    if skipped == [] {
      assert Encode(skipped) + s == s;
      if Whole(s, cap) {
        var n := LengthField(s);
        assert s[5..][..n] == s[5..5 + n] && s[5..][n..] == s[5 + n..];
      }
    } else {
      var after := Encode(skipped[1..]) + s;
      EncodeFirst(skipped, s);
      FrameAtFront(skipped[0], after);
      ReadSkipsOnly(skipped[1..], s, cap);
    }
  }

  /** Everything a session reads until its first zero-length result. */
  function ReadAll(s: Bytes, cap: nat): Bytes
    decreases |s|
  {
    match NextApp(s, cap)
    case Closed => []
    case Got(payload, rest) =>
      NextAppShrinks(s, cap);
      if payload == [] then [] else payload + ReadAll(rest, cap)
  }

  lemma NextAppShrinks(s: Bytes, cap: nat)
    ensures NextApp(s, cap).Got? ==> |NextApp(s, cap).rest| < |s|
    decreases |s|
  {
    if |s| >= 5 && LengthField(s) <= cap && |s| >= 5 + LengthField(s) {
      NextAppShrinks(s[5..][LengthField(s)..], cap);
    }
  }

  /** Reading a data-phase stream to its end gives exactly the octets it carries. */
  lemma {:induction false} ReadAllCarried(recs: seq<Record>, cap: nat)
    requires cap < 65536 && DataPhase(recs, cap)
    ensures ReadAll(Encode(recs), cap) == Carried(recs)
    decreases |recs|
  {
    assert Encode(recs) + [] == Encode(recs);
    var rest := NextAppOfStream(recs, cap, []);
    if Carried(recs) != [] {
      assert Encode(rest) + [] == Encode(rest);
      ReadAllCarried(rest, cap);
    }
  }

  /**
   * Record framing round trip: whatever ChangeCipherSpec records a middlebox
   * slips in between, the written data is read back exactly.
   */
  lemma RecordRoundTrip(data: Bytes, recs: seq<Record>, cap: nat)
    requires MAX_PAYLOAD <= cap < 65536
    requires Without(recs) == AppRecords(Chunks(data))
    requires forall r :: r in recs && r.kind != APPLICATION_DATA ==> r.kind == CHANGE_CIPHER_SPEC && |r.payload| <= cap
    ensures ReadAll(Encode(recs), cap) == data
  {
    ChunksPartition(data);
    CarriedByAppRecords(Chunks(data));
    WithoutCarriesTheSame(recs);
    forall i | 0 <= i < |recs|
      ensures DataRecord(recs[i], cap)
    {
      if recs[i].kind == APPLICATION_DATA {
        var j := WithoutKeeps(recs, i);
        assert recs[i] == AppRecord(Chunks(data)[j]);
      }
    }
    ReadAllCarried(recs, cap);
  }

  /** The Application Data records alone. */
  function Without(recs: seq<Record>): seq<Record>
  {
    if recs == [] then []
    else (if recs[0].kind == APPLICATION_DATA then [recs[0]] else []) + Without(recs[1..])
  }

  lemma {:induction false} WithoutCarriesTheSame(recs: seq<Record>)
    ensures Carried(Without(recs)) == Carried(recs)
  {
    if recs != [] {
      WithoutCarriesTheSame(recs[1..]);
      if recs[0].kind == APPLICATION_DATA {
        assert Without(recs)[1..] == Without(recs[1..]);
      } else {
        assert Without(recs) == Without(recs[1..]);
      }
    }
  }

  lemma {:induction false} WithoutKeeps(recs: seq<Record>, i: nat) returns (j: nat)
    requires i < |recs| && recs[i].kind == APPLICATION_DATA
    ensures j < |Without(recs)| && Without(recs)[j] == recs[i]
  {
    if i == 0 {
      return 0;
    }
    j := WithoutKeeps(recs[1..], i - 1);
    if recs[0].kind == APPLICATION_DATA {
      j := j + 1;
    }
  }

  // ------------------------------------------------------------------- drain

  /** What draining at most `k` records leaves of a stream, if it succeeds. */
  function Drained(s: Bytes, k: nat): Option<Bytes>
    decreases k
  {
    if k == 0 || |s| < 5 || s[1] != 3 || s[2] != 3 then None
    else
      var n := LengthField(s);
      if n > MAX_PAYLOAD + 256 || |s| < 5 + n then None
      else if s[0] == APPLICATION_DATA then Some(s[5..][n..])
      else if s[0] == HANDSHAKE || s[0] == CHANGE_CIPHER_SPEC then Drained(s[5..][n..], k - 1)
      else None
  }

  /** A record that draining passes over: handshake or ChangeCipherSpec, of version 3.3, not too long. */
  predicate Skipped(r: Record)
  {
    (r.kind == 22 || r.kind == 20) && r.version == (3, 3) && |r.payload| <= 16640
  }

  predicate Drains(s: Bytes) { Whole(s, 16640) && s[1] == 3 && s[2] == 3 }

  lemma DrainStep(r: Record, rest: Bytes, k: nat)
    requires k > 0 && r.version == (3, 3) && |r.payload| <= MAX_PAYLOAD + 256
    ensures r.kind == APPLICATION_DATA ==> Drained(Frame(r) + rest, k) == Some(rest)
    ensures r.kind == HANDSHAKE || r.kind == CHANGE_CIPHER_SPEC ==>
      Drained(Frame(r) + rest, k) == Drained(rest, k - 1)
  {
    FrameAtFront(r, rest);
  }

  /** Where no record to be passed over stands at the front. */
  lemma DrainStops(s: Bytes, k: nat)
    requires !(Drains(s) && (s[0] == 22 || s[0] == 20))
    ensures Drained(s, k) == if k > 0 && Drains(s) && s[0] == 23 then Some(Behind(s)) else None
  {
    if Drains(s) {
      var n := LengthField(s);
      assert s[5..][n..] == s[5 + n..];
    }
  }

  lemma DrainFirst(r: Record, whole: Bytes, after: Bytes, k: nat, left: Option<Bytes>)
    requires k > 0 && Skipped(r) && whole == Frame(r) + after && Drained(after, k - 1) == left
    ensures Drained(whole, k) == left
  {
    DrainStep(r, after, k);
  }

  lemma {:induction false} DrainPasses(skipped: seq<Record>, whole: Bytes, s: Bytes, k: nat, left: Option<Bytes>)
    requires whole == Encode(skipped) + s && forall i :: 0 <= i < |skipped| ==> Skipped(skipped[i])
    requires Drained(s, k) == left
    ensures Drained(whole, |skipped| + k) == left
    decreases |skipped|
  {
    if skipped == [] {
      assert whole == s;
    } else {
      var after := Encode(skipped[1..]) + s;
      EncodeFirst(skipped, s);
      DrainPasses(skipped[1..], after, s, k, left);
      DrainFirst(skipped[0], whole, after, |skipped| + k, left);
    }
  }

  /**
   * Draining passes over such records as long as they are few enough; it then
   * needs a whole Application Data record of version 3.3, and anything else is a
   * failure.
   */
  lemma DrainSkipsOnly(skipped: seq<Record>, s: Bytes, k: nat)
    requires forall i :: 0 <= i < |skipped| ==> Skipped(skipped[i])
    requires !(Drains(s) && (s[0] == 22 || s[0] == 20))
    ensures Drained(Encode(skipped) + s, k) ==
      if |skipped| < k && Drains(s) && s[0] == 23 then Some(Behind(s)) else None
  {
    if |skipped| <= k {
      DrainPasses(skipped, Encode(skipped) + s, s, k - |skipped|, Drained(s, k - |skipped|));
      DrainStops(s, k - |skipped|);
    } else {
      var front, back := skipped[..k], skipped[k..];
      assert skipped == front + back;
      EncodeAppend(front, back);
      Rebracket(Encode(front), Encode(back), s);
      DrainPasses(front, Encode(front) + (Encode(back) + s), Encode(back) + s, 0, None);
    }
  }

  /** So of 20 records at most the last may be the one it needs. */
  lemma DrainLimit(skipped: seq<Record>, s: Bytes)
    requires forall i :: 0 <= i < |skipped| ==> Skipped(skipped[i])
    requires Drains(s) && s[0] == 23
    ensures Drained(Encode(skipped) + s, MAX_HANDSHAKE_RECORDS).Some? <==> |skipped| + 1 <= 20
  {
    var most := MAX_HANDSHAKE_RECORDS;
    DrainSkipsOnly(skipped, s, most);
  }

  /** `drain_faketls_server_hello`. */
  method DrainServerHello(reader: ByteReader) returns (ok: bool)
    modifies reader
    ensures ok == Drained(old(reader.data), MAX_HANDSHAKE_RECORDS).Some?
    ensures ok ==> reader.data == Drained(old(reader.data), MAX_HANDSHAKE_RECORDS).value
  {
    for i := 0 to MAX_HANDSHAKE_RECORDS
      invariant Drained(reader.data, MAX_HANDSHAKE_RECORDS - i) == Drained(old(reader.data), MAX_HANDSHAKE_RECORDS)
    {
      var got := reader.ReadExact(5);
      if got.None? {
        return false;
      }
      var header := got.value;
      var len := FromBe16(header[3], header[4]);
      if header[1] != 3 || header[2] != 3 || len > MAX_PAYLOAD + 256 {
        return false;
      }
      var payload := reader.ReadExact(len);
      if payload.None? {
        return false;
      }
      if header[0] == APPLICATION_DATA {
        return true;
      }
      if header[0] != HANDSHAKE && header[0] != CHANGE_CIPHER_SPEC {
        return false;
      }
    }
    return false;
  }
}
