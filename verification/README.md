# Z-GUI: verified model of the Telegram bridge and its neighbours

This project models, in Dafny, the parts of the repository whose correctness
depends on bytes, positions, interleavings or exact arithmetic, and proves what
they are for.

- **Obfuscated transport** (`Bytes`, `Crypto`, `Splitter`, `Packets`, `Records`, `Hello`,
  `ClientHellos`, `Inbound`, `Bridge`, `Serving`). The MTProto handshakes, the TLS look-alike around them and the
  re-encrypting bridges, octet for octet. SHA-256, HMAC-SHA256, the AES-CTR
  keystream and UTF-8 validity are arbitrary functions, so every statement holds
  whatever they compute; random octets and the clock are inputs. The end result:
  Telegram, or an upstream proxy, holding only the 64 octets of the relay init or
  handshake, decrypts exactly what the client meant, for every secret and every
  way the reads cut the stream; the reply direction likewise. `Serving.ServeTcp`
  puts the pieces together: one connection, from the octets on the client's socket
  to those on Telegram's and back.
- **Routing** (`RouteHealth`, `Ladder`, `CfRecords`). The fallback ladder over an
  oracle network, while other connections change the route health between any two
  of its readings and writings. `Plan` states the order of the rungs independently
  of the code, `Walk` what a legal walk is; `SelectUpstream` is proved to be one,
  and the promises of the ladder are proved of every walk. `CfRecords` is the walk
  over the DNS records of the Cloudflare proxy inside one rung.
- **Connection pool and descriptor budget** (`Buckets`, `Interleaving`,
  `PoolProtocol`, `CfProtocol`, `Pool`, `Limits`, `Budget`). The protocols say what
  each critical section and each await does to a bucket, and let any number of
  clients, refills, warmup and maintenance interleave. Each critical section of
  `Pool.WsPool` is proved to move the object as the protocol step of that name, so
  the theorems about all runs hold of the object; `Get` and the refill task are
  built from them lock by lock, with the others in between.
- **Windows quoting** (`WinArgs`), against the published rules "Parsing C
  command-line arguments" of the Microsoft C runtime.
- **Crash-safe ipset swap** (`Ipset`) and **bridge start/stop** (`Telegram`).
- **Calendar, log ring, port normaliser** (`Calendar`, `LogRing`, `Ports`, with
  `Text` for the string operations).

Code that works by changing state is a class or a method with loops, proved
against a specification function; the properties are lemmas about that function.
Where code and specification share a function, a statement that does not name it
says what it computes: by octets and positions (`Bridge.FarEnds`,
`Crypto.ParsedByOctets`), by the check of the other side (`Hello.ServerAccepts`,
`Hello.ClientAccepts`), or by a writer of its own (`Packets.Written`,
`ClientHellos.RecordOctets`, `Ports.ItemText`).

## What the proofs turned up

- A FakeTLS ClientHello stops parsing at host names beyond 65360 octets: the
  record length no longer fits its field (faketls.rs:107-125).
  `Hello.ClientHelloRoundTrip` gives the exact bound. The parser never looks at
  the timestamp that masks the last four octets of `random`.
- `reserve_refill` checks the deadline under one lock and reserves under another
  (pool.rs:437-446). `PoolProtocol.ReservationRespectsDeadline` says exactly when a
  refill is reserved under a deadline that another task recorded in between, and
  `PoolProtocol.DeadlineRace` gives the run, for every pool size.
- The descriptor budget (limits.rs:77-101) does not count the spare Cloudflare
  connections. `Budget.BudgetHoldsIff`: the process stays within its limit exactly
  if they fit into the one descriptor that halving may leave over, which a server
  can check before it starts; `Budget.OvershootHappens` is a server with one DC
  that holds 46 descriptors under a limit of 45. The comment there reserves "idle +
  one refill" per slot; the factor of two is in fact used up by a warmup that
  overlaps a refill (`PoolProtocol.BoundIsReached`).
- `direct_ws` reads the cooldown of its DC twice: whether the attempt counts as a
  probe (proxy.rs:1333), and how long it may dial (proxy.rs:1433). An attempt that
  is no probe can therefore time out on the short clock of one and put its address
  away for an hour; `RouteHealth.ShortYetNotProbing` says exactly when, and
  `RouteHealth.ShortEntryHappens` is a run that does it.
- With `--cf-balance` the spare connection of the Cloudflare proxy goes to a bare
  configured domain instead of a `kws` record (proxy.rs:1067-1074), because the
  pool opens exactly the host it is given (pool.rs:586-594) although its comment
  says the record is still expanded. `Ladder.SpareReachesDc`: it names a record of
  the DC when balancing is off, and none when it is on, unless the domain is itself
  named like one; `Ladder.SpareMissesDc` needs one configured domain only, with
  which config.rs:319 says balancing has no effect.
- The forced retry of a base record skips records that have timed out
  (ws_client.rs:573-575), but the regular turn does not. For a media DC the forced
  attempt comes first, so a base record that has just run out the clock is dialled
  once more; `CfRecords.LateAgainExactlyWhen` shows this is the only such case.
- In Packets framing a read that completes packets and then meets a refused length
  drops the completed ones as well (splitter.rs:72-117): what was sent are the
  packets complete before that read (`Bridge.UploadPackets`), which is all of them
  exactly if the read completed none (`Splitter.RefusalLoses`);
  `Splitter.RefusalLosesPacket` is a read that loses one.
- `heal_ipset_file` can replace a live list by an old backup if the existence
  probe of the live file fails once (tester.rs:352-358).
  `Ipset.HealOverwritesExactlyWhen` is the exact condition,
  `Ipset.StaleBackupCanWin` an instance. The safety of `Ipset.Campaign` therefore
  asks, where probes may fail, that no foreign backup lies beside a live list.
- A command line parses back exactly when the program path holds no quote, which
  file names on Windows cannot (`WinArgs.CommandLineRoundTrip`).
- An older bridge task is silent only because fewer than 2^64 starts separate it
  from the current one (`Telegram.OlderCompletionIsSilent`).
## Model

| member | source | states |
|---|---|---|
| Bytes.XorBits | src-tauri/crates/tg-ws-proxy-rs/src/crypto.rs:234-236 | bit by bit, the exclusive-or of two octets says where they differ |
| Bytes.MostSignificantFirst | src-tauri/crates/tg-ws-proxy-rs/src/faketls.rs:107-125 | TLS lengths are written most significant octet first, in 16 and 24 bits |
| Bytes.LeastSignificantFirst | src-tauri/crates/tg-ws-proxy-rs/src/crypto.rs:206-215 | DC indices and the clock are written least significant octet first, the sign as two's complement |
| Crypto.ApplyTwice | src-tauri/crates/tg-ws-proxy-rs/src/crypto.rs:234-236 | applying one keystream position twice gives the data back, for every key, IV and position |
| Crypto.ApplySplit | src-tauri/crates/tg-ws-proxy-rs/src/crypto.rs:375-402 | a stream may be cut anywhere: two calls of one cipher produce what one call on the whole would |
| Crypto.AesCtr256.ApplyKeystream | src-tauri/crates/tg-ws-proxy-rs/src/crypto.rs:136-138 | in place: exactly the slice is combined with the keystream from the current position, the position moves by its length, the rest of the buffer is untouched |
| Crypto.AesCtr256.FastForward | src-tauri/crates/tg-ws-proxy-rs/src/crypto.rs:308-310 | skipping a handshake moves the cipher by 64 positions and nothing else |
| Crypto.SecretForms | src-tauri/crates/tg-ws-proxy-rs/src/crypto.rs:78-102 | plain, `dd` and `ee` forms of a secret carry the same 16-octet key; only a non-empty `ee` tail is a host name |
| Crypto.DrawUsable | src-tauri/crates/tg-ws-proxy-rs/src/crypto.rs:184-201 | the rejection loop returns the first draw whose prefix is not reserved |
| Crypto.UsableIsUnmistakable | src-tauri/crates/tg-ws-proxy-rs/src/crypto.rs:184-201 | a draw is usable exactly if it begins neither like an HTTP request nor like a TLS hello nor like a bare transport, and does not have four zero octets from 4 on |
| Crypto.PatchTail | src-tauri/crates/tg-ws-proxy-rs/src/crypto.rs:206-225 | recovering the keystream from ciphertext and raw octets and patching the tail equals encrypting tag, DC and padding at positions 56 to 63 |
| Crypto.EmbedDecrypts | src-tauri/crates/tg-ws-proxy-rs/src/crypto.rs:215-227 | patching leaves prekey and IV alone, and the patched octets decrypt to what was embedded |
| Crypto.EmbedKeepsPrefix | src-tauri/crates/tg-ws-proxy-rs/src/crypto.rs:188-201 | patching never turns a usable prefix into a reserved one |
| Crypto.GenerateRelayInit | src-tauri/crates/tg-ws-proxy-rs/src/crypto.rs:180-229 | the relay init has no reserved prefix and is a usable draw with tag, signed DC and padding embedded under its own key |
| Crypto.RelayInitReadsBack | src-tauri/crates/tg-ws-proxy-rs/src/crypto.rs:180-229 | decrypted under its own embedded key, a relay init gives the tag, absolute DC index and media sign it was made for |
| Crypto.PatchHandshake | src-tauri/crates/tg-ws-proxy-rs/src/crypto.rs:273-296 | the two patch loops over the zero-encrypted block produce the client handshake of the reference definition |
| Crypto.GenerateClientHandshake | src-tauri/crates/tg-ws-proxy-rs/src/crypto.rs:250-330 | the handshake is usable, and `enc`/`dec` stand exactly where the peer's `clt_dec`/`clt_enc` do: upward SHA-256 of octets 8 to 39 and the secret, 64 positions on; downward key octet i is octet 55 - i and IV octet i octet 23 - i, fresh |
| Crypto.BuildConnectionCiphers | src-tauri/crates/tg-ws-proxy-rs/src/crypto.rs:350-410 | client pair hashed with the secret, relay pair raw; each up-cipher 64 positions on with the 48 octets as they stand, each down-cipher fresh with octet 47 - i as key octet i and octet 15 - i as IV octet i |
| Crypto.SessionsAreKeyed | src-tauri/crates/tg-ws-proxy-rs/src/crypto.rs:350-410 | both kinds of session hold exactly these keys, for every 48 octets and every secret |
| Crypto.ParseInvertsGenerate | src-tauri/crates/tg-ws-proxy-rs/src/crypto.rs:123-157 | the parser inverts the generator for every secret, tag, signed DC index and random block |
| Crypto.ParsedByOctets | src-tauri/crates/tg-ws-proxy-rs/src/crypto.rs:123-157 | what a handshake or a relay init says, octet by octet: tag octets 56 to 59 all 0xef, 0xee or 0xdd, signed index in 60 and 61, decrypted under octets 8 to 39 and 40 to 55, hashed with the secret or raw |
| Crypto.TestDcs | src-tauri/crates/tg-ws-proxy-rs/src/proxy.rs:604-617 | a test connection is one that is forced or carries the offset of 10000, which is taken off again |
| Crypto.ResignNeverTruncates | src-tauri/crates/tg-ws-proxy-rs/src/proxy.rs:604-617 | for every handshake that parses, narrowing to i16 and re-signing gives the client's index with the test offset removed, never truncated |
| Splitter.HeaderIsLocal | src-tauri/crates/tg-ws-proxy-rs/src/splitter.rs:130-187 | a complete packet header announces the same length whatever follows |
| Splitter.CutIsPartition | src-tauri/crates/tg-ws-proxy-rs/src/splitter.rs:58-117 | the reference cut loses and reorders nothing |
| Splitter.CutGivesPackets | src-tauri/crates/tg-ws-proxy-rs/src/splitter.rs:58-117 | every part cut is one whole packet whose header announces its own length |
| Splitter.CutAfterPackets | src-tauri/crates/tg-ws-proxy-rs/src/splitter.rs:58-117 | whole packets in front of a stream are cut off one by one and do not affect the rest |
| Splitter.EncryptPartsConcat | src-tauri/crates/tg-ws-proxy-rs/src/splitter.rs:168-171 | message boundaries do not disturb the keystream |
| Splitter.EncryptPartsLengths | src-tauri/crates/tg-ws-proxy-rs/src/splitter.rs:168-171 | each part stays as long as it was |
| Packets.HeadIsRead | src-tauri/crates/tg-ws-proxy-rs/src/splitter.rs:130-187 | a header as a client writes it, in each of the six forms, announces exactly its payload, whatever follows; none ends the framing and more than 16 MiB is refused |
| Packets.WrittenComesBack | src-tauri/crates/tg-ws-proxy-rs/src/splitter.rs:58-117 | a stream of legal packets of any forms and sizes is cut into exactly these packets, and the beginning of a further one is kept back |
| Packets.OthersEndTheFraming | src-tauri/crates/tg-ws-proxy-rs/src/splitter.rs:72-117 | after such packets an oversize header is refused and an empty one ends the framing, whatever follows |
| Splitter.HeaderTaken | src-tauri/crates/tg-ws-proxy-rs/src/splitter.rs:130-166 | the four-octet header buffer, filled across reads, says exactly what the stream announces |
| Splitter.MsgSplitter.EncryptIntoPacket | src-tauri/crates/tg-ws-proxy-rs/src/splitter.rs:168-171 | the slice is encrypted where it lies and appended to the packet; cipher and plaintext accounting stay in step |
| Splitter.MsgSplitter.ReadHeader | src-tauri/crates/tg-ws-proxy-rs/src/splitter.rs:66-96 | a header cut across reads is completed octet by octet and acted on when complete |
| Splitter.MsgSplitter.FillPacket | src-tauri/crates/tg-ws-proxy-rs/src/splitter.rs:97-113 | a packet is filled up to its announced length and leaves exactly when whole |
| Splitter.MsgSplitter.SplitAndEncrypt | src-tauri/crates/tg-ws-proxy-rs/src/splitter.rs:58-117 | every chunking: the plaintext taken in grows by the read, the emitted parts are encrypted in order, and a read is refused exactly when the reference refuses the stream |
| Splitter.MsgSplitter.AgreesWithReference | src-tauri/crates/tg-ws-proxy-rs/src/splitter.rs:58-117 | after any reads the splitter has cut exactly where the reference cuts the whole stream |
| Splitter.MsgSplitter.Flush | src-tauri/crates/tg-ws-proxy-rs/src/splitter.rs:120-128 | emitted parts and the flushed rest together are the encryption of everything taken in |
| Splitter.MsgSplitter.FramedSoFar | src-tauri/crates/tg-ws-proxy-rs/src/splitter.rs:58-117 | while packets are framed, what has left the splitter is exactly the packets the reference cuts off the stream so far, encrypted |
| Splitter.CutGrows | src-tauri/crates/tg-ws-proxy-rs/src/splitter.rs:58-117 | more of a framed stream only adds packets behind those already cut |
| Splitter.RefusalLoses | src-tauri/crates/tg-ws-proxy-rs/src/splitter.rs:72-117 | when a read is refused, every packet completed by then has been sent exactly if the refused read itself completed none |
| Splitter.RefusalLosesPacket | src-tauri/crates/tg-ws-proxy-rs/src/splitter.rs:72-117 | an instance of that loss: one whole Intermediate packet and an oversize header in one read |
| Records.WriteAppData | src-tauri/crates/tg-ws-proxy-rs/src/faketls.rs:443-466 | the loop appends exactly the framed chunks of the data |
| Records.AppRecordOctets | src-tauri/crates/tg-ws-proxy-rs/src/faketls.rs:443-466 | a record of data: octets 23, 3, 3, the length most significant octet first, and the data |
| Records.ChunksPartition | src-tauri/crates/tg-ws-proxy-rs/src/faketls.rs:443-466 | ceil(n / 16384) chunks of 1 to 16384 octets that join to the data |
| Records.ReadAppData | src-tauri/crates/tg-ws-proxy-rs/src/faketls.rs:473-513 | one read returns the next Application Data payload, skipping ChangeCipherSpec; EOF and every malformed record read as 0 |
| Records.ReadSkipsOnly | src-tauri/crates/tg-ws-proxy-rs/src/faketls.rs:473-513 | a read passes over any ChangeCipherSpec records and takes a whole Application Data record; anything cut short, too long or of another kind is the end |
| Records.ReadRecordBytes | src-tauri/crates/tg-ws-proxy-rs/src/faketls.rs:361-378 | one whole record with its header, or none, and exactly it is consumed |
| Records.DrainServerHello | src-tauri/crates/tg-ws-proxy-rs/src/faketls.rs:390-435 | looks at 20 records at most; succeeds exactly when an Application Data record ends the well-formed ones, and leaves what follows it |
| Records.DrainSkipsOnly | src-tauri/crates/tg-ws-proxy-rs/src/faketls.rs:390-435 | it passes over handshake and ChangeCipherSpec records of version 3.3 while they are few enough, takes a whole Application Data record of that version, and fails on anything else |
| Records.NextAppOfStream | src-tauri/crates/tg-ws-proxy-rs/src/faketls.rs:473-513 | on any well-formed stream a read takes off exactly the next payload |
| Records.ReadAllCarried | src-tauri/crates/tg-ws-proxy-rs/src/faketls.rs:473-513 | repeated reads give exactly the octets the records carry |
| Records.RecordRoundTrip | src-tauri/crates/tg-ws-proxy-rs/src/faketls.rs:443-513 | whatever is written is read back exactly, with any fitting ChangeCipherSpec records slipped in between |
| Hello.BuildClientHello | src-tauri/crates/tg-ws-proxy-rs/src/faketls.rs:80-147 | pushing the fields one by one gives the record of the reference layout with a zero random |
| Hello.SignClientHello | src-tauri/crates/tg-ws-proxy-rs/src/faketls.rs:158-180 | in place: only `random` changes, to the MAC over the zeroed record with its last four octets masked by the timestamp |
| Hello.SignedIsAuthentic | src-tauri/crates/tg-ws-proxy-rs/src/faketls.rs:158-222 | a signed hello authenticates under the same secret, for every timestamp |
| Hello.SignedIsAccepted | src-tauri/crates/tg-ws-proxy-rs/src/faketls.rs:158-222 | a server that looks at the octets alone finds the MAC over the record with 11 to 42 zero in 11 to 38, and the clock under its last four octets |
| Hello.AcceptedIsSigned | src-tauri/crates/tg-ws-proxy-rs/src/faketls.rs:184-262 | whatever the parser accepts is one whole record with one whole ClientHello, carries that MAC, and its random is octets 11 to 42 |
| Hello.MacMatches | src-tauri/crates/tg-ws-proxy-rs/src/faketls.rs:216-222 | the exclusive-or comparison accepts exactly equal first 28 octets |
| Hello.ParseSni | src-tauri/crates/tg-ws-proxy-rs/src/faketls.rs:264-292 | the slice-advancing loop finds the host of the first usable server_name extension |
| Hello.ParseClientHello | src-tauri/crates/tg-ws-proxy-rs/src/faketls.rs:184-262 | accepts exactly framed, authentic records with a readable body, and returns its fields |
| Hello.ClientHelloRoundTrip | src-tauri/crates/tg-ws-proxy-rs/src/faketls.rs:80-292 | the parser returns the host name, session id, random and first cipher suite of a signed hello exactly when the host name has at most 65360 octets; a longer one is rejected |
| ClientHellos.HostIsFound | src-tauri/crates/tg-ws-proxy-rs/src/faketls.rs:264-292 | the host name is found wherever its extension stands, whatever extensions come before and whatever follows; without one there is none |
| ClientHellos.BodyIsRead | src-tauri/crates/tg-ws-proxy-rs/src/faketls.rs:224-262 | session id, first cipher suite and extensions come back from every body, whatever the lengths of its fields |
| ClientHellos.AnyHelloIsRead | src-tauri/crates/tg-ws-proxy-rs/src/faketls.rs:184-262 | the hello of any TLS client that fits a record is accepted exactly if it carries the MAC under our secret, and then its fields are what the client wrote |
| Hello.ClientHelloLengths | src-tauri/crates/tg-ws-proxy-rs/src/faketls.rs:80-147 | the hello is one record of kind 22 and version 3.1 with one ClientHello of version 3.3, and every nested length equals what follows it (RFC 5246, section 7.4.1.2; RFC 6066, section 3) |
| Hello.BuildServerHello | src-tauri/crates/tg-ws-proxy-rs/src/faketls.rs:294-336 | the flight is ServerHello, ChangeCipherSpec and a certificate of 1024 to 4115 octets; octets 11 to 42 pass the check of a client: the MAC over its random followed by the flight with these octets zero |
| Hello.ServerHelloLengths | src-tauri/crates/tg-ws-proxy-rs/src/faketls.rs:294-336 | the ServerHello answers with the random given, the session id and cipher suite of the client and the key share; all inner lengths are exact and its extensions tile their block (RFC 8446, section 4.1.3) |
| Hello.FlightDrainedExactly | src-tauri/crates/tg-ws-proxy-rs/src/faketls.rs:390-435 | draining takes exactly the flight off the stream and leaves every following octet |
| Inbound.PendingData.Read | src-tauri/crates/tg-ws-proxy-rs/src/proxy.rs:251-265 | pending octets are handed out once and in order for every buffer size; the record is released with its last octet |
| Inbound.FillHandshake | src-tauri/crates/tg-ws-proxy-rs/src/proxy.rs:378-400 | succeeds exactly when the records carry 64 octets; handshake, pending octets and what is still to come are the carried stream |
| Inbound.FindHello | src-tauri/crates/tg-ws-proxy-rs/src/proxy.rs:350-360 | the first secret that authenticates the hello wins |
| Inbound.TakeHello | src-tauri/crates/tg-ws-proxy-rs/src/proxy.rs:318-370 | a hello is taken exactly when it is a fitting record, authenticated by one of our secrets, for our domain; otherwise the verdict is that of `Rejection`, and a masked stranger has every octet read so far in hand |
| Inbound.RejectedByOctets | src-tauri/crates/tg-ws-proxy-rs/src/proxy.rs:318-345 | without a welcome hello: a first octet other than 22 is redirected, a record cut short or of more than 16640 octets gets nothing, any other whole record is masked |
| Inbound.RedirectsToDomain | src-tauri/crates/tg-ws-proxy-rs/src/proxy.rs:322-330 | a client that speaks no TLS gets status 301, the masking domain as location, no body and an empty line at the end |
| Inbound.AnswerHello | src-tauri/crates/tg-ws-proxy-rs/src/proxy.rs:372-376 | what is written is a flight any client drains exactly, and one that passes the check of the client that said hello |
| Inbound.AcceptInboundFakeTls | src-tauri/crates/tg-ws-proxy-rs/src/proxy.rs:310-401 | accepted exactly when the hello is welcome and a whole handshake follows; then nothing of the stream is lost, the flight drains exactly and passes the client's check under the first secret that authenticates the hello. A stranger gets the redirect, or nothing, or a beginning of what the masking site answers to a beginning of the stranger's own octets |
| Inbound.ProxyToMaskingDomain | src-tauri/crates/tg-ws-proxy-rs/src/proxy.rs:403-440 | the site gets the hello and what follows it, the client the site's answer, each from its beginning and in order |
| Inbound.ClientReader.Read | src-tauri/crates/tg-ws-proxy-rs/src/proxy.rs:269-280 | for every buffer size a read returns the next octets of the client stream, pending first, and 0 exactly at its end |
| Inbound.ClientWriter.WriteAll | src-tauri/crates/tg-ws-proxy-rs/src/proxy.rs:302-307 | plain or as records, the content sent grows by exactly the data |
| Inbound.ClientWriter.ClientReadsSent | src-tauri/crates/tg-ws-proxy-rs/src/proxy.rs:296-308 | a FakeTLS client that reads the records back gets exactly what was sent |
| Bridge.RecryptIsTransparent | src-tauri/crates/tg-ws-proxy-rs/src/proxy.rs:2018-2019 | decrypt-then-encrypt: whoever holds both cipher states sees the plaintext |
| Bridge.PumpStream | src-tauri/crates/tg-ws-proxy-rs/src/proxy.rs:2011-2049 | for every chunking the octets forwarded are the re-encryption of exactly the octets taken; all of them at EOF, which a session that nothing cuts off reaches |
| Bridge.UploadTunnel | src-tauri/crates/tg-ws-proxy-rs/src/proxy.rs:1613-1658 | one non-empty message per read; the messages join to the re-encrypted stream, all of it unless the session is cut off |
| Bridge.UploadPackets | src-tauri/crates/tg-ws-proxy-rs/src/proxy.rs:1613-1667 | at EOF or when idle the messages join to the re-encrypted stream, one per MTProto packet while framed; on a refused read exactly the packets complete before that read; when cut off a prefix; without interruption only EOF or a refusal ends it |
| Bridge.UploadTurn | src-tauri/crates/tg-ws-proxy-rs/src/proxy.rs:1613-1667 | one turn of that loop: idle and EOF flush the held rest, a refused read sends nothing, a failed send keeps a prefix |
| Bridge.WrittenPacketsArrive | src-tauri/crates/tg-ws-proxy-rs/src/proxy.rs:1613-1667 | for a client that writes legal packets, whatever their forms and however they were read: one message for each, and it is that packet encrypted |
| Bridge.DownloadWs | src-tauri/crates/tg-ws-proxy-rs/src/proxy.rs:1679-1698 | data frames are re-encrypted in order, control frames skipped, any other frame ends the session; all of it unless cut off |
| Bridge.DataFrames | src-tauri/crates/tg-ws-proxy-rs/src/proxy.rs:1679-1698 | Binary and Text frames are data, Ping and Pong are passed over, anything else is the end |
| Bridge.FindSecret | src-tauri/crates/tg-ws-proxy-rs/src/proxy.rs:588-602 | the first secret under which the handshake parses |
| Bridge.Prepare | src-tauri/crates/tg-ws-proxy-rs/src/proxy.rs:588-631 | what Telegram reads out of the relay init is the tag and signed DC the client asked for, and both cipher pairs are in the state of their peers |
| Bridge.UploadTcp | src-tauri/crates/tg-ws-proxy-rs/src/proxy.rs:1989-2028 | Telegram, holding only the 64 relay octets, decrypts exactly what the client meant: everything, if nothing interrupts |
| Bridge.UploadWs | src-tauri/crates/tg-ws-proxy-rs/src/proxy.rs:1600-1671 | the same through WebSocket messages in either framing; a session cut short delivers a prefix, a refused one the packets before the refused read |
| Bridge.ClientMeantPlain | src-tauri/crates/tg-ws-proxy-rs/src/proxy.rs:1613-1658 | the plaintext behind an honestly encrypted client stream is that plaintext |
| Bridge.FarEnds | src-tauri/crates/tg-ws-proxy-rs/src/crypto.rs:350-410 | what client and Telegram read and mean, octet by octet from the 64 octets alone: octet 8 + i upwards from position 64, octet 55 - i and 23 - i downwards from position 0 |
| Bridge.DownloadTcp | src-tauri/crates/tg-ws-proxy-rs/src/proxy.rs:2030-2049 | the client decrypts exactly what Telegram meant, for every chunking: everything, if nothing interrupts |
| Bridge.DownloadMessages | src-tauri/crates/tg-ws-proxy-rs/src/proxy.rs:1676-1698 | the same through WebSocket messages, however Telegram frames them |
| Bridge.SessionIsTransparent | src-tauri/crates/tg-ws-proxy-rs/src/proxy.rs:2011-2048 | both directions: what either end encrypts the other decrypts |
| Bridge.ConnectUpstream | src-tauri/crates/tg-ws-proxy-rs/src/proxy.rs:1730-1808 | succeeds exactly when the dial, both writes and the FakeTLS drain do; then the proxy parses the DC and tag we asked for and holds the mirror images of our ciphers, and its answer was drained exactly |
| Bridge.UploadRelay | src-tauri/crates/tg-ws-proxy-rs/src/proxy.rs:1866-1885 | the upstream proxy decrypts exactly what the client meant: everything, if nothing interrupts |
| Bridge.DownloadRelay | src-tauri/crates/tg-ws-proxy-rs/src/proxy.rs:1891-1938 | the client decrypts exactly what the upstream proxy encrypted for the client it took us for, plain or in records |
| Bridge.WholeRecordsFit | src-tauri/crates/tg-ws-proxy-rs/src/proxy.rs:1891-1901 | records of up to 2^14 + 256 octets are read whole in both directions |
| Serving.Admit | src-tauri/crates/tg-ws-proxy-rs/src/proxy.rs:553-631 | a client gets as far as a bridge exactly when it is let in and one of our secrets reads its handshake; reader, writer and ciphers then stand where a bridge needs them |
| Serving.BridgeTcp | src-tauri/crates/tg-ws-proxy-rs/src/proxy.rs:1952-2055 | both directions over the two sockets: relay init and exactly what the client meant on one, readable replies on the other |
| Serving.ServeTcp | src-tauri/crates/tg-ws-proxy-rs/src/proxy.rs:504-677 | a whole connection from accept to bridge, FakeTLS or plain: Telegram's socket gets the tag and DC the client asked for and exactly the plaintext it meant; behind the flight the client reads exactly what Telegram meant |
| Serving.ClientReadsBack | src-tauri/crates/tg-ws-proxy-rs/src/proxy.rs:296-308 | whatever a bridge sends after the handshake flight, a client that drains the flight reads it back |
| RouteHealth.OnRecordIffStillIn | src-tauri/crates/tg-ws-proxy-rs/src/proxy.rs:135-155 | an address is on record exactly if some entry of it was never followed by a plain success with it or a reset |
| RouteHealth.ShortYetNotProbing | src-tauri/crates/tg-ws-proxy-rs/src/proxy.rs:1333-1437 | an attempt that does not count as a probe dials on the short clock of one exactly when another connection set the cooldown of its DC between the two readings |
| RouteHealth.ShortEntries | src-tauri/crates/tg-ws-proxy-rs/src/proxy.rs:1333-1437 | so, over whole runs, which addresses were put away by a short dial |
| RouteHealth.ShortEntryHappens | src-tauri/crates/tg-ws-proxy-rs/src/proxy.rs:1333-1437 | and a run in which one is |
| RouteHealth.Health.CoolingMeans | src-tauri/crates/tg-ws-proxy-rs/src/proxy.rs:1359-1381 | over whole runs: an address on record got there by a TCP connect timeout of an attempt that did not count as a probe, and nothing has revoked it since |
| RouteHealth.Health.CoolDownIp | src-tauri/crates/tg-ws-proxy-rs/src/proxy.rs:1519-1529 | callable only with a connect timeout of an attempt whose first reading found no cooldown; only this address changes |
| RouteHealth.Health.ClearIp | src-tauri/crates/tg-ws-proxy-rs/src/proxy.rs:1354-1357 | callable only with a plain direct success; only this address changes |
| RouteHealth.Health.ResetRouteHealth | src-tauri/crates/tg-ws-proxy-rs/src/proxy.rs:196-204 | every cooldown and counter is cleared |
| RouteHealth.Health.ActivateFronting | src-tauri/crates/tg-ws-proxy-rs/src/runtime.rs:94-96 | the window runs from now, so it is active exactly for a positive duration |
| RouteHealth.Health.Others | src-tauri/crates/tg-ws-proxy-rs/src/proxy.rs:128-169 | whatever the other connections do between any two readings or writings of one connection, every change to the cooling addresses stays justified |
| RouteHealth.CooldownRuns | src-tauri/crates/tg-ws-proxy-rs/src/proxy.rs:128-169 | a cooldown runs from its setting for its duration and no longer; clearing ends it; neither touches another key |
| RouteHealth.Health.WorkerOffset | src-tauri/crates/tg-ws-proxy-rs/src/proxy.rs:217-224 | no balancing starts at 0 and leaves the counter; balancing takes the counter modulo n and advances it once |
| RouteHealth.RotationOnce | src-tauri/crates/tg-ws-proxy-rs/src/proxy.rs:226-228 | a rotation visits no domain twice |
| RouteHealth.RotationFinds | src-tauri/crates/tg-ws-proxy-rs/src/proxy.rs:226-228 | and comes past every one |
| RouteHealth.RotationSteps | src-tauri/crates/tg-ws-proxy-rs/src/proxy.rs:226-228 | it begins at the offset and goes one further each time, round the end to the front |
| Ladder.Route.TryWorker | src-tauri/crates/tg-ws-proxy-rs/src/proxy.rs:1130-1191 | a Worker is dialled exactly when its cooldown is not running, at the built-in address; success clears and failure starts its cooldown |
| Ladder.Route.CfWorker | src-tauri/crates/tg-ws-proxy-rs/src/proxy.rs:1092-1195 | pool first (never for test DCs), then once round the rotation until one answers; a Worker that was dialled, and only such a one, earns a spare |
| Ladder.Route.WorkerRotation | src-tauri/crates/tg-ws-proxy-rs/src/proxy.rs:1058-1083 | the spare goes through the Worker that answered; with balancing, and left alone, through the one after the first of the rotation |
| Ladder.Route.CfProxy | src-tauri/crates/tg-ws-proxy-rs/src/proxy.rs:1206-1267 | absent exactly for test DCs and without domains; otherwise pool, then one walk over the records of the domain snapshot; a record that answers, and only that, earns a spare |
| Ladder.SpareReachesDc | src-tauri/crates/tg-ws-proxy-rs/src/pool.rs:566-596 | the spare of the Cloudflare proxy is opened at a record of the DC when balancing is off, and at a bare domain that is none when it is on |
| Ladder.SpareMissesDc | src-tauri/crates/tg-ws-proxy-rs/src/proxy.rs:1067-1074 | such a spare: one configured domain, balancing on |
| CfRecords.Connect | src-tauri/crates/tg-ws-proxy-rs/src/ws_client.rs:729-785 | for any outcomes the loop dials the hosts of the reference walk, in order, and comes to what it does: nothing exactly if none of its attempts answered, else the host of the one that did; all redirects exactly if every attempt was one or was retried at its base |
| CfRecords.CfAttempts.NextDomain | src-tauri/crates/tg-ws-proxy-rs/src/ws_client.rs:606-636 | a queued base record first, then the next turn of a name not seen before |
| CfRecords.CfAttempts.RetryBaseOf | src-tauri/crates/tg-ws-proxy-rs/src/ws_client.rs:646-661 | queues, and names, the base record of the same domain exactly after a `-1` attempt whose base has not timed out |
| CfRecords.BaseOfDashOne | src-tauri/crates/tg-ws-proxy-rs/src/ws_client.rs:536-540 | replacing the first "-1." of a `-1` host name gives the base host name of the same domain, whatever the domain is called |
| CfRecords.NoHostOften | src-tauri/crates/tg-ws-proxy-rs/src/ws_client.rs:542-563 | no host is dialled three times in one walk, and none but a base record twice: once in its turn and once forced |
| CfRecords.EveryHostDialled | src-tauri/crates/tg-ws-proxy-rs/src/ws_client.rs:666-670 | where nothing answers, both records of every configured domain have been dialled in their turn |
| CfRecords.WalkStartsAt | src-tauri/crates/tg-ws-proxy-rs/src/ws_client.rs:542-563 | the first attempt is at the domain the balancing picks, at its `-1` record for a media DC and at the base record otherwise |
| CfRecords.QuietWalk | src-tauri/crates/tg-ws-proxy-rs/src/ws_client.rs:542-563 | a walk on which every attempt just fails, over different names: once round from the first domain, two attempts for each, the `-1` record first for a media DC and last otherwise |
| CfRecords.HostnameExamples | src-tauri/crates/tg-ws-proxy-rs/src/ws_client.rs:513-531 | kws2.x.org and kws2-1.x.org |
| CfRecords.ForcedExactlyWhen | src-tauri/crates/tg-ws-proxy-rs/src/ws_client.rs:542-563 | the forced attempt follows a `-1` attempt exactly if that record was missing and the base had not timed out before, for media and other DCs alike |
| CfRecords.LateAgainExactlyWhen | src-tauri/crates/tg-ws-proxy-rs/src/ws_client.rs:573-575 | a record that ran out the clock is dialled again exactly if it was the forced attempt of a media DC |
| CfRecords.LateAgain | src-tauri/crates/tg-ws-proxy-rs/src/ws_client.rs:573-575 | such a walk: missing, timed out, dialled again |
| Ladder.Route.TryProxy | src-tauri/crates/tg-ws-proxy-rs/src/proxy.rs:1271-1310 | the same discipline for one upstream proxy |
| Ladder.Route.UpstreamProxies | src-tauri/crates/tg-ws-proxy-rs/src/proxy.rs:1270-1314 | the proxies are walked once, in the configured order, until one answers |
| Ladder.Route.CfTiers | src-tauri/crates/tg-ws-proxy-rs/src/proxy.rs:1026-1038 | Worker tunnel first, then the Cloudflare proxy |
| Ladder.Route.FallbackChain | src-tauri/crates/tg-ws-proxy-rs/src/proxy.rs:1011-1017 | the Cloudflare tiers unless skipped, then the upstream proxies |
| Ladder.Route.DirectWebSocket | src-tauri/crates/tg-ws-proxy-rs/src/proxy.rs:1318-1382 | sticky or plain attempt as the window says, at most one fronted retry, and the whole effect on every cooldown, lock by lock, including when the address itself is put aside |
| Ladder.Route.TryDirect | src-tauri/crates/tg-ws-proxy-rs/src/proxy.rs:1333-1348 | the two readings of the cooldown, each of what was on record when it was made |
| Ladder.Route.CoolDown | src-tauri/crates/tg-ws-proxy-rs/src/proxy.rs:1486-1529 | a failed attempt starts the cooldown of its DC, and puts the address away exactly on a connect timeout outside a probe |
| Ladder.Route.ReactiveFronting | src-tauri/crates/tg-ws-proxy-rs/src/proxy.rs:1393-1428 | retried exactly after a stalled upgrade, outside the fronting cooldown, with a fronting domain |
| Ladder.Route.SelectForTarget | src-tauri/crates/tg-ws-proxy-rs/src/proxy.rs:885-1002 | for a configured address the code walks the plan for the cooling state it found |
| Ladder.Route.SelectUpstream | src-tauri/crates/tg-ws-proxy-rs/src/proxy.rs:847-1003 | no upstream exactly when there is no address, neither configured nor built in; otherwise the connection is a legal walk of the plan of its situation |
| Ladder.AlwaysAnUpstream | src-tauri/crates/tg-ws-proxy-rs/src/proxy.rs:847-1003 | every walk of a plan yields an upstream; raw TCP, to the built-in address where there is one, only after every rung above was given up |
| Ladder.AboveIsGivenUp | src-tauri/crates/tg-ws-proxy-rs/src/proxy.rs:847-1038 | a rung is set foot on only when every place of every rung above it was tried or cooling and nothing answered |
| Ladder.NothingTwice | src-tauri/crates/tg-ws-proxy-rs/src/proxy.rs:847-1038 | direct path, each Worker, the Cloudflare proxy, each upstream proxy and each pool are turned to at most once per connection |
| Ladder.LastStepServes | src-tauri/crates/tg-ws-proxy-rs/src/proxy.rs:847-1038 | the upstream is what the very last step found; no earlier step found anything |
| Ladder.TunnelIffWorker | src-tauri/crates/tg-ws-proxy-rs/src/proxy.rs:1026-1038 | Tunnel framing exactly when a Worker serves, an MTProto upstream exactly when an upstream proxy does |
| Ladder.CoolingAddressIsLast | src-tauri/crates/tg-ws-proxy-rs/src/proxy.rs:893-957 | a cooling address is dialled only after a pool miss and after Workers, Cloudflare proxy and upstream proxies were all given up |
| Ladder.CheckDecides | src-tauri/crates/tg-ws-proxy-rs/src/proxy.rs:893-907 | a walk steps over its address exactly if the cooldown it read is running and a Worker, an upstream proxy or a Cloudflare domain is there |
| Ladder.RunningCooldownIsRespected | src-tauri/crates/tg-ws-proxy-rs/src/proxy.rs:893-957 | so while the cooldown of the address runs and any of the three is there, the address is dialled only after pool, Workers, Cloudflare proxy and upstream proxies were given up |
| Ladder.StepsInOrder | src-tauri/crates/tg-ws-proxy-rs/src/proxy.rs:847-1038 | for every configuration: what each step of a walk comes after, told by the steps themselves and not by the plan |
| Ladder.AddressesUsed | src-tauri/crates/tg-ws-proxy-rs/src/proxy.rs:847-1038 | the configured address by the direct path; Workers and raw TCP go to the built-in one where there is one and this is no test DC |
| Ladder.FrontedRetryOnce | src-tauri/crates/tg-ws-proxy-rs/src/proxy.rs:1393-1428 | at most one fronted retry per connection, only after a plain attempt whose upgrade stalled, outside the fronting cooldown |
| Ladder.TierFacts | src-tauri/crates/tg-ws-proxy-rs/src/proxy.rs:1005-1428 | each rung by itself: only its last step serves, no place twice, and it is left only when exhausted |
| Limits.CapFitsBudget | src-tauri/crates/tg-ws-proxy-rs/src/limits.rs:77-101 | 512 connections without a limit; otherwise the computed cap keeps the worst case within the limit exactly when the limit has room for the minimum of four connections, and is then the largest that does |
| Buckets.DelayShape | src-tauri/crates/tg-ws-proxy-rs/src/pool.rs:501-517 | min(2^min(k-1,12), 3600) s: one second first, doubling, monotone, capped, no shift overflow |
| Buckets.TakeFreshestTakesLastUsable | src-tauri/crates/tg-ws-proxy-rs/src/pool.rs:206-222 | a hit is the last usable entry; everything behind it was stale or closed and is dropped |
| Buckets.RetainedKeepsGood | src-tauri/crates/tg-ws-proxy-rs/src/pool.rs:382-394 | pruning keeps every entry that is young and open, each as often, in their order, and nothing else |
| Buckets.TakesLastGood | src-tauri/crates/tg-ws-proxy-rs/src/pool.rs:206-222 | the hit is the last entry that is young and open; there is none exactly if no such entry is there |
| Buckets.TakeAfterPrune | src-tauri/crates/tg-ws-proxy-rs/src/pool.rs:382-394 | pruning first makes no difference to what is handed out at the same moment |
| Buckets.LandedFills | src-tauri/crates/tg-ws-proxy-rs/src/pool.rs:477-490 | what is there stays; connections land from the first on, until the bucket is full or none is left |
| Pool.WsPool.Bounds | src-tauri/crates/tg-ws-proxy-rs/src/pool.rs:119-155 | the bounds of the protocols hold of the object, whoever has used it: descriptors of a bucket within twice the pool size, one refill exactly while marked |
| Pool.WsPool.PopFresh | src-tauri/crates/tg-ws-proxy-rs/src/pool.rs:193-222 | under its lock: moves the bucket as the take step of the protocol, and hands out the last connection that is young and open |
| Pool.WsPool.Prune | src-tauri/crates/tg-ws-proxy-rs/src/pool.rs:382-394 | moves the bucket as the prune step: what is left are exactly its young and open connections in their order, and the next take gets what it would have got; says whether the bucket is short |
| Pool.WsPool.PassDeadline | src-tauri/crates/tg-ws-proxy-rs/src/pool.rs:437-444 | refuses exactly under a deadline that stands, changing nothing; else forgets it, and the caller may reserve |
| Pool.WsPool.Reserve | src-tauri/crates/tg-ws-proxy-rs/src/pool.rs:446 | by a caller that has passed: spawns exactly if the bucket is unmarked, as the reserve step |
| Pool.WsPool.Needed | src-tauri/crates/tg-ws-proxy-rs/src/pool.rs:460-469 | the look at the bucket moves the refill task to dialling that many connections, or to its end if the bucket is full |
| Pool.WsPool.CountFailure | src-tauri/crates/tg-ws-proxy-rs/src/pool.rs:501-508 | one more failure in a row, saturating, taken along to the second lock |
| Pool.WsPool.SetDeadline | src-tauri/crates/tg-ws-proxy-rs/src/pool.rs:508-517 | the deadline of the count taken along, 1000 ms for each second of the delay, as the protocol step |
| Pool.WsPool.LandRefill | src-tauri/crates/tg-ws-proxy-rs/src/pool.rs:477-490 | the landing step: connections land in order while there is room, the surplus is dropped |
| Pool.WsPool.LandWarmup | src-tauri/crates/tg-ws-proxy-rs/src/pool.rs:355-365 | warmup pushes everything it opened behind what is there, without looking again |
| Pool.WsPool.ReleaseGuard | src-tauri/crates/tg-ws-proxy-rs/src/pool.rs:151-155 | the guard ends the task and unmarks the bucket, as the release step |
| Pool.WsPool.ReportSuccess | src-tauri/crates/tg-ws-proxy-rs/src/pool.rs:414-418 | failures and deadline are forgotten under two locks, with the others in between |
| Pool.WsPool.ScheduleRefill | src-tauri/crates/tg-ws-proxy-rs/src/pool.rs:422-446 | off, too soon, busy or spawned exactly as the pool size, the deadline at the first lock and the mark at the second say |
| Pool.WsPool.Get | src-tauri/crates/tg-ws-proxy-rs/src/pool.rs:193-256 | lock by lock among the others: the freshest usable connection, a success report on a hit, a refill scheduled when allowed; left alone, a refill is spawned exactly when pooling is on, none is in flight and no deadline blocks |
| Pool.WsPool.ReportRefillFailure | src-tauri/crates/tg-ws-proxy-rs/src/pool.rs:501-517 | counted at the first lock, the deadline of that count set at the second, whatever the others do |
| Pool.WsPool.RefillReserved | src-tauri/crates/tg-ws-proxy-rs/src/pool.rs:452-499 | the refill task among the others: however its dials turn out, it ends with its bucket unmarked |
| Pool.WsPool.ConnectBatch | src-tauri/crates/tg-ws-proxy-rs/src/pool.rs:598-650 | up to two attempts at a time until one fails or all are back |
| Pool.WsPool.Others | src-tauri/crates/tg-ws-proxy-rs/src/pool.rs:119-155 | any number of critical sections of any other callers: the history stays a run, and what a caller has begun stays its own |
| Pool.WsPool.CfGet | src-tauri/crates/tg-ws-proxy-rs/src/pool.rs:264-309 | the last spare that is open and not older than 100 s, and its replacement is scheduled exactly on a hit |
| Pool.WsPool.CfPrefetch | src-tauri/crates/tg-ws-proxy-rs/src/pool.rs:316-333 | at most one background connect per key, as the prefetch step |
| Pool.WsPool.CfLand | src-tauri/crates/tg-ws-proxy-rs/src/pool.rs:543-563 | a connection lands only while the bucket is below its budget, as the landing step |
| PoolProtocol.StepKeepsInv | src-tauri/crates/tg-ws-proxy-rs/src/pool.rs:193-499 | every critical section and every await of every client, refill task, warmup and maintenance keeps the protocol invariant |
| PoolProtocol.WalkKeepsInv | src-tauri/crates/tg-ws-proxy-rs/src/pool.rs:193-499 | so does every interleaving of any length |
| PoolProtocol.BucketBounds | src-tauri/crates/tg-ws-proxy-rs/src/pool.rs:336-499 | one refill in flight per key, exactly while the key is marked; idle plus refill within the pool size until warmup lands; everything within twice the pool size always |
| PoolProtocol.OnlyDialsOpen | src-tauri/crates/tg-ws-proxy-rs/src/pool.rs:598-650 | what is counted there are the descriptors: starting a dial opens one, its success changes nothing, its failure ends exactly those in flight, and only handing out, pruning, landing or dropping a task closes any other |
| PoolProtocol.BoundIsReached | src-tauri/crates/tg-ws-proxy-rs/src/pool.rs:355-365 | for every pool size and every set of buckets there is a run in which each bucket holds twice the pool size at once |
| PoolProtocol.PoolBound | src-tauri/crates/tg-ws-proxy-rs/src/pool.rs:336-499 | all buckets together within twice the pool size each, with equality in such a run |
| PoolProtocol.BackoffOfWalk | src-tauri/crates/tg-ws-proxy-rs/src/pool.rs:501-517 | over every run the failure count is that of the failures since the last success, and the deadline that of the last failure report unless something cleared it since |
| PoolProtocol.DeadlineStands | src-tauri/crates/tg-ws-proxy-rs/src/pool.rs:437-446 | a deadline is on record exactly if some failure report was followed by nothing that clears it |
| PoolProtocol.ReservationRespectsDeadline | src-tauri/crates/tg-ws-proxy-rs/src/pool.rs:437-446 | a reservation by a caller that passed its check at some moment is made with a deadline on record exactly if a failure was reported after that moment and nothing cleared it |
| PoolProtocol.DeadlineRace | src-tauri/crates/tg-ws-proxy-rs/src/pool.rs:437-446 | that gap is real for every pool size: a run in which a reservation is made under a fresh deadline |
| CfProtocol.StepKeepsInv | src-tauri/crates/tg-ws-proxy-rs/src/pool.rs:264-333 | the Cloudflare side keeps its invariant at every step |
| CfProtocol.CfBucketBounds | src-tauri/crates/tg-ws-proxy-rs/src/pool.rs:526-564 | one background connect per key, exactly while marked; idle plus in flight within min(1, pool size) |
| CfProtocol.OnlyChecksOpen | src-tauri/crates/tg-ws-proxy-rs/src/pool.rs:526-564 | the same of the Cloudflare side: only the check that finds room opens a connection |
| CfProtocol.CfBoundIsReached | src-tauri/crates/tg-ws-proxy-rs/src/pool.rs:526-564 | and every bucket can hold that much at once |
| Budget.StaysWithinIff | src-tauri/crates/tg-ws-proxy-rs/src/limits.rs:77-101 | a cap is safe over all runs of both sides of the pool exactly if the worst case with the Cloudflare spares fits |
| Budget.BudgetHoldsIff | src-tauri/crates/tg-ws-proxy-rs/src/limits.rs:77-101 | for a finite limit with room for four connections the computed cap is safe exactly if the Cloudflare spares fit into the descriptor that halving may leave over |
| Budget.BudgetHolds | src-tauri/crates/tg-ws-proxy-rs/src/limits.rs:77-101 | without Cloudflare buckets it always is |
| Budget.OvershootHappens | src-tauri/crates/tg-ws-proxy-rs/src/limits.rs:77-101 | one DC with its media bucket and one Cloudflare bucket: limit 45, cap 4, 46 descriptors held |
| WinArgs.QuoteWinArg | src-tauri/src/service.rs:483-514 | the backslash-counting loop prints the quoted form |
| WinArgs.PlainStaysPlain | src-tauri/src/service.rs:483-487 | an argument is printed as it stands exactly if it is not empty and has neither white space nor a quote |
| WinArgs.BuildServiceCmdline | src-tauri/src/service.rs:467-477 | the line is the quoted program and each quoted argument after a space |
| WinArgs.ScanEscaped | src-tauri/src/service.rs:483-514 | the parser, reading the escaped text with the same pending backslashes, gives back the text |
| WinArgs.CommandLineRoundTrip | src-tauri/src/service.rs:467-514 | for every list of arguments the line parses back to the program and exactly that list, precisely when the program path has no quote |
| Ipset.Heal | src-tauri/src/tester.rs:347-373 | heals exactly when a backup is seen and copied and live is blank, absent or not seen; no protected list is lost at any moment |
| Ipset.HealRestores | src-tauri/src/tester.rs:347-373 | from every safe state a heal whose operations succeed has the list in place |
| Ipset.SpacesAre | src-tauri/src/tester.rs:352-355 | white space here is space, tab, line feed, form feed and carriage return |
| Ipset.BlankIs | src-tauri/src/tester.rs:352-355 | a list is blank if it consists of white space only |
| Ipset.HealOverwritesExactlyWhen | src-tauri/src/tester.rs:347-373 | a non-blank live list is overwritten exactly when a different backup lies beside it, the probe misses the live file and the rest works |
| Ipset.StaleBackupCanWin | src-tauri/src/tester.rs:352-358 | such a case: an old backup replaces a new list |
| Ipset.WriteRetry | src-tauri/src/tester.rs:332-342 | tries up to three times, gives up after exactly three, and then the file is as it was |
| Ipset.ActivateOne | src-tauri/src/tester.rs:385-396 | a list is emptied only with its backup in place; what cannot be read or written stays |
| Ipset.Activate | src-tauri/src/tester.rs:383-398 | the guard holds only lists it can put back, and all of them when nothing fails |
| Ipset.DropGuard | src-tauri/src/tester.rs:400-428 | lists are put back and backups removed; a failed copy keeps its backup |
| Ipset.Campaign | src-tauri/src/tester.rs:326-428 | any number of runs, any operation failing, a crash at any moment: no list is ever lost, and one successful heal has every list back |
| Telegram.StepKeepsInv | src-tauri/src/telegram.rs:46-160 | every critical section of start, stop and completion keeps the invariant |
| Telegram.RunKeepsInv | src-tauri/src/telegram.rs:46-160 | so does every interleaving, overlapping starts included |
| Telegram.AtMostOneUntold | src-tauri/src/telegram.rs:46-160 | every live server task but the one whose sender is held has been told to stop |
| Telegram.RunningMeansCurrentIsLive | src-tauri/src/telegram.rs:36-44 | `running` implies that the task of the current epoch has not completed |
| Telegram.OlderCompletionIsSilent | src-tauri/src/telegram.rs:137-160 | completion of an older task changes no shared state, exactly unless a multiple of 2^64 starts came in between |
| Telegram.StopTellsAll | src-tauri/src/telegram.rs:46-54 | after a stop nothing runs, no error is left and every live task has been told |
| Telegram.TgState.BeginStart | src-tauri/src/telegram.rs:69-75 | refused exactly while a sender is held; otherwise takes the completion channel and changes nothing else |
| Telegram.TgState.FinishStart | src-tauri/src/telegram.rs:109-117 | a new epoch replaces sender, error and completion channel; a replaced sender tells its task |
| Telegram.TgState.StopBridge | src-tauri/src/telegram.rs:46-54 | the held sender is used up and the error cleared |
| Telegram.TgState.TaskEnded | src-tauri/src/telegram.rs:137-160 | shared state changes only under the task's own epoch |
| Calendar.CivilIsGregorian | src-tauri/src/logger.rs:228-239 | day 0 is 1970-01-01, every day a valid date and each next day the next Gregorian date, for all integers |
| Calendar.StampsIncrease | src-tauri/src/logger.rs:209-225 | the stamp fields are in range and lexicographically strictly increasing in milliseconds |
| LogRing.Logger.Log | src-tauri/src/logger.rs:105-133 | the ring holds the newest 1500 entries, numbered consecutively from 1 |
| LogRing.CutKeepsTheBeginning | src-tauri/src/logger.rs:105-133 | a message of up to 4000 characters is kept as it is; of a longer one the first 4000, and then how many are missing |
| LogRing.Logger.Entries | src-tauri/src/logger.rs:242-245 | exactly the entries above the given number that the ring still holds, oldest first |
| LogRing.PollingLosesNothing | src-tauri/src/logger.rs:242-245 | a polling reader misses nothing exactly as long as at most 1500 entries come between two polls |
| LogRing.LogFile.WriteLine | src-tauri/src/logger.rs:150-198 | rotated exactly when 1 MiB has no room for the line and, after a rotation in vain, the file has grown by 256 KiB; otherwise the line is appended to what is there |
| LogRing.SpacedBound | src-tauri/src/logger.rs:150-155 | so the number of vain rotations is bounded by the growth of the file |
| Text.SplitJoin | src-tauri/src/profiles.rs:222-250 | splitting undoes joining when no part holds the separator |
| Text.ParsePrinted | src-tauri/src/profiles.rs:222-250 | a printed number parses as itself, for every u32 |
| Text.TrimDrops | src-tauri/src/profiles.rs:222-250 | trimming takes off exactly the white space around a text |
| Text.SpacesAre | src-tauri/src/profiles.rs:222-250 | white space are the 25 characters of the Unicode property White_Space |
| Text.ParseSigned | src-tauri/src/profiles.rs:222-250 | one leading plus sign is passed over; a minus sign, a second plus or a sign alone is no number |
| Text.ParseDigits | src-tauri/src/profiles.rs:222-250 | digits, leading zeros among them, are a number exactly up to 2^32 - 1 |
| Ports.ValidatePortRange | src-tauri/src/profiles.rs:222-250 | accepts exactly texts that denote at least one range and no bad item, and prints the denoted ranges |
| Ports.NormaliserKeepsMeaning | src-tauri/src/profiles.rs:222-250 | the normalised text denotes the same ranges, all within 1..65535 in order, and is a fixed point |
| Ports.ItemIsRead | src-tauri/src/profiles.rs:222-250 | one item with any white space around its ports and its dash is read as the range it says, or rejected exactly if that is none |
| Ports.WrittenIsAccepted | src-tauri/src/profiles.rs:222-250 | a list of such items, empty ones among them, is accepted exactly if it has some range and all are within 1..65535 in order, and means these ranges |
| Ports.GameFilterPorts | src-tauri/src/profiles.rs:254-264 | both results are always acceptable, with the meaning of the input where it had one and the stated defaults elsewhere |

## Left out

- Bridge.PumpStream: a write succeeds whole or the session has ended; octets of a failed write are not modelled.
- ClientHellos.HostIsFound: a server_name list of one entry; of a longer list the parser looks at the first only.
- Inbound.AcceptInboundFakeTls: writes do not fail, and the masking site's answer is an input.
- Bridge.UploadTcp: the TCP connect is an oracle that has already succeeded.
- Crypto.DrawUsable: that the random source ever yields a usable draw is an assumption of the callers (`SomeUsable`); so are the random octets themselves.
- Hello.BuildClientHello: length sums wrap as in a release build; a debug build would panic on them for host names near 65536 octets.
- Serving.ServeTcp: the TCP bridge; the WebSocket bridge and the relay to an upstream proxy have their own members in `Bridge`.
- Ladder.CoolingAddressIsLast: the dials of the connection itself; a refill that its pool lookup reserves is dialled in the background, outside the walk.
- Ladder.Route.TryDirect: the walk over the two direct host names is one oracle answer with its four flags.
- Ladder.Route.DirectWebSocket: `report_success` towards the pool is modelled in `Pool`, not here.
- PoolProtocol.StepKeepsInv: the limit of two warmup buckets at once is not imposed, which only allows more interleavings.
- Pool.WsPool.ConnectBatch: the fronting domain the batch dials through, and its timeout.
- Ipset.Heal: copies and writes are all or nothing, and no concurrent `sync_ipset` runs.
- Telegram.TgState.FinishStart: `listen` and `port` are not modelled, since the bind callback is not guarded by the epoch (telegram.rs:127-133); nor are the waiting for the previous task and the timeouts.
- LogRing.LogFile.WriteLine: lengths of the log file, not its contents; `msg` reaches `LogRing.Logger.Log` trimmed and the level normalised.
- Calendar.StampsIncrease: the fields, not their decimal padding.
- Strength of SHA-256, HMAC and AES.
- Timeouts, keepalive, idle reaping, socket options, statistics, log texts.
- `server.rs`, `stats.rs`, `config.rs`, `outbound/*`, and `ws_client.rs` but for the walk over the Cloudflare records: dialling is an oracle.
- PROXY protocol headers in front of the handshake (proxy.rs:2177-2223).
- `summarize`, `group_ok` and the domain classification of the strategy tester: sorting by a comparator and tables, easy members.
- The batch-file tokenizer and variable expansion of profiles.rs.
- Restoring the list a mode switch wants after a test: the guard outlives `sync_ipset`.
- The user interface, Tauri commands, scripts, DNS, downloads and WinAPI calls.
