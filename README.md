# obfsplugin obfuscators in Dafny

This project models the per-connection obfuscation state machines of the
shadowsocks `obfsplugin` package. They wrap an already-encrypted stream so
that it looks like another protocol on the wire:

- `mysql_simple` frames payloads as MySQL packets. Each packet has a 4-byte
  little-endian header: the low 3 bytes are the length and the top byte is a
  packet number.
- `tls_simple` exchanges a fixed-shape TLS 1.0 ClientHello and ServerHello,
  then passes bytes through unchanged.
- `tls_auth` (`tls1.0_session_auth`) puts a 32-byte auth tag (BE32 time,
  18 random bytes, 10-byte truncated HMAC) in the ClientHello random field.
  The server checks the clock window, the HMAC and a shared replay cache.
  Both sides then exchange an HMAC-closed ChangeCipherSpec + Finished flight.
- `tls_ticket_auth` (`tls1.2_ticket_auth`) does the same over TLS 1.2, with
  an SNI extension and a 208-byte session-ticket blob. It runs an explicit
  `handshake_status` machine (0, 1, 2, 3, 8, -1). In state 8 every payload
  travels in application-data records of at most 8192 bytes.
- `obfs_auth_data` is the per-server context shared by the authenticated
  variants: a random 32-byte id, a backdated startup time and the replay
  cache.

Modules:

- `Wire` (`wire.dfy`): bytes, big-endian fields, the prefix test, signed
  32-bit reinterpretation, and the error and fallback results.
- `TlsWire` (`tls_wire.dfy`): TLS record and handshake framing, the auth
  tag, ClientHello parsing, the time/HMAC/replay predicates, and the Finished
  flight and server flight.
- `AuthState` (`auth_data.dfy`): the shared context as a class, plus the
  hello verdict.
- `MysqlSimple`, `TlsSimple`, `TlsAuth` and `TlsTicket`: one class per
  obfuscator. The class fields are the source's fields, and each
  encode/decode method states its result and its whole new state.

Loops in the source are `while` loops here, proved against a specification
function on the buffer. These are the MySQL frame loop (`Release`), the
ticket record loop (`Reassemble`) and the ticket chunking loop (`Sealed`).
Lemmas then relate those functions to their inverses.

Some behaviour is supplied from outside the model rather than computed:

- Randomness (`os.urandom`) and the clock (`time.time()`) are parameters
  of the methods that use them.
- HMAC-SHA1 truncated to 10 bytes is a total function `Mac` given to the
  constructor.
- Every exception the source lets escape becomes `Err(...)`: `struct.error`
  on short or oversized fields, `IndexError` on an empty slice, and the
  explicit "data error" raises.

Some behaviours of the code may surprise a reader; the model follows the
code in each of them:

- **MySQL packet number does not wrap.** The packet number is OR-ed into
  bits 24..31 and never wraps at 256. From 256 on, `struct.pack` fails
  (`MysqlSimple.Header`).
- **MySQL release needs one extra byte.** A frame is released only when the
  buffer is strictly longer than the frame (`>=` break), so a frame that
  exactly fills the buffer stays buffered (`MysqlSimple.ExactFrameHeld`).
- **Every MySQL release resets the send counter.** The server resets the
  send counter on every released frame, not only on the first one.
- **SNI host rule checks the last character.** A host is sent as the empty
  name when its last character is a digit, not only when it is all digits
  (`TlsTicket.SniHost`).
- **Replay test checks truthiness.** The replay test looks at the truthiness
  of the stored session id, not just the key's presence. A session id that
  came out empty is stored, and a second hello with the same tag prefix is
  then not detected as a replay (`TlsWire.Replayed`).
- **Ticket strict fallback is unreachable.** The ticket variant tests for
  the strict method name `tls1.2_session_auth`. No registered name is
  spelled that way (the registered ones are `tls1.2_ticket_auth` and
  `tls1.2_ticket_auth_compatible`), so in practice its fallback is always
  the compatible one.
- **`tls_simple` compatible fallback drops header bytes.** It hands on the
  buffer as already sliced at the failing check, so it can drop 3, 5 or
  7 leading bytes. The authenticated variants hand on the whole buffer.

## Model

| member | source | states |
|---|---|---|
| Wire.Fallback | shadowsocks/shadowsocks/obfsplugin/obfs_sql.py:83-87 | A strict method answers the sentinel `E` with nothing to decrypt; a compatible one hands the buffer on for decryption; neither asks for a reply. |
| Wire.MatchBegin | shadowsocks/shadowsocks/obfsplugin/obfs_tls.py:56-60 | `match_begin` holds exactly when the prefix is no longer than the string and agrees with it position by position. |
| Wire.Be32 | shadowsocks/shadowsocks/obfsplugin/obfs_tls.py:297-298 | `struct.pack('>I', t)` is 4 bytes that read back as `t`. |
| Wire.Int32 | shadowsocks/shadowsocks/obfsplugin/obfs_tls.py:459-461 | `common.int32` reinterprets a value modulo 2^32 as a signed 32-bit value in [-2^31, 2^31). |
| MysqlSimple.Header | shadowsocks/shadowsocks/obfsplugin/obfs_sql.py:60 | The header packs iff `len | num << 24` fits in 32 bits (`len < 2^32`, `num < 256`); its low three bytes then give the length modulo 2^24, and its top byte is bits 24..31 of the length OR-ed with the packet number. |
| MysqlSimple.HeaderLayout | shadowsocks/shadowsocks/obfsplugin/obfs_sql.py:60 | For `len < 2^24` and `num < 256` the header is `LE24(len) ‖ num` and reads back as `len + num·2^24`. |
| MysqlSimple.HeaderExample | shadowsocks/shadowsocks/obfsplugin/obfs_sql.py:79 | A 3-byte payload with packet number 5 gets header `03 00 00 05`. |
| MysqlSimple.FrameSize | shadowsocks/shadowsocks/obfsplugin/obfs_sql.py:67-68 | The frame size is the raw header value with the packet number masked off (modulo 2^24). |
| MysqlSimple.RawSize | shadowsocks/shadowsocks/obfsplugin/obfs_sql.py:96 | The raw little-endian header value is below 2^32. |
| MysqlSimple.Release | shadowsocks/shadowsocks/obfsplugin/obfs_sql.py:66-73 | Every released frame is a header plus exactly the length it announces. |
| MysqlSimple.ReleaseAccounting | shadowsocks/shadowsocks/obfsplugin/obfs_sql.py:64-73 | The released frames followed by the bytes still buffered are exactly the bytes held before the loop. |
| MysqlSimple.Payloads | shadowsocks/shadowsocks/obfsplugin/obfs_sql.py:71 | The bytes returned for released frames: each frame's payload after its 4-byte header, in order. |
| MysqlSimple.ReleaseLeavesNoSurplusFrame | shadowsocks/shadowsocks/obfsplugin/obfs_sql.py:66-70 | What stays buffered is at most 4 bytes or a frame not followed by at least one more byte. |
| MysqlSimple.ExactFrameHeld | shadowsocks/shadowsocks/obfsplugin/obfs_sql.py:69-70 | A frame that exactly fills the buffer stays buffered; one extra byte releases it and stays behind. |
| MysqlSimple.MysqlSimple.constructor | shadowsocks/shadowsocks/obfsplugin/obfs_sql.py:52-57 | A new connection is not raw, buffers nothing and has both packet counters at 0. |
| MysqlSimple.MysqlSimple.ClientEncode | shadowsocks/shadowsocks/obfsplugin/obfs_sql.py:59-61 | The output is the header for the current send number followed by the payload, or the pack error; no state changes. |
| MysqlSimple.MysqlSimple.TakeFrames | shadowsocks/shadowsocks/obfsplugin/obfs_sql.py:66-73 | The loop returns the payloads of the frames `Release` frees, keeps its rest buffered, and counts exactly those frames. |
| MysqlSimple.MysqlSimple.ClientDecode | shadowsocks/shadowsocks/obfsplugin/obfs_sql.py:63-74 | Buffer the input, return the released payloads in order without asking for a reply, keep the rest and count the frames. |
| MysqlSimple.MysqlSimple.ServerEncode | shadowsocks/shadowsocks/obfsplugin/obfs_sql.py:76-81 | Raw: the payload unchanged, counter untouched; otherwise the framed payload and the send counter grows by exactly one, or the pack error with no change. |
| MysqlSimple.MysqlSimple.DecodeErrorReturn | shadowsocks/shadowsocks/obfsplugin/obfs_sql.py:83-87 | The connection becomes raw for good, and the result is the strict or compatible fallback on the given input. |
| MysqlSimple.MysqlSimple.ServerDecode | shadowsocks/shadowsocks/obfsplugin/obfs_sql.py:89-107 | Raw: pass-through, nothing changes. Before any frame, a raw first header above 0xFFFF falls back on this call's input only. Otherwise as the client decoder, asking for a reply, with the send counter reset iff a frame was released. |
| MysqlSimple.FreshRoundTrip | shadowsocks/shadowsocks/obfsplugin/obfs_sql.py:95-107 | On fresh states, a client frame of `p` (`|p| <= 0xFFFF`) plus one byte decodes at the server to exactly `p`, with a reply requested. |
| MysqlSimple.FirstFrameRejected | shadowsocks/shadowsocks/obfsplugin/obfs_sql.py:97-98 | The first-frame rule: nothing received yet, more than 4 bytes held and a raw header value above 0xFFFF. |
| TlsWire.Handshake | shadowsocks/shadowsocks/obfsplugin/obfs_tls.py:78-79 | A handshake record is 9 bytes longer than its body, with both length fields equal to what follows them. |
| TlsWire.UnwrapHello | shadowsocks/shadowsocks/obfsplugin/obfs_tls.py:115-125 | The four ClientHello header checks in order. A failed record-header check hands on the whole buffer, a failed record length `buf[3..]`, a failed handshake type `buf[5..]` and a failed handshake length `buf[7..]`. The call raises exactly when a length field is read with fewer than 2 bytes left (record header present and fewer than 5 bytes, or 7 or 8 bytes that pass the first three checks). |
| TlsWire.UnwrapHelloExactly | shadowsocks/shadowsocks/obfsplugin/obfs_tls.py:110-127 | The header checks pass exactly for buffers with record header `16 03 01`, BE16 at 3 equal to `len-5`, `01 00` at 5 and BE16 at 7 equal to `len-9`. |
| TlsWire.HandshakeUnwraps | shadowsocks/shadowsocks/obfsplugin/obfs_tls.py:78-79 | Every framed handshake passes the header checks and yields its body. |
| TlsWire.PackAuthData | shadowsocks/shadowsocks/obfsplugin/obfs_tls.py:155-159 | The tag is 32 bytes: BE32 of the clock modulo 2^32, the 18 random bytes, then the MAC of those 22 bytes under `key ‖ clientId`. |
| TlsWire.ParseAuthHello | shadowsocks/shadowsocks/obfsplugin/obfs_tls.py:233-258 | Parsed exactly when the header checks and the hello version pass, more than 43 bytes are held and the session-id length byte at 43 is at least 32. The verify id is then bytes 11..43 and the session id is `buf[44..44 + buf[43]]`, clamped to the buffer. A length byte below 32 falls back. Nothing after the verify id raises `IndexError`, and a short length field raises `struct.error`. |
| TlsWire.AuthHelloParses | shadowsocks/shadowsocks/obfsplugin/obfs_tls.py:161-170 | A hello built from a tag and a 32-byte client id parses back to exactly that tag and id. |
| TlsWire.TimeWindow | shadowsocks/shadowsocks/obfsplugin/obfs_tls.py:259-265 | Without 32-bit wrap-around, the time rule is the window `utc ± 3600` around the clock plus `utc >= startup - 1800`. |
| TlsWire.FreshHelloAdmitted | shadowsocks/shadowsocks/obfsplugin/obfs_tls.py:259-275 | A client's fresh hello is admitted by a server with the same key when the clocks agree and the tag prefix is not cached. |
| TlsWire.ReplayRefused | shadowsocks/shadowsocks/obfsplugin/obfs_tls.py:269-271 | A hello whose tag prefix is cached with a non-empty session id is refused, whatever the clock says. |
| TlsWire.FinishedFlight | shadowsocks/shadowsocks/obfsplugin/obfs_tls.py:172-174 | The flight is 43 bytes: ChangeCipherSpec, the Finished header, 22 random bytes and the MAC of the first 33 bytes. |
| TlsWire.CheckFinished | shadowsocks/shadowsocks/obfsplugin/obfs_tls.py:215-231 | The Finished check passes iff the buffer has 43 bytes, both headers and a matching MAC; it then hands on everything after byte 43, and otherwise raises. |
| TlsWire.FinishedRoundTrip | shadowsocks/shadowsocks/obfsplugin/obfs_tls.py:172-178 | The client's Finished flight followed by anything passes the server's check under the same key and id, which hands that remainder on. |
| TlsWire.ServerFlight | shadowsocks/shadowsocks/obfsplugin/obfs_tls.py:196-201 | The server flight is 87 bytes plus the echoed client id and the tail. It carries the auth tag at bytes 11..43 and `20 ‖ clientId` from byte 43, and its last 10 bytes are the MAC of everything before them under `key ‖ clientId`. |
| TlsWire.ServerFlightAuthentic | shadowsocks/shadowsocks/obfsplugin/obfs_tls.py:184-190 | The server's flight with a tag made for the client's id passes the client's check. |
| TlsWire.AuthHelloBody | shadowsocks/shadowsocks/obfsplugin/obfs_tls.py:165-170 | The hello body is the version, the 32-byte tag, the session-id length byte `20`, the client id, then the opaque tail. |
| TlsWire.TimeOk | shadowsocks/shadowsocks/obfsplugin/obfs_tls.py:260-265 | The time rule: the signed 32-bit difference between the masked clock and the tag's time is within an hour, and the tag's time is at most half an hour before the recorded startup (proved a plain window by `TimeWindow`). |
| TlsWire.TagOk | shadowsocks/shadowsocks/obfsplugin/obfs_tls.py:259 | The tag's last 10 bytes are the MAC of its first 22 bytes under `key ‖ sessionId`; the server falls back otherwise (lines 266-268). |
| TlsWire.Replayed | shadowsocks/shadowsocks/obfsplugin/obfs_tls.py:269-271 | A replay is a cached tag prefix whose stored session id is non-empty (the `get` result's truthiness). |
| TlsWire.Admissible | shadowsocks/shadowsocks/obfsplugin/obfs_tls.py:233-271 | A hello is admitted when it parses and then the time rule, the HMAC and the replay test pass (`FreshHelloAdmitted`, `ReplayRefused`). |
| TlsWire.ServerHelloAuthentic | shadowsocks/shadowsocks/obfsplugin/obfs_tls.py:184-188 | The client's check of the server's first flight: at least 76 bytes, and bytes 33..43 are the MAC of bytes 11..33 under `key ‖ clientId` (`ServerFlightAuthentic`). |
| AuthState.Verdict | shadowsocks/shadowsocks/obfsplugin/obfs_tls.py:250-271 | Admitted exactly when the hello is admissible (parse, time, HMAC, replay in that order); unparsed exactly when parsing mismatches; raised exactly when parsing raises. |
| AuthState.ClocksInStep | shadowsocks/shadowsocks/obfsplugin/obfs_tls.py:138 | A tag stamped with the server's own clock, no earlier than its start, passes the time rule while the clock fits in 31 bits. |
| AuthState.AuthData.constructor | shadowsocks/shadowsocks/obfsplugin/obfs_tls.py:134-138 | The context holds the random id, the startup time backdated 1800 s and masked to 32 bits, and an empty cache. |
| AuthState.AuthData.Sweep | shadowsocks/shadowsocks/obfsplugin/obfs_tls.py:272 | The sweep only removes entries, removes exactly the expired ones and leaves the other values as they were. |
| AuthState.AuthData.CheckHello | shadowsocks/shadowsocks/obfsplugin/obfs_tls.py:258-273 | The verdict is `Verdict` on the cache as it was; an admitted tag prefix is stored with its session id after the sweep, and otherwise the cache is unchanged. |
| AuthState.AuthData.Remember | shadowsocks/shadowsocks/obfsplugin/obfs_tls.py:273 | The key now maps to the session id, and every other entry is unchanged. |
| TlsSimple.ClientHelloAccepted | shadowsocks/shadowsocks/obfsplugin/obfs_tls.py:75-80 | Every ClientHello the client sends has the shape the server accepts. |
| TlsSimple.ClientHello | shadowsocks/shadowsocks/obfsplugin/obfs_tls.py:75-79 | The ClientHello carries the version at 9, the 32 random bytes at 11..43 and the fixed tail after them. |
| TlsSimple.ServerHello | shadowsocks/shadowsocks/obfsplugin/obfs_tls.py:99-101 | The ServerHello is 43 bytes: `16 03 01`, BE16 length 38, `02 00`, BE16 length 34, the version and the 32 random bytes. |
| TlsSimple.TlsSimple.constructor | shadowsocks/shadowsocks/obfsplugin/obfs_tls.py:63-69 | A new connection has sent and received nothing and buffers nothing. |
| TlsSimple.TlsSimple.ClientEncode | shadowsocks/shadowsocks/obfsplugin/obfs_tls.py:71-86 | The first call sends the ClientHello and keeps the payload; until the answer is decoded, payloads are kept and nothing is sent; then everything kept is sent in order and the connection turns raw. |
| TlsSimple.TlsSimple.ClientDecode | shadowsocks/shadowsocks/obfsplugin/obfs_tls.py:88-92 | The first inbound bytes are swallowed and a reply requested; later bytes pass. |
| TlsSimple.TlsSimple.ServerEncode | shadowsocks/shadowsocks/obfsplugin/obfs_tls.py:94-102 | The first call answers with the ServerHello instead of the payload; later payloads pass. |
| TlsSimple.TlsSimple.DecodeErrorReturn | shadowsocks/shadowsocks/obfsplugin/obfs_tls.py:104-108 | The header counts as sent (so encoding turns into pass-through) and the result is the strict or compatible fallback. |
| TlsSimple.TlsSimple.ServerDecode | shadowsocks/shadowsocks/obfsplugin/obfs_tls.py:110-127 | The first bytes are accepted with a reply requested iff they have the ClientHello shape; a mismatch falls back on the buffer as sliced; a short length field raises; later bytes pass. |
| TlsSimple.ClientSession | shadowsocks/shadowsocks/obfsplugin/obfs_tls.py:71-92 | Two payloads kept behind the hello are sent with the third, in order, after the answer; a fourth passes unchanged. |
| TlsSimple.ServerSession | shadowsocks/shadowsocks/obfsplugin/obfs_tls.py:94-127 | A fresh server accepts any client hello, answers with its ServerHello, and passes bytes unchanged afterwards. |
| TlsSimple.MismatchSession | shadowsocks/shadowsocks/obfsplugin/obfs_tls.py:104-125 | After a mismatch the server passes everything unchanged; the compatible answer drops 0, 3, 5 or 7 leading bytes. |
| TlsAuth.AuthClientHello | shadowsocks/shadowsocks/obfsplugin/obfs_tls.py:165-170 | The client's hello parses to its own auth tag and its own 32-byte id. |
| TlsAuth.TlsAuth.constructor | shadowsocks/shadowsocks/obfsplugin/obfs_tls.py:141-153 | A new connection has no header sent or received, is not raw, and has nothing buffered. |
| TlsAuth.TlsAuth.ClientEncode | shadowsocks/shadowsocks/obfsplugin/obfs_tls.py:161-179 | The first call sends the authenticated hello and keeps the payload; after the server's flight is accepted, the next call sends the Finished flight followed by everything kept; then payloads pass. |
| TlsAuth.TlsAuth.ClientDecode | shadowsocks/shadowsocks/obfsplugin/obfs_tls.py:181-190 | The first flight is accepted, with a reply requested, iff its tag checks under the client's id; otherwise the call raises and nothing changes. |
| TlsAuth.TlsAuth.ServerEncode | shadowsocks/shadowsocks/obfsplugin/obfs_tls.py:192-202 | The first call answers with the server flight for the session id and marks the header sent; afterwards, or when raw, payloads pass and the flag is left as it was. |
| TlsAuth.TlsAuth.DecodeErrorReturn | shadowsocks/shadowsocks/obfsplugin/obfs_tls.py:204-209 | Both directions become raw for good, and the result is the strict or compatible fallback. |
| TlsAuth.TlsAuth.ServerDecode | shadowsocks/shadowsocks/obfsplugin/obfs_tls.py:211-275 | Hello: a reply is requested iff the verdict admits it, and the cache and client id change as `CheckHello` says; a refused or unparsed hello falls back on the whole buffer. Next: the Finished check, handing on what follows it. Raw: pass-through. |
| TlsAuth.Session | shadowsocks/shadowsocks/obfsplugin/obfs_tls.py:161-231 | With a shared key and clocks in step, the client's Finished flight plus its kept payloads reaches the server's caller as exactly those payloads. |
| TlsAuth.Greeting | shadowsocks/shadowsocks/obfsplugin/obfs_tls.py:161-202 | The hello is admitted with a reply requested, and the client accepts the server's flight. |
| TlsAuth.Admit | shadowsocks/shadowsocks/obfsplugin/obfs_tls.py:233-275 | A fresh server admits a well-made current hello, caches exactly its tag prefix and takes its session id. |
| TlsAuth.OpenClient | shadowsocks/shadowsocks/obfsplugin/obfs_tls.py:161-170 | A fresh client's hello parses to its own tag, stamped with its clock and well made under its key, and the payload is kept. |
| TlsAuth.Answer | shadowsocks/shadowsocks/obfsplugin/obfs_tls.py:192-202 | The server's flight passes the check of the client holding the session id. |
| TlsAuth.Replay | shadowsocks/shadowsocks/obfsplugin/obfs_tls.py:267-271 | The same hello on a second connection to the same server falls back, whatever the clock. |
| TlsTicket.SniHost | shadowsocks/shadowsocks/obfsplugin/obfs_tls.py:312-314 | The host is the obfuscation parameter if non-empty, else the server host, or empty when that ends in a digit; a chosen host not ending in a digit is kept. |
| TlsTicket.Sni | shadowsocks/shadowsocks/obfsplugin/obfs_tls.py:290-294 | The server_name extension is 9 bytes longer than the host. |
| TlsTicket.SniReadsBack | shadowsocks/shadowsocks/obfsplugin/obfs_tls.py:290-294 | The extension's three length fields are `|host|+5`, `|host|+3` and `|host|`, so reading it back gives the host. |
| TlsTicket.SniCanonical | shadowsocks/shadowsocks/obfsplugin/obfs_tls.py:290-294 | Any extension whose length fields check is exactly `sni` of the host it holds. |
| TlsTicket.TicketExtensions | shadowsocks/shadowsocks/obfsplugin/obfs_tls.py:311-323 | The extension block is 289 bytes plus the host, with the SNI extension at offset 5. |
| TlsTicket.TicketClientHello | shadowsocks/shadowsocks/obfsplugin/obfs_tls.py:310-327 | The hello is built iff the host is short enough for its 16-bit lengths (`struct.error` otherwise); it parses as TLS 1.2 to the client's own tag and id. |
| TlsTicket.AppRecord | shadowsocks/shadowsocks/obfsplugin/obfs_tls.py:306-307 | A record is `17 03 03`, the BE16 payload length, then the payload. |
| TlsTicket.SealedOverhead | shadowsocks/shadowsocks/obfsplugin/obfs_tls.py:369-373 | Framing adds 5 bytes per started 8192-byte chunk; an empty payload gives no output. |
| TlsTicket.Sealed | shadowsocks/shadowsocks/obfsplugin/obfs_tls.py:367-374 | The chunking of `server_encode` in state 8 as a function; `SealedOverhead`, `SealedIsRecords` and `ReassembleSealed` state its properties. |
| TlsTicket.Chunks | shadowsocks/shadowsocks/obfsplugin/obfs_tls.py:369-373 | The pieces are 1 to 8192 bytes each and concatenate to the payload. |
| TlsTicket.SealedIsRecords | shadowsocks/shadowsocks/obfsplugin/obfs_tls.py:369-373 | The server's output is one record per piece, in order. |
| TlsTicket.SealRecords | shadowsocks/shadowsocks/obfsplugin/obfs_tls.py:367-374 | The chunking loop produces exactly `Sealed(buf)`. |
| TlsTicket.ReassembleKeepsSuffix | shadowsocks/shadowsocks/obfsplugin/obfs_tls.py:345-354 | What the record loop keeps is a suffix of what it held. |
| TlsTicket.Reassemble | shadowsocks/shadowsocks/obfsplugin/obfs_tls.py:345-354 | The record loop as a function; what it releases, keeps and fails on is stated by the `Reassemble*` lemmas below. |
| TlsTicket.ReassembleStops | shadowsocks/shadowsocks/obfsplugin/obfs_tls.py:345-351 | The loop fails only at more than 5 held bytes with a type byte other than 0x17; otherwise it stops at 5 bytes or fewer, or at an incomplete record. |
| TlsTicket.ReassembleSettles | shadowsocks/shadowsocks/obfsplugin/obfs_tls.py:345-354 | Running the loop again on what it kept releases nothing. |
| TlsTicket.ReassembleRecord | shadowsocks/shadowsocks/obfsplugin/obfs_tls.py:349-354 | A complete record at the front is released whole and the loop carries on after it. |
| TlsTicket.ReassembleRecords | shadowsocks/shadowsocks/obfsplugin/obfs_tls.py:397-405 | A run of records with non-empty payloads is released as the concatenation of those payloads. |
| TlsTicket.ReassembleSealed | shadowsocks/shadowsocks/obfsplugin/obfs_tls.py:367-374 | The server's records of a payload are released as exactly that payload, with nothing kept. |
| TlsTicket.ReassembleSplit | shadowsocks/shadowsocks/obfsplugin/obfs_tls.py:344-354 | Draining `a`, then draining what it kept plus `b`, releases the same bytes as draining `a + b`. |
| TlsTicket.FeedMatchesWhole | shadowsocks/shadowsocks/obfsplugin/obfs_tls.py:342-355 | However the stream is cut into calls, the decoder releases what draining the whole stream releases, and fails exactly when that fails. |
| TlsTicket.Feed | shadowsocks/shadowsocks/obfsplugin/obfs_tls.py:342-355 | The record loop over successive calls, each appending its arrival to the held bytes; `FeedMatchesWhole` relates it to one call on the whole stream. |
| TlsTicket.SealedRoundTrip | shadowsocks/shadowsocks/obfsplugin/obfs_tls.py:342-374 | The server's records of a payload, cut into any arrivals, reach the client's caller as exactly that payload. |
| TlsTicket.EmptyRecordHeld | shadowsocks/shadowsocks/obfsplugin/obfs_tls.py:345 | An empty record with nothing after it stays buffered, since the loop needs more than 5 bytes. |
| TlsTicket.TlsTicketAuth.constructor | shadowsocks/shadowsocks/obfsplugin/obfs_tls.py:278-285 | A new connection is in state 0 with empty buffers and no client id. |
| TlsTicket.TlsTicketAuth.Drain | shadowsocks/shadowsocks/obfsplugin/obfs_tls.py:344-354 | The record loop appends the input and leaves the buffer, the output and the failure flag exactly as `Reassemble` of everything held says. |
| TlsTicket.TlsTicketAuth.ClientEncode | shadowsocks/shadowsocks/obfsplugin/obfs_tls.py:302-336 | Raw: the payload unchanged. State 8: one record. A payload over 0xFFFF bytes raises with no change. Otherwise the payload is kept as a record: state 0 sends the ticket hello and moves to 1; an empty call in state 1 sends the Finished flight plus every kept record and moves to 8. |
| TlsTicket.TlsTicketAuth.ClientDecode | shadowsocks/shadowsocks/obfsplugin/obfs_tls.py:338-362 | Raw: pass-through. State 8: the record loop, raising on a wrong type byte. Otherwise the server flight is accepted with a reply requested iff its tag checks, and no state changes. |
| TlsTicket.TlsTicketAuth.ServerEncode | shadowsocks/shadowsocks/obfsplugin/obfs_tls.py:364-382 | Raw: pass-through. State 8: the payload in records of at most 8192 bytes. Otherwise the TLS 1.2 server flight for the session id, moving to state 3. |
| TlsTicket.TlsTicketAuth.DecodeErrorReturn | shadowsocks/shadowsocks/obfsplugin/obfs_tls.py:384-388 | State -1 for good, and the result is the strict or compatible fallback. |
| TlsTicket.TlsTicketAuth.ReceiveFinished | shadowsocks/shadowsocks/obfsplugin/obfs_tls.py:408-424 | A failed Finished check raises with no change. Otherwise what follows the flight is buffered, the state becomes 8, and the record loop runs on it at once. |
| TlsTicket.TlsTicketAuth.ReceiveHello | shadowsocks/shadowsocks/obfsplugin/obfs_tls.py:427-473 | State 2, then a reply is requested iff the verdict admits; refused and unparsed hellos fall back on the whole buffer (state -1); cache and client id as `CheckHello` says. |
| TlsTicket.TlsTicketAuth.ServerDecode | shadowsocks/shadowsocks/obfsplugin/obfs_tls.py:390-473 | Dispatch by state: raw pass-through, the record loop in state 8, the Finished check in state 3, the hello checks otherwise, each with its whole new state. |
| TlsTicket.Session | shadowsocks/shadowsocks/obfsplugin/obfs_tls.py:328-335 | After the greeting, the client's empty call sends the Finished flight, the kept payload's record and an empty record. |
| TlsTicket.Conclude | shadowsocks/shadowsocks/obfsplugin/obfs_tls.py:408-424 | The server checks that Finished flight, releases exactly the kept payload, and keeps the 5-byte empty record. |
| TlsTicket.Greeting | shadowsocks/shadowsocks/obfsplugin/obfs_tls.py:302-382 | The ticket hello is admitted with a reply requested, and the client accepts the server's flight. |
| TlsTicket.OpenClient | shadowsocks/shadowsocks/obfsplugin/obfs_tls.py:302-327 | A fresh client's hello parses to its own tag, stamped with its clock and well made under its key. |
| TlsTicket.Admit | shadowsocks/shadowsocks/obfsplugin/obfs_tls.py:427-473 | A fresh server admits a well-made current ticket hello, caches exactly its tag prefix and takes its session id. |
| TlsTicket.Answer | shadowsocks/shadowsocks/obfsplugin/obfs_tls.py:375-382 | The server's flight passes the check of the client holding the session id. |
| TlsTicket.Deliver | shadowsocks/shadowsocks/obfsplugin/obfs_tls.py:342-374 | In state 8, what the server encodes reaches the client's caller unchanged, with nothing left buffered. |

## Left out

- HMAC-SHA1 is not modelled. It is an arbitrary total function `Mac` from (key, message) to 10 bytes, and the proofs use only its determinism.
- `os.urandom` and `time.time()` are method parameters, so entropy and clocks are not modelled. Time is an integer count of seconds; the fractional part dropped by `int(...)` is not modelled.
- The LRU cache's internals, its 300-second time-to-live and its concurrent use by many connections are not modelled. The cache is a map, and the sweep takes the set of expired keys from outside and only removes entries.
- Logging and `binascii.hexlify` (used only for log messages) are not modelled.
- The `obfs_map` registry and the `create_*` factories are not modelled. The method name is a constructor argument and only selects strict or compatible fallback.
- `init_data` is not modelled. It only constructs `obfs_auth_data`, which `AuthState.AuthData.constructor` models.
- The unused `obfs_client_data` class (shadowsocks/shadowsocks/obfsplugin/obfs_tls.py:129-132) is not modelled.
- The `plain.plain` base class, `server_info` and `common.to_bytes` are not part of this model. The key, the obfuscation parameter, the host and the shared context are constructor arguments.
- The hard-coded cipher-suite and extension blobs are opaque byte constants; what they mean is not modelled.
- Python 2 str/bytes mixing is not modelled; everything is a byte sequence.
- MysqlSimple.MysqlSimple.ServerDecode: the first-frame test runs once, before the frame loop. The source tests it inside the loop, but there it can only hold on the first pass, because the first release makes the receive counter non-zero.
- TlsTicket.TlsTicketAuth.ServerDecode: after the Finished flight, the source calls `server_decode(b'')` on itself. Here it calls the same record loop directly on the held bytes.
- AuthState.AuthData.CheckHello: the time, HMAC and replay checks shared by `tls_auth` and `tls_ticket_auth` are written once, with the hello version as a parameter.
