/** `tls_ticket_auth` (`tls1.2_ticket_auth`): a TLS 1.2 handshake with a
    session-ticket-shaped ClientHello and SNI, after which every payload
    travels in application-data records `17 03 03 ‖ BE16(n) ‖ payload`. */
module TlsTicket {
  import opened Wire
  import opened TlsWire
  import opened AuthState

  /** The method name whose fallback answers with the error sentinel. No
      registered method name is spelled this way, so the ticket variant
      always takes the compatible fallback. */
  const StrictMethod: string := "tls1.2_session_auth"

  /** Largest payload the server puts in one application-data record. */
  const ChunkSize: nat := 8192

  /** Cipher-suite list (14 suites) and the null compression method. */
  const TicketSuites: seq<byte> := [
    0x00, 0x1c, 0xc0, 0x2b, 0xc0, 0x2f, 0xcc, 0xa9, 0xcc, 0xa8, 0xcc, 0x14, 0xcc, 0x13, 0xc0, 0x0a,
    0xc0, 0x14, 0xc0, 0x09, 0xc0, 0x13, 0x00, 0x9c, 0x00, 0x35, 0x00, 0x2f, 0x00, 0x0a, 0x01, 0x00]

  /** What follows the session id in the server's ServerHello: the chosen
      suite, no compression and a renegotiation-info extension. */
  const TicketServerTail: seq<byte> := [0xc0, 0x2f, 0x00, 0x00, 0x05, 0xff, 0x01, 0x00, 0x01, 0x00]

  const RenegotiationInfo: seq<byte> := [0xff, 0x01, 0x00, 0x01, 0x00]
  const ExtendedMasterSecret: seq<byte> := [0x00, 0x17, 0x00, 0x00]
  /** Header of the session-ticket extension, announcing 208 bytes. */
  const TicketHeader: seq<byte> := [0x00, 0x23, 0x00, 0xd0]
  const SignatureAlgorithms: seq<byte> := [
    0x00, 0x0d, 0x00, 0x16, 0x00, 0x14, 0x06, 0x01, 0x06, 0x03, 0x05, 0x01, 0x05, 0x03,
    0x04, 0x01, 0x04, 0x03, 0x03, 0x01, 0x03, 0x03, 0x02, 0x01, 0x02, 0x03]
  const StatusRequest: seq<byte> := [0x00, 0x05, 0x00, 0x05, 0x01, 0x00, 0x00, 0x00, 0x00]
  const SignedCertificateTimestamp: seq<byte> := [0x00, 0x12, 0x00, 0x00]
  const NextProtocolNegotiation: seq<byte> := [0x75, 0x50, 0x00, 0x00]
  const PointFormats: seq<byte> := [0x00, 0x0b, 0x00, 0x02, 0x01, 0x00]
  const SupportedGroups: seq<byte> := [0x00, 0x0a, 0x00, 0x06, 0x00, 0x04, 0x00, 0x17, 0x00, 0x18]

  datatype Option<T> = None | Some(value: T)

  predicate IsDigit(b: byte)
  {
    0x30 <= b <= 0x39
  }

  /** The SNI host: the obfuscation parameter if it is non-empty, else the
      server's host; a host whose last character is a digit is taken for an
      IP address and sent as the empty name. */
  function SniHost(obfsParam: seq<byte>, serverHost: seq<byte>): (h: seq<byte>)
    ensures var chosen := if obfsParam != [] then obfsParam else serverHost;
      && (h == [] || h == chosen)
      && (h != [] ==> !IsDigit(h[|h| - 1]))
      && (chosen != [] && !IsDigit(chosen[|chosen| - 1]) ==> h == chosen)
  {
    var host := if obfsParam != [] then obfsParam else serverHost;
    if host != [] && IsDigit(host[|host| - 1]) then [] else host
  }

  /** The server_name extension (section 3 of RFC 6066) naming one host. */
  function Sni(host: seq<byte>): (r: seq<byte>)
    requires |host| + 5 < 0x1_0000
    ensures |r| == |host| + 9
  {
    var name := [0x00] + Be16(|host|) + host;
    [0x00, 0x00] + Be16(|name| + 2) + Be16(|name|) + name
  }

  /** Reads the host back out of a server_name extension holding exactly one
      host name, checking every length field. */
  function ReadSni(e: seq<byte>): (r: Option<seq<byte>>)
    ensures r.Some? ==> |r.value| + 9 == |e| && e[9..] == r.value
  {
    if |e| < 9 || e[..2] != [0x00, 0x00] || e[6] != 0x00 then None
    else if Be16At(e, 2) != |e| - 4 || Be16At(e, 4) != |e| - 6 || Be16At(e, 7) != |e| - 9 then None
    else Some(e[9..])
  }

  /** Two bytes are the big-endian encoding of the number they spell. */
  lemma Be16Spelled(s: seq<byte>, i: nat)
    requires i + 2 <= |s|
    ensures s[i..i + 2] == Be16(Be16At(s, i))
  {
    var n := Be16At(s, i);
    assert n == s[i] as int * 0x100 + s[i + 1] as int;
    assert n / 0x100 == s[i] as int && n % 0x100 == s[i + 1] as int;
  }

  /** The extension names the host it was built from ... */
  lemma SniReadsBack(host: seq<byte>)
    requires |host| + 5 < 0x1_0000
    ensures ReadSni(Sni(host)) == Some(host)
  {
    var e := Sni(host);
    assert e[..2] == [0x00, 0x00];
    assert e[2..4] == Be16(|host| + 5) && e[4..6] == Be16(|host| + 3);
    assert e[6] == 0x00 && e[7..9] == Be16(|host|) && e[9..] == host;
    assert Be16At(e, 2) == Be16At(e[2..4], 0) && Be16At(e, 4) == Be16At(e[4..6], 0) && Be16At(e, 7) == Be16At(e[7..9], 0);
  }

  /** ... and it is the only extension that reads as that host. */
  lemma SniCanonical(e: seq<byte>)
    requires ReadSni(e).Some?
    ensures |ReadSni(e).value| + 5 < 0x1_0000 && e == Sni(ReadSni(e).value)
  {
    var host := e[9..];
    Be16Spelled(e, 2);
    Be16Spelled(e, 4);
    Be16Spelled(e, 7);
    assert e == e[..2] + e[2..4] + e[4..6] + [e[6]] + e[7..9] + host;
  }

  /** The ClientHello extensions: renegotiation info, SNI, extended master
      secret, a 208-byte random session ticket, then fixed ones. */
  function TicketExtensions(host: seq<byte>, ticket208: seq<byte>): (r: seq<byte>)
    requires |host| + 5 < 0x1_0000 && |ticket208| == 208
    ensures |r| == 289 + |host| && r[5..14 + |host|] == Sni(host)
  {
    var fixed := ExtendedMasterSecret + TicketHeader + ticket208
      + SignatureAlgorithms + StatusRequest + SignedCertificateTimestamp + NextProtocolNegotiation
      + PointFormats + SupportedGroups;
    var r := RenegotiationInfo + Sni(host) + fixed;
    assert r[5..14 + |host|] == Sni(host);
    r
  }

  /** The ClientHello of `client_encode`, or the `struct.error` a host too
      long for the 16-bit length fields raises. */
  function TicketClientHello(mac: Mac, key: seq<byte>, clientId: Bytes32, now: nat, random18: seq<byte>,
                             host: seq<byte>, ticket208: seq<byte>): (r: Result<seq<byte>>)
    requires |random18| == 18 && |ticket208| == 208
    ensures r.Ok? <==> |host| + 394 <= 0xFFFF
    ensures r.Err? ==> r.error == StructError
    ensures r.Ok? ==> (|r.value| == 399 + |host|
      && ParseAuthHello(r.value, Tls12) == Parsed(PackAuthData(mac, key, clientId, now, random18), clientId))
  {
    if |host| + 394 > 0xFFFF then Err(StructError)
    else
      var tag := PackAuthData(mac, key, clientId, now, random18);
      var ext := TicketExtensions(host, ticket208);
      var tail := TicketSuites + Be16(|ext|) + ext;
      AuthHelloParses(Tls12, tag, clientId, tail);
      Ok(Handshake(Tls10, ClientHelloType, AuthHelloBody(Tls12, tag, clientId, tail)))
  }

  /** One application-data record. */
  function AppRecord(payload: seq<byte>): (r: seq<byte>)
    requires |payload| < 0x1_0000
    ensures |r| == |payload| + 5 && r[0] == 0x17 && r[1..3] == Tls12
    ensures Be16At(r, 3) == |payload| && r[5..] == payload
  {
    var header := [0x17] + Tls12 + Be16(|payload|);
    assert header[3..5] == Be16(|payload|);
    assert Be16At(header, 3) == Be16At(header[3..5], 0);
    header + payload
  }

  /** Every payload fits a record. */
  ghost predicate Carried(ps: seq<seq<byte>>)
  {
    forall i :: 0 <= i < |ps| ==> |ps[i]| < 0x1_0000
  }

  /** Records for a sequence of payloads, in order. */
  function Records(ps: seq<seq<byte>>): seq<byte>
    requires Carried(ps)
  {
    if ps == [] then [] else AppRecord(ps[0]) + Records(ps[1..])
  }

  /** How `server_encode` frames a payload: records of 8192 bytes, then one
      for the non-empty remainder; nothing for an empty payload. */
  function Sealed(buf: seq<byte>): seq<byte>
    decreases |buf|
  {
    if |buf| > ChunkSize then AppRecord(buf[..ChunkSize]) + Sealed(buf[ChunkSize..])
    else if |buf| > 0 then AppRecord(buf)
    else []
  }

  /** Five bytes of framing per started chunk of 8192 bytes. */
  lemma {:induction false} SealedOverhead(buf: seq<byte>)
    ensures |Sealed(buf)| == |buf| + 5 * ((|buf| + ChunkSize - 1) / ChunkSize)
    decreases |buf|
  {
    if |buf| > ChunkSize {
      SealedOverhead(buf[ChunkSize..]);
      assert (|buf| + ChunkSize - 1) / ChunkSize == (|buf| - ChunkSize + ChunkSize - 1) / ChunkSize + 1;
    }
  }

  /** The pieces `server_encode` cuts a payload into. */
  function Chunks(buf: seq<byte>): (cs: seq<seq<byte>>)
    ensures Concat(cs) == buf
    ensures forall i :: 0 <= i < |cs| ==> 1 <= |cs[i]| <= ChunkSize
    decreases |buf|
  {
    if |buf| > ChunkSize then
      var cs := [buf[..ChunkSize]] + Chunks(buf[ChunkSize..]);
      assert cs[1..] == Chunks(buf[ChunkSize..]);
      cs
    else if |buf| > 0 then [buf]
    else []
  }

  /** The framed payload is one record per piece: pieces of 1 to 8192 bytes
      that concatenate to the payload. */
  lemma {:induction false} SealedIsRecords(buf: seq<byte>)
    ensures Carried(Chunks(buf)) && Sealed(buf) == Records(Chunks(buf))
    decreases |buf|
  {
    var cs := Chunks(buf);
    if |buf| > ChunkSize {
      SealedIsRecords(buf[ChunkSize..]);
      assert cs[0] == buf[..ChunkSize] && cs[1..] == Chunks(buf[ChunkSize..]);
    } else if |buf| > 0 {
      assert cs == [buf] && cs[1..] == [];
    }
  }

  /** `server_encode` once the handshake is over. */
  method SealRecords(buf: seq<byte>) returns (r: seq<byte>)
    ensures r == Sealed(buf)
  {
    var rest := buf;
    r := [];
    while |rest| > ChunkSize
      invariant r + Sealed(rest) == Sealed(buf)
      decreases |rest|
    {
      assert r + Sealed(rest) == (r + AppRecord(rest[..ChunkSize])) + Sealed(rest[ChunkSize..]);
      r := r + AppRecord(rest[..ChunkSize]);
      rest := rest[ChunkSize..];
    }
    if |rest| > 0 {
      r := r + AppRecord(rest);
    }
  }

  /** What the record loop of both decoders makes of the bytes held: the
      payloads released, the bytes still held, and whether it hit a record
      whose type byte is not 0x17 (the source raises there). */
  datatype Drained = Drained(out: seq<byte>, rest: seq<byte>, bad: bool)

  function Prepend(out: seq<byte>, d: Drained): Drained
  {
    Drained(out + d.out, d.rest, d.bad)
  }

  /** The decoders' record loop as a function: while more than 5 bytes are
      held, a record of type 0x17 that is complete is released. It stops at
      5 bytes or fewer, at an incomplete record, or at a wrong type byte. */
  function Reassemble(s: seq<byte>): Drained
    decreases |s|
  {
    if |s| <= 5 then Drained([], s, false)
    else if s[0] != 0x17 then Drained([], s, true)
    else if |s| < Be16At(s, 3) + 5 then Drained([], s, false)
    else Prepend(s[5..Be16At(s, 3) + 5], Reassemble(s[Be16At(s, 3) + 5..]))
  }

  /** What the loop keeps is a suffix of its input. */
  lemma {:induction false} ReassembleKeepsSuffix(s: seq<byte>)
    ensures |Reassemble(s).rest| <= |s| && Reassemble(s).rest == s[|s| - |Reassemble(s).rest|..]
    decreases |s|
  {
    if |s| > 5 && s[0] == 0x17 && |s| >= Be16At(s, 3) + 5 {
      var t := s[Be16At(s, 3) + 5..];
      ReassembleKeepsSuffix(t);
      assert t[|t| - |Reassemble(t).rest|..] == s[|s| - |Reassemble(t).rest|..];
    }
  }

  /** Where the loop stops: it fails only at more than 5 bytes starting with
      a wrong type byte, and otherwise keeps at most 5 bytes or an
      incomplete record. */
  lemma {:induction false} ReassembleStops(s: seq<byte>)
    ensures var d := Reassemble(s);
      && (d.bad ==> |d.rest| > 5 && d.rest[0] != 0x17)
      && (!d.bad ==> |d.rest| <= 5 || (d.rest[0] == 0x17 && |d.rest| < Be16At(d.rest, 3) + 5))
    decreases |s|
  {
    if |s| > 5 && s[0] == 0x17 && |s| >= Be16At(s, 3) + 5 {
      ReassembleStops(s[Be16At(s, 3) + 5..]);
    }
  }

  /** Bytes the loop leaves alone. */
  predicate Settled(s: seq<byte>)
  {
    Reassemble(s) == Drained([], s, false)
  }

  /** What the loop leaves behind, when it did not stop at a wrong type
      byte, is settled. */
  lemma ReassembleSettles(s: seq<byte>)
    requires !Reassemble(s).bad
    ensures Settled(Reassemble(s).rest)
  {
    ReassembleStops(s);
  }

  /** A record is released whole, and the loop carries on with whatever
      follows it, unless it is an empty record with nothing after it. */
  lemma ReassembleRecord(p: seq<byte>, t: seq<byte>)
    requires |p| < 0x1_0000 && |p| + |t| > 0
    ensures Reassemble(AppRecord(p) + t) == Prepend(p, Reassemble(t))
  {
    var s := AppRecord(p) + t;
    assert s[0] == 0x17 && Be16At(s, 3) == |p|;
    assert s[5..|p| + 5] == p && s[|p| + 5..] == t;
    assert Reassemble(s) == Prepend(s[5..|p| + 5], Reassemble(s[|p| + 5..]));
  }

  /** Records of non-empty payloads are released in order, and the loop then
      carries on with whatever follows them. */
  lemma {:induction false} ReassembleRecords(ps: seq<seq<byte>>, t: seq<byte>)
    requires Carried(ps) && forall i :: 0 <= i < |ps| ==> |ps[i]| >= 1
    ensures Reassemble(Records(ps) + t) == Prepend(Concat(ps), Reassemble(t))
  {
    if ps == [] {
      assert Records(ps) + t == t;
      assert Concat(ps) + Reassemble(t).out == Reassemble(t).out;
    } else {
      var tail := Records(ps[1..]) + t;
      assert Records(ps) + t == AppRecord(ps[0]) + tail;
      ReassembleRecord(ps[0], tail);
      ReassembleRecords(ps[1..], t);
      PrependTwice(ps[0], Concat(ps[1..]), Reassemble(t));
    }
  }

  /** The server's records of a payload are released as that payload, with
      nothing left over. */
  lemma {:induction false} ReassembleSealed(buf: seq<byte>)
    ensures Reassemble(Sealed(buf)) == Drained(buf, [], false)
    decreases |buf|
  {
    if |buf| > ChunkSize {
      ReassembleRecord(buf[..ChunkSize], Sealed(buf[ChunkSize..]));
      ReassembleSealed(buf[ChunkSize..]);
      assert buf[..ChunkSize] + buf[ChunkSize..] == buf;
    } else if |buf| > 0 {
      ReassembleRecord(buf, []);
      assert AppRecord(buf) + [] == AppRecord(buf) && buf + [] == buf;
    }
  }

  /** A complete record at the front of `a` is still the complete record at
      the front of `a + b`. */
  lemma LeadingRecord(a: seq<byte>, b: seq<byte>)
    requires |a| > 5 && a[0] == 0x17 && |a| >= Be16At(a, 3) + 5
    ensures var n := Be16At(a, 3) + 5;
      && Be16At(a + b, 3) + 5 == n
      && Reassemble(a) == Prepend(a[5..n], Reassemble(a[n..]))
      && Reassemble(a + b) == Prepend(a[5..n], Reassemble(a[n..] + b))
  {
    var n := Be16At(a, 3) + 5;
    assert (a + b)[3] == a[3] && (a + b)[4] == a[4];
    assert (a + b)[5..n] == a[5..n];
    assert (a + b)[n..] == a[n..] + b;
  }

  /** `ReassembleSplit` when the loop stops at once on `a`. */
  lemma ReassembleSplitStop(a: seq<byte>, b: seq<byte>)
    requires |a| <= 5 || a[0] != 0x17 || |a| < Be16At(a, 3) + 5
    ensures Reassemble(a + b) == Prepend(Reassemble(a).out, Reassemble(Reassemble(a).rest + b))
  {
    assert Reassemble(a).out == [] && Reassemble(a).rest == a;
    assert [] + Reassemble(a + b).out == Reassemble(a + b).out;
  }

  /** `ReassembleSplit` for `a` from `ReassembleSplit` for what follows its
      leading record. */
  lemma ReassembleSplitStep(a: seq<byte>, b: seq<byte>)
    requires |a| > 5 && a[0] == 0x17 && |a| >= Be16At(a, 3) + 5
    requires var t := a[Be16At(a, 3) + 5..];
      Reassemble(t + b) == Prepend(Reassemble(t).out, Reassemble(Reassemble(t).rest + b))
    ensures Reassemble(a + b) == Prepend(Reassemble(a).out, Reassemble(Reassemble(a).rest + b))
  {
    var n := Be16At(a, 3) + 5;
    LeadingRecord(a, b);
    var head := a[5..n];
    var inner := Reassemble(a[n..]);
    var r := Reassemble(inner.rest + b);
    PrependTwice(head, inner.out, r);
  }

  lemma PrependTwice(x: seq<byte>, y: seq<byte>, d: Drained)
    ensures Prepend(x, Prepend(y, d)) == Prepend(x + y, d)
  {
    assert x + (y + d.out) == (x + y) + d.out;
  }

  /** Draining `a` and then, from what it left, `a`'s continuation `b`
      releases exactly what draining `a + b` at once releases. */
  lemma {:induction false} ReassembleSplit(a: seq<byte>, b: seq<byte>)
    ensures Reassemble(a + b) == Prepend(Reassemble(a).out, Reassemble(Reassemble(a).rest + b))
    decreases |a|
  {
    if |a| <= 5 || a[0] != 0x17 || |a| < Be16At(a, 3) + 5 {
      ReassembleSplitStop(a, b);
    } else {
      ReassembleSplit(a[Be16At(a, 3) + 5..], b);
      ReassembleSplitStep(a, b);
    }
  }

  /** The decoders over several calls: each call appends the arrival to the
      held bytes and drains; the call that hits a wrong type byte raises and
      delivers nothing. */
  function Feed(held: seq<byte>, arrivals: seq<seq<byte>>): Drained
    decreases |arrivals|
  {
    if arrivals == [] then Drained([], held, false)
    else
      var d := Reassemble(held + arrivals[0]);
      if d.bad then Drained([], d.rest, true)
      else Prepend(d.out, Feed(d.rest, arrivals[1..]))
  }

  /** However the stream is cut into arrivals, the decoders deliver what
      draining the whole stream at once delivers, and fail exactly when it
      fails. */
  lemma {:induction false} FeedMatchesWhole(held: seq<byte>, arrivals: seq<seq<byte>>)
    requires Settled(held)
    ensures Feed(held, arrivals).bad == Reassemble(held + Concat(arrivals)).bad
    ensures !Feed(held, arrivals).bad ==> Feed(held, arrivals) == Reassemble(held + Concat(arrivals))
    decreases |arrivals|
  {
    if arrivals == [] {
      assert held + Concat(arrivals) == held;
    } else {
      var a := held + arrivals[0];
      var rest := Concat(arrivals[1..]);
      assert held + Concat(arrivals) == a + rest;
      ReassembleSplit(a, rest);
      var d := Reassemble(a);
      ReassembleStops(a);
      if d.bad {
        assert (d.rest + rest)[0] == d.rest[0];
        assert Reassemble(d.rest + rest).bad;
      } else {
        ReassembleSettles(a);
        FeedMatchesWhole(d.rest, arrivals[1..]);
      }
    }
  }

  /** The server's records of a payload, however they are cut on the way,
      reach the client's caller as exactly that payload. */
  lemma SealedRoundTrip(buf: seq<byte>, arrivals: seq<seq<byte>>)
    requires Concat(arrivals) == Sealed(buf)
    ensures Feed([], arrivals) == Drained(buf, [], false)
  {
    ReassembleSealed(buf);
    assert [] + Concat(arrivals) == Sealed(buf);
    FeedMatchesWhole([], arrivals);
  }

  /** An empty record with nothing after it stays held: the loop only runs
      while more than 5 bytes are held. */
  lemma EmptyRecordHeld()
    ensures Reassemble(AppRecord([])) == Drained([], AppRecord([]), false)
  {
  }

  class TlsTicketAuth {
    const methodName: string
    const key: seq<byte>
    const mac: Mac
    const data: AuthData
    /** `server_info.obfs_param` and `server_info.host`. */
    const obfsParam: seq<byte>
    const serverHost: seq<byte>
    /** -1 raw, 0 fresh, 1 hello sent, 2 hello received, 3 server flight
        sent, 8 application data. */
    var handshakeStatus: int
    var sendBuffer: seq<byte>
    var recvBuffer: seq<byte>
    /** On the server, the session id of the last parsed ClientHello. */
    var clientId: seq<byte>

    ghost predicate Valid()
      reads this
    {
      handshakeStatus in {-1, 0, 1, 2, 3, 8} && |clientId| < 0x100
    }

    constructor(methodName: string, key: seq<byte>, mac: Mac, data: AuthData, obfsParam: seq<byte>, serverHost: seq<byte>)
      ensures this.methodName == methodName && this.key == key && this.mac == mac && this.data == data
      ensures this.obfsParam == obfsParam && this.serverHost == serverHost
      ensures handshakeStatus == 0 && sendBuffer == [] && recvBuffer == [] && clientId == [] && Valid()
    {
      this.methodName := methodName;
      this.key := key;
      this.mac := mac;
      this.data := data;
      this.obfsParam := obfsParam;
      this.serverHost := serverHost;
      handshakeStatus := 0;
      sendBuffer := [];
      recvBuffer := [];
      clientId := [];
    }

    /** The record loop of both decoders: append `buf` to the held bytes and
        release complete records while more than 5 bytes are held. */
    method Drain(buf: seq<byte>) returns (out: seq<byte>, bad: bool)
      modifies this`recvBuffer
      ensures Reassemble(old(recvBuffer) + buf) == Drained(out, recvBuffer, bad)
    {
      recvBuffer := recvBuffer + buf;
      ghost var all := recvBuffer;
      out := [];
      while |recvBuffer| > 5
        invariant Reassemble(all) == Prepend(out, Reassemble(recvBuffer))
        decreases |recvBuffer|
      {
        if recvBuffer[0] != 0x17 {
          return out, true;
        }
        var size := Be16At(recvBuffer, 3);
        if |recvBuffer| < size + 5 {
          break;
        }
        var payload := recvBuffer[5..size + 5];
        PrependTwice(out, payload, Reassemble(recvBuffer[size + 5..]));
        out := out + payload;
        recvBuffer := recvBuffer[size + 5..];
      }
      assert out + [] == out;
      bad := false;
    }

    /** `client_encode`. Raw: unchanged. Application data: one record. Before
        that every payload is kept as a record; the first call sends the
        ClientHello, and an empty call after the server's flight sends
        ChangeCipherSpec + Finished and every kept record. A payload too long
        for a record raises before anything changes. */
    method ClientEncode(buf: seq<byte>, now: nat, random18: seq<byte>, ticket208: seq<byte>, random22: seq<byte>)
      returns (r: Result<seq<byte>>)
      requires Valid() && |random18| == 18 && |ticket208| == 208 && |random22| == 22
      modifies this`handshakeStatus, this`sendBuffer
      ensures Valid()
      ensures old(handshakeStatus) == -1 ==> r == Ok(buf) && unchanged(this)
      ensures old(handshakeStatus) != -1 && |buf| > 0xFFFF ==> r == Err(StructError) && unchanged(this)
      ensures old(handshakeStatus) == 8 && |buf| <= 0xFFFF ==> r == Ok(AppRecord(buf)) && unchanged(this)
      ensures old(handshakeStatus) !in {-1, 8} && |buf| <= 0xFFFF ==> match old(handshakeStatus)
        case 0 =>
          && r == TicketClientHello(mac, key, data.clientId, now, random18, SniHost(obfsParam, serverHost), ticket208)
          && handshakeStatus == 1 && sendBuffer == old(sendBuffer) + AppRecord(buf)
        case 1 =>
          if buf == [] then
            && r == Ok(FinishedFlight(mac, key, data.clientId, Tls12, random22) + old(sendBuffer) + AppRecord(buf))
            && handshakeStatus == 8 && sendBuffer == []
          else r == Ok([]) && handshakeStatus == 1 && sendBuffer == old(sendBuffer) + AppRecord(buf)
        case _ => r == Ok([]) && handshakeStatus == old(handshakeStatus) && sendBuffer == old(sendBuffer) + AppRecord(buf)
    {
      if handshakeStatus == -1 {
        return Ok(buf);
      }
      if |buf| > 0xFFFF {
        return Err(StructError);
      }
      if handshakeStatus == 8 {
        return Ok(AppRecord(buf));
      }
      sendBuffer := sendBuffer + AppRecord(buf);
      if handshakeStatus == 0 {
        handshakeStatus := 1;
        return TicketClientHello(mac, key, data.clientId, now, random18, SniHost(obfsParam, serverHost), ticket208);
      }
      if handshakeStatus == 1 && |buf| == 0 {
        var flight := FinishedFlight(mac, key, data.clientId, Tls12, random22);
        assert flight + sendBuffer == flight + old(sendBuffer) + AppRecord(buf);
        r := Ok(flight + sendBuffer);
        sendBuffer := [];
        handshakeStatus := 8;
        return;
      }
      r := Ok([]);
    }

    /** `client_decode`. Raw: unchanged. Application data: the record loop,
        raising on a wrong type byte. Otherwise the server's flight must
        carry a tag made with the client's own id; the state does not move
        until the caller's empty encode call. */
    method ClientDecode(buf: seq<byte>) returns (r: Result<ClientDecoded>)
      requires Valid()
      modifies this`recvBuffer
      ensures Valid()
      ensures old(handshakeStatus) == -1 ==> r == Ok(ClientDecoded(buf, false)) && unchanged(this)
      ensures old(handshakeStatus) == 8 ==>
        var d := Reassemble(old(recvBuffer) + buf);
        && recvBuffer == d.rest
        && r == if d.bad then Err(DataError) else Ok(ClientDecoded(d.out, false))
      ensures old(handshakeStatus) !in {-1, 8} ==> (unchanged(this)
        && r == if ServerHelloAuthentic(buf, mac, key, data.clientId) then Ok(ClientDecoded([], true)) else Err(DataError))
    {
      if handshakeStatus == -1 {
        return Ok(ClientDecoded(buf, false));
      }
      if handshakeStatus == 8 {
        var out, bad := Drain(buf);
        if bad {
          return Err(DataError);
        }
        return Ok(ClientDecoded(out, false));
      }
      if !ServerHelloAuthentic(buf, mac, key, data.clientId) {
        return Err(DataError);
      }
      r := Ok(ClientDecoded([], true));
    }

    /** `server_encode`. Raw: unchanged. Application data: records of at most
        8192 bytes. Otherwise the ServerHello (tag and echoed session id),
        ChangeCipherSpec and Finished, closed by an HMAC under the session
        id; the payload itself is not sent. */
    method ServerEncode(buf: seq<byte>, now: nat, random18: seq<byte>, random22: seq<byte>) returns (r: seq<byte>)
      requires Valid() && |random18| == 18 && |random22| == 22
      modifies this`handshakeStatus
      ensures Valid()
      ensures old(handshakeStatus) == -1 ==> r == buf && handshakeStatus == -1
      ensures old(handshakeStatus) == 8 ==> r == Sealed(buf) && handshakeStatus == 8
      ensures old(handshakeStatus) !in {-1, 8} ==>
        && r == ServerFlight(mac, key, clientId, Tls12, PackAuthData(mac, key, clientId, now, random18), TicketServerTail, random22)
        && handshakeStatus == 3
    {
      if handshakeStatus == -1 {
        return buf;
      }
      if handshakeStatus == 8 {
        r := SealRecords(buf);
        return;
      }
      handshakeStatus := 3;
      r := ServerFlight(mac, key, clientId, Tls12, PackAuthData(mac, key, clientId, now, random18), TicketServerTail, random22);
    }

    /** `decode_error_return`: raw pass-through for good. */
    method DecodeErrorReturn(buf: seq<byte>) returns (r: ServerDecoded)
      modifies this`handshakeStatus
      ensures handshakeStatus == -1
      ensures r == Fallback(methodName == StrictMethod, buf)
    {
      handshakeStatus := -1;
      if methodName == StrictMethod {
        r := ServerDecoded(ErrorSentinel, false, false);
      } else {
        r := ServerDecoded(buf, true, false);
      }
    }

    /** The Finished branch of `server_decode`: the client's flight must
        check under the session id; what follows it is held and the record
        loop runs at once. */
    method ReceiveFinished(buf: seq<byte>) returns (r: Result<ServerDecoded>)
      requires Valid()
      modifies this`handshakeStatus, this`recvBuffer
      ensures Valid()
      ensures var f := CheckFinished(buf, mac, key, clientId, Tls12);
        if f.Err? then r == Err(DataError) && unchanged(this)
        else
          var d := Reassemble(f.value);
          && handshakeStatus == 8 && recvBuffer == d.rest
          && r == if d.bad then Err(DataError) else Ok(ServerDecoded(d.out, true, false))
    {
      var finished := CheckFinished(buf, mac, key, clientId, Tls12);
      if finished.Err? {
        return Err(DataError);
      }
      recvBuffer := finished.value;
      handshakeStatus := 8;
      var out, bad := Drain([]);
      assert finished.value + [] == finished.value;
      if bad {
        return Err(DataError);
      }
      r := Ok(ServerDecoded(out, true, false));
    }

    /** The ClientHello branch of `server_decode`. */
    method ReceiveHello(buf: seq<byte>, now: nat, expired: set<seq<byte>>) returns (r: Result<ServerDecoded>)
      requires Valid()
      modifies this`handshakeStatus, this`clientId, data`clientData
      ensures Valid()
      ensures var v := Verdict(buf, Tls12, mac, key, now, data.startupTime, old(data.clientData));
        && (r == Ok(ServerDecoded([], false, true)) <==> v.Admitted?)
        && (v.Admitted? ==>
              && clientId == v.sessionId && handshakeStatus == 2
              && data.clientData == (old(data.clientData) - expired)[ParseAuthHello(buf, Tls12).verifyId[..22] := v.sessionId])
        && (v.Refused? ==> clientId == v.sessionId)
        && (v.Unparsed? ==> clientId == old(clientId))
        && (v.Refused? || v.Unparsed? ==>
              r == Ok(Fallback(methodName == StrictMethod, buf)) && handshakeStatus == -1 && unchanged(data))
        && (v.Raised? ==> r == Err(v.error) && clientId == old(clientId) && handshakeStatus == 2 && unchanged(data))
    {
      handshakeStatus := 2;
      var verdict := data.CheckHello(buf, Tls12, mac, key, now, expired);
      match verdict
      case Raised(e) =>
        r := Err(e);
      case Unparsed =>
        var fallback := DecodeErrorReturn(buf);
        r := Ok(fallback);
      case Refused(sessionId) =>
        clientId := sessionId;
        var fallback := DecodeErrorReturn(buf);
        r := Ok(fallback);
      case Admitted(sessionId) =>
        clientId := sessionId;
        r := Ok(ServerDecoded([], false, true));
    }

    /** `server_decode`: raw pass-through, the record loop, the client's
        Finished flight, or its ClientHello, by handshake status. */
    method ServerDecode(buf: seq<byte>, now: nat, expired: set<seq<byte>>) returns (r: Result<ServerDecoded>)
      requires Valid()
      modifies this`handshakeStatus, this`recvBuffer, this`clientId, data`clientData
      ensures Valid()
      ensures old(handshakeStatus) == -1 ==> r == Ok(ServerDecoded(buf, true, false)) && unchanged(this) && unchanged(data)
      ensures old(handshakeStatus) == 8 ==>
        var d := Reassemble(old(recvBuffer) + buf);
        && recvBuffer == d.rest && handshakeStatus == 8 && clientId == old(clientId) && unchanged(data)
        && r == if d.bad then Err(DataError) else Ok(ServerDecoded(d.out, true, false))
      ensures old(handshakeStatus) == 3 ==> (unchanged(data) && clientId == old(clientId) &&
        var f := CheckFinished(buf, mac, key, clientId, Tls12);
        if f.Err? then r == Err(DataError) && handshakeStatus == 3 && recvBuffer == old(recvBuffer)
        else
          var d := Reassemble(f.value);
          && handshakeStatus == 8 && recvBuffer == d.rest
          && r == if d.bad then Err(DataError) else Ok(ServerDecoded(d.out, true, false)))
      ensures old(handshakeStatus) !in {-1, 8, 3} ==> (recvBuffer == old(recvBuffer) &&
        var v := Verdict(buf, Tls12, mac, key, now, data.startupTime, old(data.clientData));
        && (r == Ok(ServerDecoded([], false, true)) <==> v.Admitted?)
        && (v.Admitted? ==>
              && clientId == v.sessionId && handshakeStatus == 2
              && data.clientData == (old(data.clientData) - expired)[ParseAuthHello(buf, Tls12).verifyId[..22] := v.sessionId])
        && (v.Refused? ==> clientId == v.sessionId)
        && (v.Unparsed? ==> clientId == old(clientId))
        && (v.Refused? || v.Unparsed? ==>
              r == Ok(Fallback(methodName == StrictMethod, buf)) && handshakeStatus == -1 && unchanged(data))
        && (v.Raised? ==> r == Err(v.error) && clientId == old(clientId) && handshakeStatus == 2 && unchanged(data)))
    {
      if handshakeStatus == -1 {
        return Ok(ServerDecoded(buf, true, false));
      }
      if handshakeStatus == 8 {
        var out, bad := Drain(buf);
        if bad {
          return Err(DataError);
        }
        return Ok(ServerDecoded(out, true, false));
      }
      if handshakeStatus == 3 {
        r := ReceiveFinished(buf);
        return;
      }
      r := ReceiveHello(buf, now, expired);
    }
  }

  /** A ticket session: after the greeting, the client's empty call sends
      ChangeCipherSpec + Finished and the payload kept behind the hello, as a
      record followed by the empty record of that call; the server checks
      the Finished, releases the payload and holds the empty record. */
  method Session(methodName: string, mac: Mac, key: seq<byte>, clientRandom: Bytes32, serverRandom: Bytes32,
                 obfsParam: seq<byte>, serverHost: seq<byte>, startedAt: nat, now: nat,
                 random18: seq<byte>, ticket208: seq<byte>, random22: seq<byte>, p1: seq<byte>, expired: set<seq<byte>>)
    returns (client: TlsTicketAuth, server: TlsTicketAuth, sent: Result<seq<byte>>, received: Result<ServerDecoded>)
    requires |random18| == 18 && |ticket208| == 208 && |random22| == 22 && |p1| <= 0xFFFF
    requires |obfsParam| + 394 <= 0xFFFF && |serverHost| + 394 <= 0xFFFF
    requires StartupBackdate <= startedAt <= now < 0x8000_0000
    ensures sent == Ok(FinishedFlight(mac, key, clientRandom, Tls12, random22) + AppRecord(p1) + AppRecord([]))
    ensures received == Ok(ServerDecoded(p1, true, false))
    ensures client.handshakeStatus == 8 && client.recvBuffer == [] && client.Valid()
    ensures server.handshakeStatus == 8 && server.recvBuffer == AppRecord([]) && server.Valid()
    ensures fresh(client) && fresh(server) && client != server
  {
    var admitted, answered;
    client, server, admitted, answered := Greeting(methodName, mac, key, clientRandom, serverRandom, obfsParam, serverHost,
                                     startedAt, now, random18, ticket208, random22, p1, expired);
    sent := client.ClientEncode([], now, random18, ticket208, random22);
    received := Conclude(server, random22, p1, now, expired);
  }

  /** A server that sent its flight takes the client's Finished flight with
      the payload record and an empty record behind it: the payload is
      released and the empty record held. */
  method Conclude(server: TlsTicketAuth, random22: seq<byte>, p1: seq<byte>, now: nat, expired: set<seq<byte>>)
    returns (received: Result<ServerDecoded>)
    requires server.Valid() && server.handshakeStatus == 3 && |random22| == 22 && |p1| <= 0xFFFF
    modifies server`handshakeStatus, server`recvBuffer, server`clientId, server.data`clientData
    ensures received == Ok(ServerDecoded(p1, true, false))
    ensures server.handshakeStatus == 8 && server.recvBuffer == AppRecord([]) && server.Valid()
  {
    var finished := FinishedFlight(server.mac, server.key, server.clientId, Tls12, random22);
    var records := AppRecord(p1) + AppRecord([]);
    FinishedRoundTrip(server.mac, server.key, server.clientId, Tls12, random22, records);
    ReassembleRecord(p1, AppRecord([]));
    EmptyRecordHeld();
    assert p1 + [] == p1;
    received := server.ServerDecode(finished + records, now, expired);
  }

  /** The greeting: the client sends its ClientHello and keeps the payload as
      a record, the server admits the hello and answers with its flight, and
      the client accepts that flight. */
  method Greeting(methodName: string, mac: Mac, key: seq<byte>, clientRandom: Bytes32, serverRandom: Bytes32,
                  obfsParam: seq<byte>, serverHost: seq<byte>, startedAt: nat, now: nat,
                  random18: seq<byte>, ticket208: seq<byte>, random22: seq<byte>, p1: seq<byte>, expired: set<seq<byte>>)
    returns (client: TlsTicketAuth, server: TlsTicketAuth, admitted: Result<ServerDecoded>, answered: Result<ClientDecoded>)
    requires |random18| == 18 && |ticket208| == 208 && |random22| == 22 && |p1| <= 0xFFFF
    requires |obfsParam| + 394 <= 0xFFFF && |serverHost| + 394 <= 0xFFFF
    requires StartupBackdate <= startedAt <= now < 0x8000_0000
    ensures admitted == Ok(ServerDecoded([], false, true))
    ensures answered == Ok(ClientDecoded([], true))
    ensures fresh(client) && fresh(server) && fresh(server.data) && client != server
    ensures client.key == key && client.mac == mac && client.data.clientId == clientRandom && client.Valid()
    ensures client.handshakeStatus == 1 && client.sendBuffer == AppRecord(p1) && client.recvBuffer == []
    ensures server.key == key && server.mac == mac && server.Valid()
    ensures server.clientId == clientRandom && server.handshakeStatus == 3 && server.recvBuffer == []
  {
    var hello, tag;
    client, hello, tag := OpenClient(methodName, mac, key, clientRandom, obfsParam, serverHost,
                                     startedAt, now, random18, ticket208, random22, p1);
    server, admitted := Admit(methodName, mac, key, serverRandom, startedAt, now, hello, tag, clientRandom, expired);
    var flight := Answer(server, now, random18, random22);
    answered := client.ClientDecode(flight);
  }

  /** A fresh client sends its ClientHello, which parses to its own tag and
      id, and keeps the payload as a record. */
  method OpenClient(methodName: string, mac: Mac, key: seq<byte>, clientRandom: Bytes32,
                    obfsParam: seq<byte>, serverHost: seq<byte>, startedAt: nat, now: nat,
                    random18: seq<byte>, ticket208: seq<byte>, random22: seq<byte>, p1: seq<byte>)
    returns (client: TlsTicketAuth, hello: seq<byte>, tag: seq<byte>)
    requires |random18| == 18 && |ticket208| == 208 && |random22| == 22 && |p1| <= 0xFFFF
    requires |obfsParam| + 394 <= 0xFFFF && |serverHost| + 394 <= 0xFFFF
    ensures ParseAuthHello(hello, Tls12) == Parsed(tag, clientRandom)
    ensures |tag| == 32 && Be32At(tag, 0) == now % 0x1_0000_0000 && TagOk(mac, key, clientRandom, tag)
    ensures fresh(client) && client.key == key && client.mac == mac && client.data.clientId == clientRandom
    ensures client.handshakeStatus == 1 && client.sendBuffer == AppRecord(p1) && client.recvBuffer == [] && client.Valid()
  {
    var clientData := new AuthData(clientRandom, startedAt);
    client := new TlsTicketAuth(methodName, key, mac, clientData, obfsParam, serverHost);
    var sent := client.ClientEncode(p1, now, random18, ticket208, random22);
    hello := sent.value;
    tag := PackAuthData(mac, key, clientRandom, now, random18);
  }

  /** A fresh server admits a hello that parses to a well-made tag of the
      current time and takes the session id as client id. */
  method Admit(methodName: string, mac: Mac, key: seq<byte>, serverRandom: Bytes32, startedAt: nat, now: nat,
               hello: seq<byte>, tag: seq<byte>, sessionId: seq<byte>, expired: set<seq<byte>>)
    returns (server: TlsTicketAuth, admitted: Result<ServerDecoded>)
    requires ParseAuthHello(hello, Tls12) == Parsed(tag, sessionId)
    requires |tag| == 32 && Be32At(tag, 0) == now % 0x1_0000_0000 && TagOk(mac, key, sessionId, tag)
    requires StartupBackdate <= startedAt <= now < 0x8000_0000
    ensures fresh(server) && fresh(server.data) && server.Valid()
    ensures server.methodName == methodName && server.key == key && server.mac == mac
    ensures server.clientId == sessionId && server.handshakeStatus == 2 && server.recvBuffer == []
    ensures server.data.clientData == map[tag[..22] := sessionId]
    ensures admitted == Ok(ServerDecoded([], false, true))
  {
    var serverData := new AuthData(serverRandom, startedAt);
    server := new TlsTicketAuth(methodName, key, mac, serverData, [], []);
    ClocksInStep(startedAt, now);
    assert Admissible(hello, Tls12, mac, key, now, serverData.startupTime, serverData.clientData);
    admitted := server.ServerDecode(hello, now, expired);
    var empty: map<seq<byte>, seq<byte>> := map[];
    assert empty - expired == empty;
  }

  /** A server that has admitted a hello answers with a flight that the
      client holding the session id accepts. */
  method Answer(server: TlsTicketAuth, now: nat, random18: seq<byte>, random22: seq<byte>) returns (flight: seq<byte>)
    requires server.Valid() && server.handshakeStatus == 2
    requires |random18| == 18 && |random22| == 22
    modifies server`handshakeStatus
    ensures server.handshakeStatus == 3
    ensures ServerHelloAuthentic(flight, server.mac, server.key, server.clientId)
  {
    flight := server.ServerEncode([], now, random18, random22);
    ServerFlightAuthentic(server.mac, server.key, server.clientId, Tls12, now, random18, TicketServerTail, random22);
  }

  /** Once both ends are in the application-data phase, what the server
      encodes reaches the client's caller unchanged. */
  method Deliver(server: TlsTicketAuth, client: TlsTicketAuth, payload: seq<byte>, now: nat,
                 random18: seq<byte>, random22: seq<byte>) returns (delivered: Result<ClientDecoded>)
    requires server.Valid() && client.Valid() && server.handshakeStatus == 8 && client.handshakeStatus == 8
    requires client.recvBuffer == [] && |random18| == 18 && |random22| == 22
    modifies server`handshakeStatus, client`recvBuffer
    ensures delivered == Ok(ClientDecoded(payload, false)) && client.recvBuffer == []
  {
    var wire := server.ServerEncode(payload, now, random18, random22);
    ReassembleSealed(payload);
    assert [] + wire == wire;
    delivered := client.ClientDecode(wire);
  }
}
