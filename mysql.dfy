/** `mysql_simple`: payloads framed as MySQL packets, a 4-byte little-endian
    header whose low 3 bytes are the payload length and whose top byte is a
    packet number. */
module MysqlSimple {
  import opened Wire

  /** The method name whose fallback answers with the error sentinel; every
      other name (`mysql_simple_compatible`) passes the input through. */
  const StrictMethod: string := "mysql_simple"

  /** Largest raw first header the server accepts before falling back. */
  const FirstHeaderLimit: nat := 0xFFFF

  /** Bitwise OR of two bytes. */
  function ByteOr(a: byte, b: byte): byte
  {
    ((a as bv8) | (b as bv8)) as int
  }

  /** The 32-bit value a header encodes (`struct.unpack('<I', h[:4])`). */
  function RawSize(h: seq<byte>): (n: nat)
    requires |h| >= 4
    ensures n < 0x1_0000_0000
  {
    h[0] as int + h[1] as int * 0x100 + h[2] as int * 0x1_0000 + h[3] as int * 0x100_0000
  }

  /** The frame length the decoders use: the raw value with the packet number
      masked off (`size &= 0xffffff`). */
  function FrameSize(h: seq<byte>): (n: nat)
    requires |h| >= 4
    ensures n == RawSize(h) % 0x100_0000
  {
    h[0] as int + h[1] as int * 0x100 + h[2] as int * 0x1_0000
  }

  /** `struct.pack('<I', len | (num << 24))`: fails once the value no longer
      fits in 32 bits. */
  function Header(len: nat, num: nat): (r: Result<seq<byte>>)
    ensures r.Ok? <==> len < 0x1_0000_0000 && num < 0x100
    ensures r.Ok? ==> |r.value| == 4 && FrameSize(r.value) == len % 0x100_0000
    // the top byte: bits 24..31 of the length OR-ed with the packet number
    ensures r.Ok? ==> r.value[3] == ByteOr(len / 0x100_0000, num)
  {
    if len >= 0x1_0000_0000 || num >= 0x100 then Err(StructError)
    else
      var h := [len % 0x100, len / 0x100 % 0x100, len / 0x1_0000 % 0x100, ByteOr(len / 0x100_0000, num)];
      LowBytes(len);
      Ok(h)
  }

  /** The three low header bytes spell the length modulo 2^24. */
  lemma LowBytes(len: nat)
    ensures len % 0x100 + (len / 0x100 % 0x100) * 0x100 + (len / 0x1_0000 % 0x100) * 0x1_0000
            == len % 0x100_0000
  {
    var q1 := len / 0x100;
    var q2 := q1 / 0x100;
    var q3 := q2 / 0x100;
    assert len == len % 0x100 + 0x100 * q1;
    assert q1 == q1 % 0x100 + 0x100 * q2;
    assert q2 == q2 % 0x100 + 0x100 * q3;
    assert q2 == len / 0x1_0000;
    var low := len % 0x100 + (q1 % 0x100) * 0x100 + (q2 % 0x100) * 0x1_0000;
    assert len == low + 0x100_0000 * q3;
    assert 0 <= low < 0x100_0000;
  }

  /** A length below 2^24 leaves the top byte to the packet number alone. */
  lemma HeaderLayout(len: nat, num: nat)
    requires len < 0x100_0000 && num < 0x100
    ensures Header(len, num) == Ok([len % 0x100, len / 0x100 % 0x100, len / 0x1_0000, num])
    ensures RawSize(Header(len, num).value) == len + num * 0x100_0000
  {
    assert len / 0x100_0000 == 0;
    assert len / 0x1_0000 < 0x100 && len / 0x1_0000 % 0x100 == len / 0x1_0000;
    OrWithZero(num);
    var h := [len % 0x100, len / 0x100 % 0x100, len / 0x1_0000, num];
    assert Header(len, num).value == h;
    LowBytes(len);
    assert RawSize(h) == len + num * 0x100_0000;
  }

  /** OR-ing a byte into a zero byte leaves it as it is. */
  lemma OrWithZero(b: byte)
    ensures ByteOr(0, b) == b
  {
    assert (0 as bv8) | (b as bv8) == b as bv8;
  }

  /** A 3-byte payload with packet number 5 gets the header `03 00 00 05`. */
  lemma HeaderExample()
    ensures Header(3, 5) == Ok([0x03, 0x00, 0x00, 0x05])
  {
    HeaderLayout(3, 5);
  }

  /** The frames released from a receive buffer and what stays buffered. */
  datatype Frames = Frames(frames: seq<seq<byte>>, rest: seq<byte>)

  /** The decoders' loop as a function: while more than 4 bytes are held, a
      frame is released only when the buffer is strictly longer than
      `4 + size`. */
  function Release(s: seq<byte>): (r: Frames)
    ensures forall i :: 0 <= i < |r.frames| ==>
      |r.frames[i]| >= 4 && |r.frames[i]| == 4 + FrameSize(r.frames[i])
    decreases |s|
  {
    if |s| <= 4 then Frames([], s)
    else
      var size := FrameSize(s);
      if size + 4 >= |s| then Frames([], s)
      else
        var tail := Release(s[size + 4..]);
        Frames([s[..size + 4]] + tail.frames, tail.rest)
  }

  /** One step of the release loop. */
  lemma ReleaseStep(s: seq<byte>)
    requires |s| > 4 && FrameSize(s) + 4 < |s|
    ensures Release(s).frames == [s[..FrameSize(s) + 4]] + Release(s[FrameSize(s) + 4..]).frames
    ensures Release(s).rest == Release(s[FrameSize(s) + 4..]).rest
  {
  }

  /** The release loop stops with nothing released. */
  lemma ReleaseStop(s: seq<byte>)
    requires |s| <= 4 || FrameSize(s) + 4 >= |s|
    ensures Release(s) == Frames([], s)
  {
  }

  /** Invariant of the decoders' loop over the bytes `all` held at its start:
      `done` is released so far and `held` is still buffered. */
  ghost predicate Progress(all: seq<byte>, done: seq<seq<byte>>, held: seq<byte>)
  {
    Release(all).frames == done + Release(held).frames && Release(all).rest == Release(held).rest
  }

  lemma ProgressStep(all: seq<byte>, done: seq<seq<byte>>, held: seq<byte>)
    requires Progress(all, done, held) && |held| > 4 && FrameSize(held) + 4 < |held|
    ensures Progress(all, done + [held[..FrameSize(held) + 4]], held[FrameSize(held) + 4..])
  {
    ReleaseStep(held);
    assert done + [held[..FrameSize(held) + 4]] + Release(held[FrameSize(held) + 4..]).frames
        == done + ([held[..FrameSize(held) + 4]] + Release(held[FrameSize(held) + 4..]).frames);
  }

  lemma ProgressDone(all: seq<byte>, done: seq<seq<byte>>, held: seq<byte>)
    requires Progress(all, done, held) && (|held| <= 4 || FrameSize(held) + 4 >= |held|)
    ensures Release(all) == Frames(done, held)
  {
    ReleaseStop(held);
    assert done + [] == done;
  }

  /** The payloads of released frames, in order. */
  function Payloads(frames: seq<seq<byte>>): seq<byte>
    requires forall i :: 0 <= i < |frames| ==> |frames[i]| >= 4
  {
    if frames == [] then [] else frames[0][4..] + Payloads(frames[1..])
  }

  lemma {:induction false} PayloadsAppend(a: seq<seq<byte>>, f: seq<byte>)
    requires forall i :: 0 <= i < |a| ==> |a[i]| >= 4
    requires |f| >= 4
    ensures Payloads(a + [f]) == Payloads(a) + f[4..]
  {
    if a == [] {
      assert a + [f] == [f];
    } else {
      assert (a + [f])[1..] == a[1..] + [f];
      PayloadsAppend(a[1..], f);
    }
  }

  /** Decode accounting: the released frames followed by what stays buffered
      are exactly the bytes that were held. */
  lemma {:induction false} ReleaseAccounting(s: seq<byte>)
    ensures Concat(Release(s).frames) + Release(s).rest == s
    decreases |s|
  {
    if |s| > 4 && FrameSize(s) + 4 < |s| {
      var size := FrameSize(s);
      var tail := Release(s[size + 4..]);
      ReleaseAccounting(s[size + 4..]);
      assert ([s[..size + 4]] + tail.frames)[1..] == tail.frames;
      assert s == s[..size + 4] + s[size + 4..];
    }
  }

  /** What stays buffered never holds a frame plus at least one more byte. */
  lemma {:induction false} ReleaseLeavesNoSurplusFrame(s: seq<byte>)
    ensures var rest := Release(s).rest;
      |rest| <= 4 || FrameSize(rest) + 4 >= |rest|
    decreases |s|
  {
    if |s| > 4 && FrameSize(s) + 4 < |s| {
      ReleaseLeavesNoSurplusFrame(s[FrameSize(s) + 4..]);
    }
  }

  /** The off-by-one of the release rule: a frame that exactly fills the buffer
      stays buffered; one more byte after it releases it. */
  lemma ExactFrameHeld(h: seq<byte>, p: seq<byte>, b: byte)
    requires |h| == 4 && FrameSize(h) == |p|
    ensures Release(h + p) == Frames([], h + p)
    ensures Release(h + p + [b]) == Frames([h + p], [b])
  {
    var s := h + p + [b];
    assert s[..4] == h;
    assert FrameSize(s) == |p|;
    assert s[..|p| + 4] == h + p;
    assert s[|p| + 4..] == [b];
    assert (h + p)[..4] == h;
  }

  /** The per-connection state of `mysql_simple`. */
  class MysqlSimple {
    const methodName: string
    var rawTrans: bool
    var recvBuffer: seq<byte>
    var sendPackNum: nat
    var recvPackNum: nat

    constructor(methodName: string)
      ensures this.methodName == methodName
      ensures !rawTrans && recvBuffer == [] && sendPackNum == 0 && recvPackNum == 0
    {
      this.methodName := methodName;
      rawTrans := false;
      recvBuffer := [];
      sendPackNum := 0;
      recvPackNum := 0;
    }

    /** `client_encode`: a header for the current packet number, then the
        payload. Changes no state. */
    method ClientEncode(buf: seq<byte>) returns (r: Result<seq<byte>>)
      ensures r.Ok? <==> |buf| < 0x1_0000_0000 && sendPackNum < 0x100
      ensures r.Ok? ==> |r.value| == |buf| + 4 && r.value[4..] == buf
      ensures r.Ok? ==> FrameSize(r.value) == |buf| % 0x100_0000 && r.value[..4] == Header(|buf|, sendPackNum).value
    {
      var h := Header(|buf|, sendPackNum);
      if h.Err? {
        r := Err(h.error);
      } else {
        r := Ok(h.value + buf);
        assert r.value[..4] == h.value;
      }
    }

    /** The frame loop both decoders run over the buffered bytes: while more
        than 4 bytes are held and the first header's frame is not the whole
        buffer, release that frame and count it. */
    method TakeFrames() returns (ret: seq<byte>)
      modifies this`recvBuffer, this`recvPackNum
      ensures var rel := Release(old(recvBuffer));
        ret == Payloads(rel.frames)
        && recvBuffer == rel.rest
        && recvPackNum == old(recvPackNum) + |rel.frames|
    {
      ghost var all := recvBuffer;
      ghost var done: seq<seq<byte>> := [];
      ret := [];
      while |recvBuffer| > 4
        invariant Progress(all, done, recvBuffer)
        invariant forall i :: 0 <= i < |done| ==> |done[i]| >= 4
        invariant ret == Payloads(done)
        invariant recvPackNum == old(recvPackNum) + |done|
        decreases |recvBuffer|
      {
        var size := FrameSize(recvBuffer);
        if size + 4 >= |recvBuffer| {
          break;
        }
        var frame := recvBuffer[..size + 4];
        ProgressStep(all, done, recvBuffer);
        PayloadsAppend(done, frame);
        ret := ret + recvBuffer[4..size + 4];
        recvPackNum := recvPackNum + 1;
        recvBuffer := recvBuffer[size + 4..];
        done := done + [frame];
      }
      ProgressDone(all, done, recvBuffer);
    }

    /** `client_decode`: buffer `buf`, then release every complete frame
        strictly shorter than what is held, in order. */
    method ClientDecode(buf: seq<byte>) returns (r: ClientDecoded)
      modifies this`recvBuffer, this`recvPackNum
      ensures var rel := Release(old(recvBuffer) + buf);
        r == ClientDecoded(Payloads(rel.frames), false)
        && recvBuffer == rel.rest
        && recvPackNum == old(recvPackNum) + |rel.frames|
    {
      recvBuffer := recvBuffer + buf;
      var ret := TakeFrames();
      r := ClientDecoded(ret, false);
    }

    /** `server_encode`: frame with the current packet number and advance it,
        unless the connection has fallen back to raw pass-through. */
    method ServerEncode(buf: seq<byte>) returns (r: Result<seq<byte>>)
      modifies this`sendPackNum
      ensures old(rawTrans) ==> r == Ok(buf) && sendPackNum == old(sendPackNum)
      ensures !old(rawTrans) ==>
        r == (var h := Header(|buf|, old(sendPackNum)); if h.Ok? then Ok(h.value + buf) else Err(h.error))
      ensures !old(rawTrans) ==> sendPackNum == if r.Ok? then old(sendPackNum) + 1 else old(sendPackNum)
    {
      if rawTrans {
        return Ok(buf);
      }
      var h := Header(|buf|, sendPackNum);
      if h.Err? {
        return Err(h.error);
      }
      r := Ok(h.value + buf);
      sendPackNum := sendPackNum + 1;
    }

    /** `decode_error_return`: switch to raw pass-through for good. */
    method DecodeErrorReturn(buf: seq<byte>) returns (r: ServerDecoded)
      modifies this`rawTrans
      ensures rawTrans
      ensures r == Fallback(methodName == StrictMethod, buf)
    {
      rawTrans := true;
      if methodName == StrictMethod {
        r := ServerDecoded(ErrorSentinel, false, false);
      } else {
        r := ServerDecoded(buf, true, false);
      }
    }

    /** `server_decode`: as `client_decode`, except that while no frame has
        been received a raw first header above 0xFFFF falls back, and every
        released frame resets the send counter. The source tests the first
        header inside the frame loop, where it can only hold on the first
        pass; here it is tested once before the loop. */
    method ServerDecode(buf: seq<byte>) returns (r: ServerDecoded)
      modifies this`rawTrans, this`recvBuffer, this`recvPackNum, this`sendPackNum
      ensures old(rawTrans) ==> r == ServerDecoded(buf, true, false)
      ensures old(rawTrans) ==> unchanged(this)
      ensures !old(rawTrans) && FirstFrameRejected(old(recvPackNum), old(recvBuffer) + buf) ==>
        rawTrans && recvBuffer == old(recvBuffer) + buf
        && sendPackNum == old(sendPackNum) && recvPackNum == old(recvPackNum)
        && r == Fallback(methodName == StrictMethod, buf)
      ensures !old(rawTrans) && !FirstFrameRejected(old(recvPackNum), old(recvBuffer) + buf) ==>
        var rel := Release(old(recvBuffer) + buf);
        !rawTrans
        && r == ServerDecoded(Payloads(rel.frames), false, true)
        && recvBuffer == rel.rest
        && recvPackNum == old(recvPackNum) + |rel.frames|
        && sendPackNum == if rel.frames == [] then old(sendPackNum) else 0
    {
      if rawTrans {
        return ServerDecoded(buf, true, false);
      }
      recvBuffer := recvBuffer + buf;
      if recvPackNum == 0 && |recvBuffer| > 4 && RawSize(recvBuffer) > FirstHeaderLimit {
        r := DecodeErrorReturn(buf);
        return;
      }
      var before := recvPackNum;
      var ret := TakeFrames();
      if recvPackNum != before {
        sendPackNum := 0;
      }
      r := ServerDecoded(ret, false, true);
    }
  }

  /** The first-frame rule: while nothing has been received, a raw header
      value above 0xFFFF (more than 4 bytes held) is a handshake mismatch. */
  predicate FirstFrameRejected(recvPackNum: nat, held: seq<byte>)
  {
    recvPackNum == 0 && |held| > 4 && RawSize(held) > FirstHeaderLimit
  }

  /** A fresh client and a fresh server: the client's frame of `p`, followed by
      one more byte, reaches the server's caller as exactly `p`, and the server
      asks for a reply. */
  method FreshRoundTrip(methodName: string, p: seq<byte>, extra: byte)
    returns (frame: seq<byte>, decoded: ServerDecoded)
    requires |p| <= FirstHeaderLimit
    ensures frame == [|p| % 0x100, |p| / 0x100, 0, 0] + p
    ensures decoded == ServerDecoded(p, false, true)
  {
    var client := new MysqlSimple(methodName);
    var server := new MysqlSimple(methodName);
    var encoded := client.ClientEncode(p);
    HeaderLayout(|p|, 0);
    frame := encoded.value;
    assert frame[..4] == [|p| % 0x100, |p| / 0x100, 0, 0];
    assert frame == frame[..4] + p;
    ExactFrameHeld(frame[..4], p, extra);
    assert RawSize(frame + [extra]) == |p|;
    decoded := server.ServerDecode(frame + [extra]);
    assert Release(frame + [extra]).frames == [frame];
    assert Payloads([frame]) == p;
  }
}
