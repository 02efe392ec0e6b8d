/** Byte framing between a storage node and the master: a 4-byte big-endian size, then the payload. */
module Wire {
  import opened Common

  const TWO_32 := 0x1_0000_0000

  /** htonl((uint32_t) n): sizes of 4 GiB and more lose their upper bits. */
  function EncodeSize(n: nat): (s: Bytes)
    ensures |s| == 4
  {
    var b0 := n % TWO_32;
    var b1 := b0 / 0x100;
    var b2 := b1 / 0x100;
    [(b2 / 0x100) as byte, (b2 % 0x100) as byte, (b1 % 0x100) as byte, (b0 % 0x100) as byte]
  }

  function DecodeSize(s: Bytes): nat
    requires |s| == 4
  {
    s[0] as nat * 0x100_0000 + s[1] as nat * 0x1_0000 + s[2] as nat * 0x100 + s[3] as nat
  }

  lemma SizeReadsBack(n: nat)
    ensures DecodeSize(EncodeSize(n)) == n % TWO_32
  {
  }

  /** Most significant byte first, as the reader of a big-endian u32 expects it. */
  lemma SizeIsBigEndian(n: nat)
    requires n < 4_294_967_296
    ensures var s := EncodeSize(n);
      n == s[0] as nat * 16_777_216 + s[1] as nat * 65_536 + s[2] as nat * 256 + s[3] as nat
  {
    SizeReadsBack(n);
  }

  function Frame(m: Bytes): (s: Bytes)
    ensures |s| == 4 + |m|
  {
    EncodeSize(|m|) + m
  }

  function Frames(ms: seq<Bytes>): Bytes {
    if ms == [] then [] else Frame(ms[0]) + Frames(ms[1..])
  }

  /** The payloads of all complete frames at the start of a stream: read_u32, read_exact, again. */
  function Parse(s: Bytes): seq<Bytes>
    decreases |s|
  {
    if |s| < 4 then []
    else
      var size := DecodeSize(s[..4]);
      if |s| - 4 < size then [] else [s[4..4 + size]] + Parse(s[4 + size..])
  }

  /** What the parser does with a frame at the head of a longer stream. */
  lemma ParseFrame(m: Bytes, rest: Bytes)
    ensures var cut := |m| % TWO_32;
      Parse(Frame(m) + rest) == [m[..cut]] + Parse(m[cut..] + rest)
  {
    var s, cut := Frame(m) + rest, |m| % TWO_32;
    SizeReadsBack(|m|);
    assert s[..4] == EncodeSize(|m|);
    assert s[4..4 + cut] == m[..cut];
    assert s[4 + cut..] == m[cut..] + rest;
  }

  lemma SmallSizeIsKept(m: Bytes, rest: Bytes)
    requires |m| < TWO_32
    ensures |m| % TWO_32 == |m| && m[..|m|] == m && m[|m|..] + rest == rest
  {
  }

  lemma ParseWholeFrame(m: Bytes, rest: Bytes)
    requires |m| < TWO_32
    ensures Parse(Frame(m) + rest) == [m] + Parse(rest)
  {
    ParseFrame(m, rest);
    SmallSizeIsKept(m, rest);
  }

  lemma ParseCutFrame(m: Bytes, rest: Bytes)
    requires |m| >= TWO_32
    ensures var p := Parse(Frame(m) + rest); p != [] && p[0] != m
  {
    ParseFrame(m, rest);
  }

  lemma ParseShortFrame(m: Bytes, rest: Bytes, t: Bytes)
    requires |m| < TWO_32 && t <= Frame(m) + rest && |t| < |Frame(m)|
    ensures Parse(t) == []
  {
    SizeReadsBack(|m|);
    if |t| >= 4 {
      assert t[..4] == (Frame(m) + rest)[..4] == EncodeSize(|m|);
    }
  }

  ghost predicate AllFit(ms: seq<Bytes>) {
    forall i :: 0 <= i < |ms| ==> |ms[i]| < 4_294_967_296
  }

  lemma AllFitSplit(ms: seq<Bytes>)
    requires ms != []
    ensures AllFit(ms) <==> |ms[0]| < 4_294_967_296 && AllFit(ms[1..])
  {
    assert forall i :: 0 < i < |ms| ==> ms[i] == ms[1..][i - 1];
  }

  /** The stream parses to exactly the sent list if and only if every message is shorter than 2^32 bytes. */
  lemma {:induction false} FramingRoundTripIff(ms: seq<Bytes>)
    ensures Parse(Frames(ms)) == ms <==> AllFit(ms)
  {
    if ms != [] {
      var m, rest := ms[0], ms[1..];
      assert ms == [m] + rest;
      AllFitSplit(ms);
      FramingRoundTripIff(rest);
      if |m| < TWO_32 {
        ParseWholeFrame(m, Frames(rest));
        assert Parse(Frames(ms))[1..] == Parse(Frames(rest)) && ms[1..] == rest;
      } else {
        ParseCutFrame(m, Frames(rest));
      }
    }
  }

  /** A truncated stream parses to the messages whose frames are complete, and nothing else. */
  lemma {:induction false} TruncatedStream(ms: seq<Bytes>, t: Bytes) returns (k: nat)
    requires AllFit(ms) && t <= Frames(ms)
    ensures k <= |ms| && Parse(t) == ms[..k]
    ensures |Frames(ms[..k])| <= |t|
    ensures k < |ms| ==> |t| < |Frames(ms[..k + 1])|
  {
    if ms == [] {
      k := 0;
    } else {
      var m, rest := ms[0], ms[1..];
      var n := |Frame(m)|;
      AllFitSplit(ms);
      assert ms[..1] == [m] && ms[..1][1..] == [];
      if |t| < n {
        ParseShortFrame(m, Frames(rest), t);
        k := 0;
      } else {
        var tail := t[n..];
        assert t == Frame(m) + tail;
        assert tail <= Frames(rest);
        ParseWholeFrame(m, tail);
        var j := TruncatedStream(rest, tail);
        k := j + 1;
        FramesOfPrefix(ms, k);
        if k < |ms| {
          FramesOfPrefix(ms, k + 1);
        }
        assert ms[..k] == [m] + rest[..j];
      }
    }
  }

  lemma FramesOfPrefix(ms: seq<Bytes>, k: nat)
    requires 0 < k <= |ms|
    ensures Frames(ms[..k]) == Frame(ms[0]) + Frames(ms[1..][..k - 1])
  {
    assert ms[..k][0] == ms[0] && ms[..k][1..] == ms[1..][..k - 1];
  }

  // Sending

  /** What one send() call does: some bytes (n > 0), EINTR, another error, or 0. */
  datatype SendResult = Sent(count: nat) | Interrupted | Failed | PeerClosed

  /** A socket whose next results are scripted; once the script is used up every send is complete. */
  class Socket {
    var wire: Bytes
    var script: seq<SendResult>

    constructor (script: seq<SendResult>)
      ensures wire == [] && this.script == script
    {
      wire := [];
      this.script := script;
    }

    method Send(buf: Bytes) returns (r: SendResult)
      requires buf != []
      modifies this
      ensures script == if old(script) == [] then [] else old(script)[1..]
      ensures r.Sent? ==> 0 < r.count <= |buf| && wire == old(wire) + buf[..r.count]
      ensures !r.Sent? ==> wire == old(wire)
      ensures old(script) == [] ==> r.Sent?
      ensures old(script) != [] ==> SameKind(r, old(script)[0])
    {
      var next := Sent(|buf|);
      if script != [] {
        next := script[0];
        script := script[1..];
      }
      if next.Sent? {
        var n := if next.count == 0 then 1 else if next.count > |buf| then |buf| else next.count;
        wire := wire + buf[..n];
        return Sent(n);
      }
      return next;
    }
  }

  predicate SameKind(r: SendResult, t: SendResult) {
    (r.Sent? <==> t.Sent?) && (r.Interrupted? <==> t.Interrupted?) && (r.Failed? <==> t.Failed?)
  }

  predicate Failure(r: SendResult) {
    r.Failed? || r.PeerClosed?
  }

  ghost predicate NoFailure(script: seq<SendResult>) {
    forall i :: 0 <= i < |script| ==> !Failure(script[i])
  }

  /** The results used up contain no failure, or exactly one, the last, at which sending was given up. */
  ghost predicate StopsAtFailure(before: seq<SendResult>, after: seq<SendResult>, ok: bool) {
    var used := |before| - |after|;
    && used >= 0 && after == before[used..]
    && if ok then NoFailure(before[..used])
       else used >= 1 && Failure(before[used - 1]) && NoFailure(before[..used - 1])
  }

  lemma NothingUsed(script: seq<SendResult>)
    ensures StopsAtFailure(script, script, true)
  {
  }

  lemma OneUsed(before: seq<SendResult>, after: seq<SendResult>, r: SendResult)
    requires StopsAtFailure(before, after, true)
    requires after != [] ==> SameKind(r, after[0])
    requires after == [] ==> r.Sent?
    ensures StopsAtFailure(before, if after == [] then [] else after[1..], !Failure(r))
  {
    if after != [] {
      var (used, rest) := (|before| - |after|, after[1..]);
      assert |before| - |rest| == used + 1 && before[used] == after[0];
      assert rest == before[used + 1..];
      assert before[..used + 1] == before[..used] + [after[0]];
      assert Failure(r) == Failure(after[0]);
    } else {
      assert [] == before[|before|..];
    }
  }

  lemma UsesChain(a: seq<SendResult>, b: seq<SendResult>, c: seq<SendResult>, ok: bool)
    requires StopsAtFailure(a, b, true) && StopsAtFailure(b, c, ok)
    ensures StopsAtFailure(a, c, ok)
  {
    var (i, j) := (|a| - |b|, |b| - |c|);
    assert a[i..][j..] == a[i + j..];
    assert a[..i + j] == a[..i] + b[..j];
    if !ok {
      assert a[..i + j - 1] == a[..i] + b[..j - 1] && a[i + j - 1] == b[j - 1];
    }
  }

  lemma NoFailureMeansOk(before: seq<SendResult>, after: seq<SendResult>, ok: bool)
    requires StopsAtFailure(before, after, ok) && NoFailure(before)
    ensures ok && NoFailure(after)
  {
  }

  /**
   send_all: partial sends and interruptions are invisible; the first failed send ends it, leaving a proper
   prefix on the wire, and nothing else does.
   */
  method SendAll(socket: Socket, buf: Bytes) returns (ok: bool)
    modifies socket
    ensures |old(socket.wire)| <= |socket.wire| <= |old(socket.wire)| + |buf|
    ensures socket.wire == old(socket.wire) + buf[..|socket.wire| - |old(socket.wire)|]
    ensures ok <==> socket.wire == old(socket.wire) + buf
    ensures StopsAtFailure(old(socket.script), socket.script, ok)
  {
    hide StopsAtFailure, SameKind;
    NothingUsed(socket.script);
    var totalSent := 0;
    while totalSent < |buf|
      invariant 0 <= totalSent <= |buf|
      invariant socket.wire == old(socket.wire) + buf[..totalSent]
      invariant StopsAtFailure(old(socket.script), socket.script, true)
      decreases |buf| - totalSent, |socket.script|
    {
      ghost var left := socket.script;
      var r := socket.Send(buf[totalSent..]);
      OneUsed(old(socket.script), left, r);
      match r
      case Interrupted => InterruptedUses(left, r); continue;
      case Failed => return false;
      case PeerClosed => return false;
      case Sent(n) =>
        assert buf[..totalSent] + buf[totalSent..][..n] == buf[..totalSent + n];
        totalSent := totalSent + n;
    }
    assert buf[..totalSent] == buf;
    return true;
  }

  lemma InterruptedUses(left: seq<SendResult>, r: SendResult)
    requires r.Interrupted? && (left == [] ==> r.Sent?)
    ensures left != []
  {
  }

  /** Size, then payload, for each message in turn: the join message and every reply to a ping. */
  method SendMessages(socket: Socket, ms: seq<Bytes>) returns (ok: bool)
    requires socket.wire == []
    modifies socket
    ensures socket.wire <= Frames(ms)
    ensures ok ==> socket.wire == Frames(ms)
    ensures StopsAtFailure(old(socket.script), socket.script, ok)
    ensures AllFit(ms) ==>
      Parse(socket.wire) <= ms && (ok ==> Parse(socket.wire) == ms)
  {
    hide StopsAtFailure;
    ok := true;
    var i := 0;
    NothingUsed(socket.script);
    while i < |ms| && ok
      invariant 0 <= i <= |ms|
      invariant ok ==> socket.wire == Frames(ms[..i])
      invariant socket.wire <= Frames(ms)
      invariant StopsAtFailure(old(socket.script), socket.script, ok)
    {
      FramesSplit(ms, i);
      ghost var sent, before := socket.wire, socket.script;
      ok := SendAll(socket, EncodeSize(|ms[i]|));
      UsesChain(old(socket.script), before, socket.script, ok);
      PrefixWithin(sent, EncodeSize(|ms[i]|), ms[i] + Frames(ms[i + 1..]), |socket.wire| - |sent|);
      if ok {
        ghost var sized, between := socket.wire, socket.script;
        ok := SendAll(socket, ms[i]);
        UsesChain(old(socket.script), between, socket.script, ok);
        PrefixWithin(sized, ms[i], Frames(ms[i + 1..]), |socket.wire| - |sized|);
      }
      i := i + 1;
    }
    assert ms[..|ms|] == ms;
    if AllFit(ms) {
      ghost var k := TruncatedStream(ms, socket.wire);
      FramingRoundTripIff(ms);
    }
  }

  lemma PrefixWithin(done: Bytes, now: Bytes, later: Bytes, n: nat)
    requires n <= |now|
    ensures done + now[..n] <= done + (now + later)
    ensures done + now + later == done + (now + later)
  {
  }

  lemma {:induction false} FramesAppend(ms: seq<Bytes>, more: seq<Bytes>)
    ensures Frames(ms + more) == Frames(ms) + Frames(more)
  {
    if ms == [] {
      assert [] + more == more;
    } else {
      assert (ms + more)[1..] == ms[1..] + more;
      FramesAppend(ms[1..], more);
    }
  }

  lemma FramesSplit(ms: seq<Bytes>, i: nat)
    requires i < |ms|
    ensures Frames(ms) == Frames(ms[..i]) + (EncodeSize(|ms[i]|) + (ms[i] + Frames(ms[i + 1..])))
    ensures Frames(ms[..i + 1]) == Frames(ms[..i]) + EncodeSize(|ms[i]|) + ms[i]
  {
    var done, m, later := Frames(ms[..i]), ms[i], ms[i + 1..];
    assert ms == ms[..i] + ms[i..] && ms[i..][0] == m && ms[i..][1..] == later;
    FramesAppend(ms[..i], ms[i..]);
    FramesOfPrefix(ms[i..], 1);
    assert ms[i..][..1] == [m] && ms[..i + 1] == ms[..i] + [m];
    FramesAppend(ms[..i], [m]);
    hide EncodeSize;
    FrameAssociates(done, m, Frames(later));
  }

  lemma FrameAssociates(done: Bytes, m: Bytes, later: Bytes)
    ensures done + (Frame(m) + later) == done + (EncodeSize(|m|) + (m + later))
    ensures done + (Frame(m) + []) == done + EncodeSize(|m|) + m
  {
  }

  /** The master's read loop over the bytes of one connection, up to the first read error. */
  method ReadLoop(stream: Bytes) returns (payloads: seq<Bytes>)
    ensures payloads == Parse(stream)
  {
    payloads := [];
    var rest := stream;
    while |rest| >= 4
      invariant Parse(stream) == payloads + Parse(rest)
      decreases |rest|
    {
      var size := DecodeSize(rest[..4]);
      if |rest| - 4 < size {
        return;
      }
      payloads := payloads + [rest[4..4 + size]];
      rest := rest[4 + size..];
    }
  }
}
