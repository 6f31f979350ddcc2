/**
 * The one-pass meaning of a received byte stream, and how the buffered scan of
 * src/frameconn.c relates to it.
 */
module Decoding {
  import opened Bytes
  import opened Frames
  import opened Escaping

  /** FRAME_BUF_SIZE. */
  const FRAME_BUF_SIZE := 8192

  // ----- the reference: one byte at a time ----------------------------------

  /** `body` holds the bytes since the last START; it is empty before the first one. */
  datatype Decoder = Decoder(started: bool, body: seq<byte>)

  const IDLE := Decoder(false, [])

  function Feed(d: Decoder, b: byte): Decoder {
    if b == START then Decoder(true, [])
    else if !d.started then d
    else if b == END || |d.body| + 1 >= FRAME_BUF_SIZE then IDLE
    else Decoder(true, d.body + [b])
  }

  /** The body that byte `b` completes, if any. */
  function Emit(d: Decoder, b: byte): seq<seq<byte>> {
    if d.started && b == END then [d.body] else []
  }

  datatype Decoded = Decoded(state: Decoder, bodies: seq<seq<byte>>)

  function Decode(d: Decoder, s: seq<byte>): Decoded
    decreases s
  {
    if s == [] then Decoded(d, [])
    else
      var rest := Decode(Feed(d, s[0]), s[1..]);
      rest.(bodies := Emit(d, s[0]) + rest.bodies)
  }

  /** Every delimited body is a well-formed frame. */
  predicate Clean(bodies: seq<seq<byte>>) {
    forall i :: 0 <= i < |bodies| ==> ParseBody(bodies[i]).Got?
  }

  function FramesOf(bodies: seq<seq<byte>>): seq<Frame>
    requires Clean(bodies)
  {
    if bodies == [] then [] else [ParseBody(bodies[0]).frame] + FramesOf(bodies[1..])
  }

  lemma CleanAppend(a: seq<seq<byte>>, b: seq<seq<byte>>)
    ensures Clean(a + b) <==> Clean(a) && Clean(b)
  {
    var ab := a + b;
    assert forall i :: 0 <= i < |a| ==> a[i] == ab[i];
    assert forall i :: 0 <= i < |b| ==> b[i] == ab[|a| + i];
  }

  lemma {:induction false} FramesOfAppend(a: seq<seq<byte>>, b: seq<seq<byte>>)
    requires Clean(a) && Clean(b) && Clean(a + b)
    ensures FramesOf(a + b) == FramesOf(a) + FramesOf(b)
  {
    if a == [] {
      assert a + b == b;
    } else {
      assert (a + b)[1..] == a[1..] + b;
      CleanAppend(a[1..], b);
      FramesOfAppend(a[1..], b);
    }
  }

  /** What the delimited bodies stand for, without those that are rejected. */
  function Good(bodies: seq<seq<byte>>): seq<Received> {
    if bodies == [] then [] else Kept(ParseBody(bodies[0])) + Good(bodies[1..])
  }

  function Kept(found: Received): seq<Received> {
    if found == NoFrame then [] else [found]
  }

  lemma {:induction false} GoodAppend(a: seq<seq<byte>>, b: seq<seq<byte>>)
    ensures Good(a + b) == Good(a) + Good(b)
  {
    if a == [] {
      assert a + b == b;
    } else {
      assert (a + b)[0] == a[0] && (a + b)[1..] == a[1..] + b;
      GoodAppend(a[1..], b);
      ConcatAssociates(Kept(ParseBody(a[0])), Good(a[1..]), Good(b));
    }
  }

  lemma {:induction false} CleanAreGood(bodies: seq<seq<byte>>)
    requires Clean(bodies)
    ensures |Good(bodies)| == |bodies|
  {
    if bodies != [] {
      CleanAreGood(bodies[1..]);
    }
  }

  lemma {:induction false} DecodeAppend(d: Decoder, s: seq<byte>, t: seq<byte>)
    ensures var first := Decode(d, s);
            var second := Decode(first.state, t);
            Decode(d, s + t) == Decoded(second.state, first.bodies + second.bodies)
    decreases s
  {
    if s == [] {
      assert s + t == t;
    } else {
      assert (s + t)[1..] == s[1..] + t;
      DecodeAppend(Feed(d, s[0]), s[1..], t);
    }
  }

  /** Inside a frame, bytes that are no delimiters only lengthen the body; 8192 of them drop it. */
  lemma {:induction false} DecodeBody(body: seq<byte>, s: seq<byte>)
    requires NoDelimiter(s) && |body| + |s| <= FRAME_BUF_SIZE && |body| < FRAME_BUF_SIZE
    ensures Decode(Decoder(true, body), s) ==
            Decoded(if |body| + |s| < FRAME_BUF_SIZE then Decoder(true, body + s) else IDLE, [])
    decreases s
  {
    if s == [] {
      assert body + s == body;
    } else if |body| + 1 < FRAME_BUF_SIZE {
      assert NoDelimiter(s[1..]);
      DecodeBody(body + [s[0]], s[1..]);
      assert body + [s[0]] + s[1..] == body + s;
    } else {
      assert s[1..] == [];
    }
  }

  lemma {:induction false} DecodeJunk(s: seq<byte>)
    requires START !in s
    ensures Decode(IDLE, s) == Decoded(IDLE, [])
  {
    if s != [] {
      DecodeJunk(s[1..]);
    }
  }

  /** No byte of `s` ends or begins anything. */
  predicate Quiet(started: bool, s: seq<byte>) {
    START !in s && (started ==> END !in s)
  }

  lemma DecodeQuiet(started: bool, s: seq<byte>)
    requires Quiet(started, s) && |s| <= FRAME_BUF_SIZE
    ensures Decode(Decoder(started, []), s) ==
            Decoded(if started && |s| < FRAME_BUF_SIZE then Decoder(true, s) else IDLE, [])
  {
    if started {
      DecodeBody([], s);
      assert [] + s == s;
    } else {
      DecodeJunk(s);
    }
  }

  /** A delimiter behind quiet bytes: START forgets them, END delimits them. */
  lemma DecodeDelimiter(started: bool, s: seq<byte>, i: nat)
    requires i < |s| && i < FRAME_BUF_SIZE && Quiet(started, s[..i])
    ensures s[i] == START ==> Decode(Decoder(started, []), s) == Decode(Decoder(true, []), s[i + 1..])
    ensures s[i] == END && started ==>
              var rest := Decode(IDLE, s[i + 1..]);
              Decode(Decoder(started, []), s) == rest.(bodies := [s[..i]] + rest.bodies)
  {
    var d, front, back := Decoder(started, []), s[..i], s[i..];
    DecodeQuiet(started, front);
    DecodeAppend(d, front, back);
    assert s == front + back && back[0] == s[i] && back[1..] == s[i + 1..];
  }

  // ----- the scan of mdr_frameconn_next_frame --------------------------------

  /** What one call leaves behind; `found == NoFrame` stands for NULL. */
  datatype Scan = Scan(found: Received, buf: seq<byte>, started: bool)

  /**
   * The scan, from index i.  After a rejected body the buffer was shifted but the code
   * goes on at i + 1, so the first i + 1 bytes of what is left are skipped.
   */
  function NextScan(buf: seq<byte>, i: nat, started: bool): Scan
    decreases |buf|, |buf| - i
  {
    if i >= |buf| then
      if |buf| >= FRAME_BUF_SIZE then Scan(NoFrame, [], false) else Scan(NoFrame, buf, started)
    else if buf[i] == START then
      NextScan(buf[i + 1..], 0, true)
    else if buf[i] == END && started then
      var found := ParseBody(buf[..i]);
      if found != NoFrame then Scan(found, buf[i + 1..], false) else NextScan(buf[i + 1..], i + 1, false)
    else
      NextScan(buf, i + 1, started)
  }

  /** The scan over a buffer to which one chunk after the other is added, up to the first frame. */
  function ScanChunks(buf: seq<byte>, started: bool, chunks: seq<seq<byte>>): Scan
    decreases |chunks|
  {
    if chunks == [] then NextScan(buf, 0, started)
    else
      var scan := ScanChunks(buf, started, chunks[..|chunks| - 1]);
      if scan.found != NoFrame then scan else NextScan(scan.buf + chunks[|chunks| - 1], 0, scan.started)
  }

  function Flat(chunks: seq<seq<byte>>): seq<byte> {
    if chunks == [] then [] else Flat(chunks[..|chunks| - 1]) + chunks[|chunks| - 1]
  }

  lemma OneMoreChunk(buf: seq<byte>, started: bool, chunks: seq<seq<byte>>, chunk: seq<byte>)
    ensures Flat(chunks + [chunk]) == Flat(chunks) + chunk
    ensures var scan := ScanChunks(buf, started, chunks);
            scan.found == NoFrame ==>
              ScanChunks(buf, started, chunks + [chunk]) == NextScan(scan.buf + chunk, 0, scan.started)
  {
    assert (chunks + [chunk])[..|chunks|] == chunks;
  }

  /** Whatever was scanned, there is room for another read when no frame was found. */
  lemma {:induction false} ScanLeavesRoom(buf: seq<byte>, i: nat, started: bool)
    ensures var scan := NextScan(buf, i, started);
            scan.found == NoFrame ==> |scan.buf| < FRAME_BUF_SIZE
    decreases |buf|, |buf| - i
  {
    if i >= |buf| {
    } else if buf[i] == START {
      ScanLeavesRoom(buf[i + 1..], 0, true);
    } else if buf[i] == END && started {
      ScanLeavesRoom(buf[i + 1..], i + 1, false);
    } else {
      ScanLeavesRoom(buf, i + 1, started);
    }
  }

  function Before(buf: seq<byte>, started: bool): Decoded {
    Decode(Decoder(started, []), buf)
  }

  function After(scan: Scan): Decoded {
    Decode(Decoder(scan.started, []), scan.buf)
  }

  /** `found` is the first body of `before`, parsed, and `after` is the rest; or nothing was found. */
  predicate Takes(before: Decoded, found: Received, after: Decoded) {
    if found == NoFrame then before == after
    else
      && found.Got? && before.bodies != [] && found == ParseBody(before.bodies[0])
      && after == before.(bodies := before.bodies[1..])
  }

  /** Taking one body off the front takes its frame off the front of the frames. */
  lemma TakesFrame(got: seq<Frame>, before: Decoded, found: Received, after: Decoded)
    requires Clean(before.bodies) && Takes(before, found, after)
    ensures !found.Wrapped? && Clean(after.bodies)
    ensures (if found.Got? then got + [found.frame] else got) + FramesOf(after.bodies) == got + FramesOf(before.bodies)
  {
  }

  /**
   * One scan takes the first frame of the one-pass decoding and leaves the rest of it,
   * if every delimited body is well-formed.
   */
  lemma {:induction false} NextScanRefines(buf: seq<byte>, i: nat, started: bool)
    requires i <= |buf| <= FRAME_BUF_SIZE && Quiet(started, buf[..i])
    requires Clean(Before(buf, started).bodies)
    ensures var scan := NextScan(buf, i, started);
            && Takes(Before(buf, started), scan.found, After(scan))
            && (scan.found == NoFrame ==> |scan.buf| < FRAME_BUF_SIZE && Quiet(scan.started, scan.buf))
    decreases |buf|, |buf| - i
  {
    if i == |buf| {
      assert buf[..i] == buf;
      DecodeQuiet(started, buf);
    } else if buf[i] == START {
      DecodeDelimiter(started, buf, i);
      NextScanRefines(buf[i + 1..], 0, true);
    } else if buf[i] == END && started {
      DecodeDelimiter(started, buf, i);
      assert Before(buf, started).bodies[0] == buf[..i];
    } else {
      assert buf[..i + 1] == buf[..i] + [buf[i]];
      NextScanRefines(buf, i + 1, started);
    }
  }

  // ----- after a rejected body ------------------------------------------------

  /** The first START at index k or later, or |s|. */
  function FirstStart(s: seq<byte>, k: nat): (p: nat)
    requires k <= |s|
    ensures k <= p <= |s|
    ensures p < |s| ==> s[p] == START
    ensures forall x :: k <= x < p ==> s[x] != START
    decreases |s| - k
  {
    if k == |s| || s[k] == START then k else FirstStart(s, k + 1)
  }

  lemma {:induction false} ScanSkipsJunk(s: seq<byte>, k: nat, p: nat)
    requires k <= p <= |s| && forall x :: k <= x < p ==> s[x] != START
    ensures NextScan(s, k, false) == NextScan(s, p, false)
    decreases p - k
  {
    if k < p {
      ScanSkipsJunk(s, k + 1, p);
    }
  }

  /**
   * The frames a scan skips: behind each rejected body, those completed before the next START
   * that lies beyond the skipped bytes.
   */
  function Lost(buf: seq<byte>, i: nat, started: bool): seq<Received>
    decreases |buf|, |buf| - i
  {
    if i >= |buf| then []
    else if buf[i] == START then Lost(buf[i + 1..], 0, true)
    else if buf[i] == END && started then
      if ParseBody(buf[..i]) != NoFrame then []
      else LostBySkip(buf[i + 1..], if i + 1 <= |buf| - i - 1 then i + 1 else |buf| - i - 1)
    else Lost(buf, i + 1, started)
  }

  /** ... when the scan of what is left begins at index k. */
  function LostBySkip(s: seq<byte>, k: nat): seq<Received>
    requires k <= |s|
    decreases |s|, |s| + 1
  {
    var q := FirstStart(s, k);
    if q == |s| then [] else Good(Before(s[..q], false).bodies) + Lost(s[q + 1..], 0, true)
  }

  /** Decoding behind a START begins afresh. */
  lemma DecodeAtStart(s: seq<byte>, q: nat)
    requires q < |s| && s[q] == START
    ensures var rest := Before(s[q + 1..], true);
            Before(s, false) == rest.(bodies := Before(s[..q], false).bodies + rest.bodies)
  {
    DecodeAppend(IDLE, s[..q], s[q..]);
    assert s == s[..q] + s[q..] && s[q..][0] == START && s[q..][1..] == s[q + 1..];
  }

  /** What was there is what was lost, what was found and what is left, in this order. */
  predicate Conserves(before: Decoded, lost: seq<Received>, found: Received, after: Decoded) {
    Good(before.bodies) == lost + Kept(found) + Good(after.bodies) && before.state == after.state
  }

  lemma {:induction false} SkipConserves(s: seq<byte>, k: nat)
    requires k <= |s| < FRAME_BUF_SIZE
    ensures var scan := NextScan(s, k, false);
            Conserves(Before(s, false), LostBySkip(s, k), scan.found, After(scan))
    decreases |s|, |s| + 1
  {
    var q := FirstStart(s, k);
    ScanSkipsJunk(s, k, q);
    if q < |s| {
      var skipped, rest := Before(s[..q], false).bodies, Before(s[q + 1..], true).bodies;
      DecodeAtStart(s, q);
      GoodAppend(skipped, rest);
      ScanConserves(s[q + 1..], 0, true);
      var scan := NextScan(s, k, false);
      ConcatAssociates(Good(skipped), Lost(s[q + 1..], 0, true) + Kept(scan.found), Good(After(scan).bodies));
      ConcatAssociates(Good(skipped), Lost(s[q + 1..], 0, true), Kept(scan.found));
    }
  }

  /**
   * On any bytes at all: the frames of the one-pass decoding are those the scan skips, then the
   * one it finds, then those of the bytes it leaves.
   */
  lemma {:induction false} ScanConserves(buf: seq<byte>, i: nat, started: bool)
    requires i <= |buf| <= FRAME_BUF_SIZE && Quiet(started, buf[..i])
    ensures var scan := NextScan(buf, i, started);
            Conserves(Before(buf, started), Lost(buf, i, started), scan.found, After(scan))
    decreases |buf|, |buf| - i
  {
    if i == |buf| {
      assert buf[..i] == buf;
      DecodeQuiet(started, buf);
    } else if buf[i] == START {
      DecodeDelimiter(started, buf, i);
      ScanConserves(buf[i + 1..], 0, true);
    } else if buf[i] == END && started {
      DecodeDelimiter(started, buf, i);
      var s := buf[i + 1..];
      assert Before(buf, started).bodies[1..] == Before(s, false).bodies;
      if ParseBody(buf[..i]) == NoFrame {
        SkipConserves(s, if i + 1 <= |s| then i + 1 else |s|);
      }
    } else {
      assert buf[..i + 1] == buf[..i] + [buf[i]];
      ScanConserves(buf, i + 1, started);
    }
  }

  /**
   * The scan after a rejected body starts k bytes into what is left, all well-formed.  It takes
   * the next frame or nothing, as the one-pass decoding does, exactly when there is no START
   * from k on, or nothing is completed before the first one.
   */
  lemma SkipIsHarmlessIff(s: seq<byte>, k: nat)
    requires k <= |s| < FRAME_BUF_SIZE && Clean(Before(s, false).bodies)
    ensures var scan, q := NextScan(s, k, false), FirstStart(s, k);
            Takes(Before(s, false), scan.found, After(scan)) <==>
            q == |s| || Before(s[..q], false).bodies == []
  {
    var scan, q := NextScan(s, k, false), FirstStart(s, k);
    ScanSkipsJunk(s, k, q);
    SkipConserves(s, k);
    CleanAreGood(Before(s, false).bodies);
    if q < |s| {
      var skipped, rest := Before(s[..q], false).bodies, Before(s[q + 1..], true).bodies;
      DecodeAtStart(s, q);
      CleanAppend(skipped, rest);
      CleanAreGood(skipped);
      if skipped == [] {
        NextScanRefines(s[q + 1..], 0, true);
      } else if Takes(Before(s, false), scan.found, After(scan)) {
        CleanAreGood(After(scan).bodies);
      }
    }
  }

  /** On well-formed bodies nothing is lost. */
  lemma CleanLosesNothing(buf: seq<byte>, i: nat, started: bool)
    requires i <= |buf| <= FRAME_BUF_SIZE && Quiet(started, buf[..i])
    requires Clean(Before(buf, started).bodies)
    ensures Lost(buf, i, started) == []
  {
    var scan := NextScan(buf, i, started);
    ScanConserves(buf, i, started);
    NextScanRefines(buf, i, started);
    CleanAreGood(Before(buf, started).bodies);
    CleanAreGood(After(scan).bodies);
  }

  lemma {:induction false} ScanBody(body: seq<byte>, rest: seq<byte>, i: nat)
    requires NoDelimiter(body) && i <= |body| && ParseBody(body) != NoFrame
    ensures NextScan(body + [END] + rest, i, true) == Scan(ParseBody(body), rest, false)
    decreases |body| - i
  {
    var s := body + [END] + rest;
    if i < |body| {
      assert s[i] == body[i];
      ScanBody(body, rest, i + 1);
    } else {
      assert s[..i] == body && s[i + 1..] == rest;
    }
  }

  /** An empty body is rejected; the byte that follows it at once is skipped. */
  lemma EmptyBodySkipsOne(s: seq<byte>)
    ensures NextScan([START, END] + s, 0, false) == NextScan(s, 1, false)
  {
    var t := [START, END] + s;
    assert t[1..] == [END] + s;
    assert t[1..][..0] == [] && t[1..][1..] == s;
  }

  lemma ScanFindsFrame(junk: seq<byte>, k: nat, g: SizedFrame)
    requires k <= |junk| && forall x :: k <= x < |junk| ==> junk[x] != START
    ensures NextScan(junk + EscapeFrame(g), k, false) == Scan(Got(g), [], false)
  {
    var s, body := junk + EscapeFrame(g), EscapeBytes(WireBytes(g));
    ScanSkipsJunk(s, k, |junk|);
    assert s[|junk| + 1..] == body + [END] + [];
    FrameRoundTrip(g);
    ScanBody(body, [], 0);
  }

  /** What is lost while chunks are added one after the other, up to the first frame. */
  function LostInChunks(buf: seq<byte>, started: bool, chunks: seq<seq<byte>>): seq<Received>
    decreases |chunks|
  {
    if chunks == [] then Lost(buf, 0, started)
    else
      var init := chunks[..|chunks| - 1];
      var scan := ScanChunks(buf, started, init);
      LostInChunks(buf, started, init)
      + if scan.found != NoFrame then [] else Lost(scan.buf + chunks[|chunks| - 1], 0, scan.started)
  }

  lemma LostInOneMoreChunk(buf: seq<byte>, started: bool, chunks: seq<seq<byte>>, chunk: seq<byte>)
    ensures var scan := ScanChunks(buf, started, chunks);
            scan.found == NoFrame ==>
              LostInChunks(buf, started, chunks + [chunk]) ==
              LostInChunks(buf, started, chunks) + Lost(scan.buf + chunk, 0, scan.started)
  {
    assert (chunks + [chunk])[..|chunks|] == chunks;
  }

  /** A concrete family that loses a frame: an empty body, then two whole frames. */
  lemma FrameAfterRejectedBodyIsLost(f: SizedFrame, g: SizedFrame)
    ensures NextScan([START, END] + (EscapeFrame(f) + EscapeFrame(g)), 0, false) == Scan(Got(g), [], false)
  {
    EmptyBodySkipsOne(EscapeFrame(f) + EscapeFrame(g));
    EscapedHasNoDelimiter(WireBytes(f));
    ScanFindsFrame(EscapeFrame(f), 1, g);
  }

  // ----- end to end -----------------------------------------------------------

  /** Bytes between and after the frames, none of them a START. */
  predicate AreGaps(gaps: seq<seq<byte>>, n: nat) {
    |gaps| == n + 1 && forall i :: 0 <= i < |gaps| ==> START !in gaps[i]
  }

  /** The writer does not refuse it. */
  predicate Sendable(f: Frame) {
    Fits(f) && |EscapeFrame(f)| <= FRAME_BUF_SIZE
  }

  predicate AllSendable(frames: seq<Frame>) {
    forall i :: 0 <= i < |frames| ==> Sendable(frames[i])
  }

  /** The stream: gaps[0], frame 0, gaps[1], frame 1, ..., the last gap. */
  function Stream(frames: seq<Frame>, gaps: seq<seq<byte>>): seq<byte>
    requires AllSendable(frames) && AreGaps(gaps, |frames|)
  {
    if frames == [] then gaps[0] else gaps[0] + (EscapeFrame(frames[0]) + Stream(frames[1..], gaps[1..]))
  }

  lemma DecodeEscapedFrame(f: Frame)
    requires Sendable(f)
    ensures Decode(IDLE, EscapeFrame(f)) == Decoded(IDLE, [EscapeBytes(WireBytes(f))])
    ensures Clean([EscapeBytes(WireBytes(f))]) && FramesOf([EscapeBytes(WireBytes(f))]) == [f]
  {
    var body, e := EscapeBytes(WireBytes(f)), EscapeFrame(f);
    FrameRoundTrip(f);
    assert e[1..] == body + [END] && e[1..][..|body|] == body && e[1..][|body| + 1..] == [];
    DecodeDelimiter(true, e[1..], |body|);
    assert Decode(IDLE, e) == Decode(Decoder(true, []), e[1..]);
  }

  lemma DecodeOneMore(gap: seq<byte>, f: Frame, tail: seq<byte>)
    requires START !in gap && Sendable(f)
    ensures var rest := Decode(IDLE, tail);
            Decode(IDLE, gap + (EscapeFrame(f) + tail)) == rest.(bodies := [EscapeBytes(WireBytes(f))] + rest.bodies)
  {
    DecodeJunk(gap);
    DecodeEscapedFrame(f);
    DecodeAppend(IDLE, EscapeFrame(f), tail);
    DecodeAppend(IDLE, gap, EscapeFrame(f) + tail);
  }

  /** The stream of any frames the writer accepts decodes to just those frames. */
  lemma {:induction false} StreamDecodes(frames: seq<Frame>, gaps: seq<seq<byte>>)
    requires AllSendable(frames) && AreGaps(gaps, |frames|)
    ensures var decoded := Decode(IDLE, Stream(frames, gaps));
            decoded.state == IDLE && Clean(decoded.bodies) && FramesOf(decoded.bodies) == frames
    decreases |frames|
  {
    if frames == [] {
      DecodeJunk(gaps[0]);
    } else {
      var body := EscapeBytes(WireBytes(frames[0]));
      var tail := Stream(frames[1..], gaps[1..]);
      StreamDecodes(frames[1..], gaps[1..]);
      DecodeOneMore(gaps[0], frames[0], tail);
      DecodeEscapedFrame(frames[0]);
      CleanAppend([body], Decode(IDLE, tail).bodies);
      FramesOfAppend([body], Decode(IDLE, tail).bodies);
      assert frames == [frames[0]] + frames[1..];
    }
  }
}
