/** The buffered frame connection (src/frameconn.c). */
module FrameConns {
  import opened Bytes
  import opened Frames
  import opened Escaping
  import opened Decoding
  import opened Writing

  // ----- what a writer has put out --------------------------------------------

  /** A frame taken on, or the first bytes of one that a hard write error cut short. */
  datatype Piece = Whole(frame: Frame) | Cut(frame: Frame, count: nat)

  predicate PiecesOk(pieces: seq<Piece>) {
    forall i :: 0 <= i < |pieces| ==> PieceOk(pieces[i])
  }

  predicate PieceOk(p: Piece) {
    Sendable(p.frame) && (p.Cut? ==> 1 <= p.count < |EscapeFrame(p.frame)|)
  }

  function PieceBytes(p: Piece): seq<byte>
    requires PieceOk(p)
  {
    if p.Whole? then EscapeFrame(p.frame) else EscapeFrame(p.frame)[..p.count]
  }

  function Output(pieces: seq<Piece>): seq<byte>
    requires PiecesOk(pieces)
  {
    if pieces == [] then [] else Output(pieces[..|pieces| - 1]) + PieceBytes(pieces[|pieces| - 1])
  }

  /** The frames taken on, in order. */
  function Wholes(pieces: seq<Piece>): seq<Frame> {
    if pieces == [] then []
    else
      var last := pieces[|pieces| - 1];
      Wholes(pieces[..|pieces| - 1]) + if last.Whole? then [last.frame] else []
  }

  lemma OutputSnoc(pieces: seq<Piece>, p: Piece)
    requires PiecesOk(pieces) && PieceOk(p)
    ensures PiecesOk(pieces + [p]) && Output(pieces + [p]) == Output(pieces) + PieceBytes(p)
    ensures Wholes(pieces + [p]) == Wholes(pieces) + if p.Whole? then [p.frame] else []
  {
    assert (pieces + [p])[..|pieces|] == pieces;
  }

  /** What stands before a START does not matter. */
  lemma DecodeFromStart(d: Decoder, bytes: seq<byte>)
    requires bytes != [] && bytes[0] == START
    ensures Decode(d, bytes) == Decode(IDLE, bytes)
  {
    assert Feed(d, START) == Feed(IDLE, START);
  }

  /** A cut piece completes nothing. */
  lemma DecodeCut(f: Frame, count: nat)
    requires Sendable(f) && 1 <= count < |EscapeFrame(f)|
    ensures Decode(IDLE, EscapeFrame(f)[..count]).bodies == []
  {
    var body, bytes := EscapeBytes(WireBytes(f)), EscapeFrame(f)[..count];
    EscapedHasNoDelimiter(WireBytes(f));
    assert bytes[0] == START && bytes[1..] == body[..count - 1];
    DecodeBody([], bytes[1..]);
    assert Decode(IDLE, bytes).bodies == Decode(Decoder(true, []), bytes[1..]).bodies;
  }

  lemma DecodePiece(d: Decoder, p: Piece)
    requires PieceOk(p)
    ensures var bodies := Decode(d, PieceBytes(p)).bodies;
            Clean(bodies) && FramesOf(bodies) == if p.Whole? then [p.frame] else []
  {
    DecodeFromStart(d, PieceBytes(p));
    if p.Whole? {
      DecodeEscapedFrame(p.frame);
    } else {
      DecodeCut(p.frame, p.count);
    }
  }

  /** Whatever hard errors cut short, the output decodes to just the frames taken on. */
  lemma {:induction false} OutputDecodes(pieces: seq<Piece>)
    requires PiecesOk(pieces)
    ensures var bodies := Decode(IDLE, Output(pieces)).bodies;
            Clean(bodies) && FramesOf(bodies) == Wholes(pieces)
  {
    if pieces != [] {
      var init, last := pieces[..|pieces| - 1], pieces[|pieces| - 1];
      OutputDecodes(init);
      var before := Decode(IDLE, Output(init));
      DecodePiece(before.state, last);
      DecodeAppend(IDLE, Output(init), PieceBytes(last));
      CleanAppend(before.bodies, Decode(before.state, PieceBytes(last)).bodies);
      FramesOfAppend(before.bodies, Decode(before.state, PieceBytes(last)).bodies);
    }
  }

  /**
   * Whatever part of the output has travelled, a one-pass decoder on the other side has seen a
   * prefix of the frames taken on, and all of them once everything has travelled.
   */
  lemma PeerSeesPrefix(pieces: seq<Piece>, wire: seq<byte>, held: seq<byte>)
    requires PiecesOk(pieces) && wire + held == Output(pieces)
    ensures var seen := Decode(IDLE, wire).bodies;
            Clean(seen) && FramesOf(seen) <= Wholes(pieces) && (held == [] ==> FramesOf(seen) == Wholes(pieces))
  {
    OutputDecodes(pieces);
    DecodeAppend(IDLE, wire, held);
    var seen, unseen := Decode(IDLE, wire).bodies, Decode(Decode(IDLE, wire).state, held).bodies;
    CleanAppend(seen, unseen);
    FramesOfAppend(seen, unseen);
  }

  // ----- the move of the live bytes ---------------------------------------------

  /** memmove(mem, mem + n, count). */
  function MovedDown(mem: seq<byte>, n: nat, count: nat): seq<byte>
    requires n + count <= |mem|
  {
    mem[n..n + count] + mem[count..]
  }

  /**
   * The code moves two bytes more than are live behind index n - 1.  In memory that begins with
   * the buffer and goes on behind it, the live bytes always come out as intended, and what lies
   * behind the buffer is changed exactly when the buffer was full and one byte is dropped: then
   * the byte behind it takes the value of the next.
   */
  lemma MoveAsWritten(mem: seq<byte>, len: nat, n: nat)
    requires |mem| >= FRAME_BUF_SIZE + 2 && 1 <= n <= len <= FRAME_BUF_SIZE
    ensures var moved := MovedDown(mem, n, len - n + 2);
            && |moved| == |mem| && moved[..len - n] == mem[n..len]
            && moved[FRAME_BUF_SIZE..] ==
               (if n == 1 && len == FRAME_BUF_SIZE then mem[FRAME_BUF_SIZE..][0 := mem[FRAME_BUF_SIZE + 1]]
                else mem[FRAME_BUF_SIZE..])
  {
    var count := len - n + 2;
    var moved := MovedDown(mem, n, count);
    assert forall k :: 0 <= k < count ==> moved[k] == mem[n + k];
    assert forall k :: count <= k < |mem| ==> moved[k] == mem[k];
  }

  // ----- the connection ---------------------------------------------------------

  /** ScanConserves with the rest of the stream behind the buffer. */
  lemma ScanConservesStream(buf: seq<byte>, started: bool, stream: seq<byte>)
    requires |buf| <= FRAME_BUF_SIZE
    ensures var scan := NextScan(buf, 0, started);
            Conserves(Before(buf + stream, started), Lost(buf, 0, started), scan.found,
                      Before(scan.buf + stream, scan.started))
  {
    var scan := NextScan(buf, 0, started);
    ScanConserves(buf, 0, started);
    DecodeAppend(Decoder(started, []), buf, stream);
    DecodeAppend(Decoder(scan.started, []), scan.buf, stream);
    var later := Decode(Before(buf, started).state, stream).bodies;
    GoodAppend(Before(buf, started).bodies, later);
    GoodAppend(After(scan).bodies, later);
    ConcatAssociates(Lost(buf, 0, started) + Kept(scan.found), Good(After(scan).bodies), Good(later));
  }

  /** NextScanRefines with the rest of the stream behind the buffer. */
  lemma NextScanThenStream(buf: seq<byte>, started: bool, stream: seq<byte>)
    requires |buf| <= FRAME_BUF_SIZE && Clean(Before(buf + stream, started).bodies)
    ensures var scan := NextScan(buf, 0, started);
            && Takes(Before(buf + stream, started), scan.found, Before(scan.buf + stream, scan.started))
            && (scan.found == NoFrame ==> |scan.buf| < FRAME_BUF_SIZE && Quiet(scan.started, scan.buf))
  {
    var d := Decoder(started, []);
    DecodeAppend(d, buf, stream);
    CleanAppend(Before(buf, started).bodies, Decode(Before(buf, started).state, stream).bodies);
    NextScanRefines(buf, 0, started);
    var scan := NextScan(buf, 0, started);
    DecodeAppend(Decoder(scan.started, []), scan.buf, stream);
  }

  lemma ConservesOn(first: Decoded, lost: seq<Received>, before: Decoded, skipped: seq<Received>,
                    found: Received, after: Decoded)
    requires Conserves(first, lost, NoFrame, before) && Conserves(before, skipped, found, after)
    ensures Conserves(first, lost + skipped, found, after)
  {
    assert lost + [] == lost;
    ConcatAssociates(lost, skipped + Kept(found), Good(after.bodies));
    ConcatAssociates(lost, skipped, Kept(found));
  }

  /** A buffer with the rest of the stream behind it. */
  datatype Reader = Reader(buf: seq<byte>, started: bool, stream: seq<byte>) {
    function Ahead(): Decoded {
      Before(buf + stream, started)
    }
  }

  /** From r0 to r without a frame, having read these chunks and lost these frames. */
  predicate Reading(r0: Reader, chunks: seq<seq<byte>>, lost: seq<Received>, r: Reader) {
    && NextScan(r.buf, 0, r.started) == ScanChunks(r0.buf, r0.started, chunks)
    && LostInChunks(r0.buf, r0.started, chunks) == lost + Lost(r.buf, 0, r.started)
    && Conserves(r0.Ahead(), lost, NoFrame, r.Ahead())
    && (Clean(r0.Ahead().bodies) ==> r.Ahead() == r0.Ahead())
  }

  /** One scan leads from r to t, with `chunk` read behind it. */
  predicate Scanned(r: Reader, found: Received, chunk: seq<byte>, t: Reader) {
    && Scan(found, t.buf, t.started) ==
       (var scan := NextScan(r.buf, 0, r.started); scan.(buf := scan.buf + chunk))
    && Conserves(r.Ahead(), Lost(r.buf, 0, r.started), found, t.Ahead())
    && (Clean(r.Ahead().bodies) ==> Takes(r.Ahead(), found, t.Ahead()))
  }

  /**
   * One call has found this and left the reader so: nothing exactly if a read failed, otherwise
   * the next frame, if the bodies are well-formed; and a prompt socket keeps no frame back.
   */
  predicate ReadOnce(before: Inbound, found: Received, after: Inbound) {
    && after.misses == before.misses + (if found == NoFrame then 1 else 0)
    && (Clean(before.reader.Ahead().bodies) ==>
          && Takes(before.reader.Ahead(), found, after.reader.Ahead())
          && (before.prompt && found == NoFrame ==> after.reader.Ahead().bodies == []))
  }

  /** The reading side: what is there, how often reads have failed, and whether they do so without need. */
  datatype Inbound = Inbound(reader: Reader, misses: nat, prompt: bool)

  lemma FlatOneMore(chunks: seq<seq<byte>>, chunk: seq<byte>, stream: seq<byte>)
    ensures Flat(chunks + [chunk]) + stream == Flat(chunks) + (chunk + stream)
  {
    assert (chunks + [chunk])[..|chunks|] == chunks;
    ConcatAssociates(Flat(chunks), chunk, stream);
  }

  lemma ReadingStarts(r: Reader)
    ensures Reading(r, [], [], r)
  {
    var lost, good := Lost(r.buf, 0, r.started), Good(r.Ahead().bodies);
    assert [] + lost == lost && [] + [] + good == good;
  }

  lemma ReadingEnds(r0: Reader, chunks: seq<seq<byte>>, lost: seq<Received>, r: Reader, found: Received, t: Reader)
    requires Reading(r0, chunks, lost, r) && Scanned(r, found, [], t)
    ensures Scan(found, t.buf, t.started) == ScanChunks(r0.buf, r0.started, chunks)
    ensures Conserves(r0.Ahead(), LostInChunks(r0.buf, r0.started, chunks), found, t.Ahead())
    ensures Clean(r0.Ahead().bodies) ==> Takes(r0.Ahead(), found, t.Ahead())
  {
    var scan := NextScan(r.buf, 0, r.started);
    assert scan.buf + [] == scan.buf;
    ConservesOn(r0.Ahead(), lost, r.Ahead(), Lost(r.buf, 0, r.started), found, t.Ahead());
  }

  lemma ReadingGoesOn(r0: Reader, chunks: seq<seq<byte>>, lost: seq<Received>, r: Reader, chunk: seq<byte>, t: Reader)
    requires Reading(r0, chunks, lost, r) && Scanned(r, NoFrame, chunk, t)
    ensures Reading(r0, chunks + [chunk], lost + Lost(r.buf, 0, r.started), t)
  {
    OneMoreChunk(r0.buf, r0.started, chunks, chunk);
    LostInOneMoreChunk(r0.buf, r0.started, chunks, chunk);
    ConservesOn(r0.Ahead(), lost, r.Ahead(), Lost(r.buf, 0, r.started), NoFrame, t.Ahead());
  }

  /** How many bytes of the frame a hard error has let out. */
  function CutAt(held: nat, f: Frame, flush: seq<Wrote>, send: seq<Wrote>): nat
    requires Fits(f)
  {
    if Fails(flush, held) then 0 else Taken(send, |EscapeFrame(f)|)
  }

  function PiecesAfter(pieces: seq<Piece>, f: Frame, end: WriteEnd, cut: nat): seq<Piece> {
    match end
    case Sent => pieces + [Whole(f)]
    case Buffered => pieces + [Whole(f)]
    case Refused => pieces
    case Broken => if cut > 0 then pieces + [Cut(f, cut)] else pieces
  }

  /** Whatever the writes take, wire and buffer together hold what was put out, with the new piece behind it. */
  lemma WrittenKeeps(pieces: seq<Piece>, wire: seq<byte>, held: seq<byte>, f: Frame,
                     flush: seq<Wrote>, send: seq<Wrote>)
    requires PiecesOk(pieces) && Fits(f) && wire + held == Output(pieces) && EndsInEnd(held)
    requires |held| <= FRAME_BUF_SIZE && WriteLoops(held, EscapeFrame(f), flush, send)
    ensures var to := WriteSpec(held, EscapeFrame(f), flush, send);
            var now := PiecesAfter(pieces, f, to.end, CutAt(|held|, f, flush, send));
            && PiecesOk(now) && wire + to.wire + to.held == Output(now) && EndsInEnd(to.held)
            && |to.held| <= FRAME_BUF_SIZE
            && Wholes(now) == Wholes(pieces) + if to.end == Sent || to.end == Buffered then [f] else []
  {
    var e, first := EscapeFrame(f), FlushSpec(held, flush);
    FlushConserves(wire, held, Taken(flush, |held|));
    FailedLoopLeaves(flush, |held|);
    assert wire + first.wire + first.held == Output(pieces);
    assert Wholes(pieces) + [] == Wholes(pieces);
    if first.end != Broken && FRAME_BUF_SIZE - |first.held| >= |e| {
      DeliveryKeeps(pieces, wire + first.wire, first.held, f, send);
      ConcatAssociates(wire, first.wire, DeliverSpec(first.held, e, send).wire);
    }
  }

  lemma DeliveryKeeps(pieces: seq<Piece>, wire: seq<byte>, held: seq<byte>, f: Frame, send: seq<Wrote>)
    requires PiecesOk(pieces) && Fits(f) && wire + held == Output(pieces) && EndsInEnd(held)
    requires |held| + |EscapeFrame(f)| <= FRAME_BUF_SIZE
    requires if held == [] then Loop(send, |EscapeFrame(f)|) else send == []
    ensures var to := DeliverSpec(held, EscapeFrame(f), send);
            var now := PiecesAfter(pieces, f, to.end, Taken(send, |EscapeFrame(f)|));
            && PiecesOk(now) && wire + to.wire + to.held == Output(now) && EndsInEnd(to.held)
            && Wholes(now) == Wholes(pieces) + if to.end == Sent || to.end == Buffered then [f] else []
  {
    if held == [] {
      FreshDeliveryKeeps(pieces, wire, f, send);
    } else {
      EndsInItsEnd(f, held, 0);
      PutWhole(pieces, wire, held, f, 0);
    }
  }

  lemma FreshDeliveryKeeps(pieces: seq<Piece>, wire: seq<byte>, f: Frame, send: seq<Wrote>)
    requires PiecesOk(pieces) && Sendable(f) && wire + [] == Output(pieces) && Loop(send, |EscapeFrame(f)|)
    ensures var to := DeliverSpec([], EscapeFrame(f), send);
            var now := PiecesAfter(pieces, f, to.end, Taken(send, |EscapeFrame(f)|));
            && PiecesOk(now) && wire + to.wire + to.held == Output(now) && EndsInEnd(to.held)
            && Wholes(now) == Wholes(pieces) + if to.end == Sent || to.end == Buffered then [f] else []
  {
    var e, k := EscapeFrame(f), Taken(send, |EscapeFrame(f)|);
    FailedLoopLeaves(send, |e|);
    if !Fails(send, |e|) {
      EndsInItsEnd(f, [], k);
      PutWhole(pieces, wire, [], f, k);
    } else if k > 0 {
      PutCut(pieces, wire, f, k);
    } else {
      PutNothing(pieces, wire, e);
    }
  }

  lemma EndsInItsEnd(f: Frame, held: seq<byte>, k: nat)
    requires Fits(f) && k <= |EscapeFrame(f)|
    ensures EndsInEnd(held + EscapeFrame(f)) && EndsInEnd(EscapeFrame(f)[k..])
  {
    assert EscapeFrame(f)[|EscapeFrame(f)| - 1] == END;
  }

  /** A new frame goes to the wire for k bytes and behind what is held for the rest. */
  lemma PutWhole(pieces: seq<Piece>, wire: seq<byte>, held: seq<byte>, f: Frame, k: nat)
    requires PiecesOk(pieces) && Sendable(f) && wire + held == Output(pieces)
    requires k <= |EscapeFrame(f)| && (held == [] || k == 0)
    ensures var now := pieces + [Whole(f)];
            && PiecesOk(now) && Wholes(now) == Wholes(pieces) + [f]
            && (held == [] ==> wire + EscapeFrame(f)[..k] + EscapeFrame(f)[k..] == Output(now))
            && (held != [] ==> wire + [] + (held + EscapeFrame(f)) == Output(now))
  {
    OutputSnoc(pieces, Whole(f));
    Placed(wire, held, EscapeFrame(f), k);
  }

  lemma PutCut(pieces: seq<Piece>, wire: seq<byte>, f: Frame, k: nat)
    requires PiecesOk(pieces) && Sendable(f) && wire + [] == Output(pieces) && 0 < k < |EscapeFrame(f)|
    ensures var now := pieces + [Cut(f, k)];
            && PiecesOk(now) && Wholes(now) == Wholes(pieces) + []
            && wire + EscapeFrame(f)[..k] + [] == Output(now)
  {
    OutputSnoc(pieces, Cut(f, k));
    assert wire + [] == wire;
  }

  lemma PutNothing(pieces: seq<Piece>, wire: seq<byte>, e: seq<byte>)
    ensures wire + e[..0] + [] == wire + [] && Wholes(pieces) == Wholes(pieces) + []
  {
  }

  lemma Placed<T>(wire: seq<T>, held: seq<T>, e: seq<T>, k: nat)
    requires k <= |e| && (held == [] || k == 0)
    ensures wire + e[..k] + (held + e[k..]) == wire + held + e
    ensures held == [] ==> held + e[k..] == e[k..]
    ensures held != [] ==> e[..k] == [] && e[k..] == e
  {
    assert e == e[..k] + e[k..] && wire + [] == wire && [] + e[k..] == e[k..];
    if held == [] {
      ConcatAssociates(wire, e[..k], e[k..]);
    } else {
      ConcatAssociates(wire, held, e);
    }
  }

  lemma FlushConserves(sent: seq<byte>, held: seq<byte>, gone: nat)
    requires gone <= |held| && EndsInEnd(held)
    ensures sent + held[..gone] + held[gone..] == sent + held && EndsInEnd(held[gone..])
  {
    assert held == held[..gone] + held[gone..];
    ConcatAssociates(sent, held[..gone], held[gone..]);
  }

  class FrameConn {
    const sock: Socket
    const readBuf: array<byte>
    var readBufLen: nat
    var readStarted: bool
    const writeBuf: array<byte>
    var writeBufLen: nat

    /** The frames taken on so far, and all that was put out. */
    ghost var accepted: seq<Frame>
    ghost var pieces: seq<Piece>

    ghost predicate Valid()
      reads this, sock, writeBuf
    {
      ReadSide() && WriteSide() && readBuf != writeBuf
    }

    /** The last two bytes of readBuf are what lies behind read_buf in the struct, which is padding. */
    ghost predicate ReadSide()
      reads this`readBufLen
    {
      readBuf.Length == FRAME_BUF_SIZE + 2 && readBufLen <= FRAME_BUF_SIZE
    }

    /** What is on the wire and what is held are together all that was put out. */
    ghost predicate WriteSide()
      reads this`writeBufLen, this`accepted, this`pieces, sock`wire, writeBuf
    {
      && writeBuf.Length == FRAME_BUF_SIZE && writeBufLen <= FRAME_BUF_SIZE
      && PiecesOk(pieces) && accepted == Wholes(pieces)
      && sock.wire + writeBuf[..writeBufLen] == Output(pieces)
      && EndsInEnd(writeBuf[..writeBufLen])
    }

    ghost function Pending(): seq<byte>
      requires readBufLen <= readBuf.Length
      reads this`readBufLen, readBuf
    {
      readBuf[..readBufLen]
    }

    /** What is buffered and what is still to arrive. */
    ghost function Input(): Reader
      requires readBufLen <= readBuf.Length
      reads this`readBufLen, this`readStarted, sock`incoming, readBuf
    {
      Reader(Pending(), readStarted, sock.incoming)
    }

    ghost function Arriving(): Inbound
      requires readBufLen <= readBuf.Length
      reads this`readBufLen, this`readStarted, sock`incoming, sock`misses, readBuf
    {
      Inbound(Input(), sock.misses, sock.prompt)
    }

    ghost function Traffic(): Traffic
      reads this`writeBufLen, sock`writes
    {
      Writing.Traffic(sock.Errors(), sock.Blocks(), writeBufLen)
    }

    /** The one-pass decoding of all that. */
    ghost function Ahead(): Decoded
      requires readBufLen <= readBuf.Length
      reads this`readBufLen, this`readStarted, sock`incoming, readBuf
    {
      Input().Ahead()
    }

    constructor (sock: Socket)
      requires sock.wire == []
      ensures Valid() && fresh(readBuf) && fresh(writeBuf) && this.sock == sock
      ensures readBufLen == 0 && !readStarted && writeBufLen == 0 && accepted == [] && pieces == []
    {
      this.sock := sock;
      readBuf := new byte[FRAME_BUF_SIZE + 2];
      writeBuf := new byte[FRAME_BUF_SIZE];
      readBufLen, readStarted, writeBufLen := 0, false, 0;
      accepted, pieces := [], [];
    }

    /** The move of mdr_frameconn_next_frame, with its two bytes too many, drops the first n live bytes. */
    method Drop(n: nat)
      requires ReadSide() && 1 <= n <= readBufLen
      modifies this`readBufLen, readBuf
      ensures ReadSide() && Pending() == old(Pending())[n..]
      ensures readBuf[..] == MovedDown(old(readBuf[..]), n, old(readBufLen) - n + 2)
    {
      var count := readBufLen - n + 2;
      MoveAsWritten(readBuf[..], readBufLen, n);
      forall k | 0 <= k < count {
        readBuf[k] := readBuf[k + n];
      }
      readBufLen := readBufLen - n;
      assert readBuf[..] == MovedDown(old(readBuf[..]), n, count);
      assert Pending() == readBuf[..][..readBufLen] == old(readBuf[..])[n..old(readBufLen)];
    }

    /** mdr_frameconn_next_frame. */
    method NextFrame() returns (found: Received)
      requires ReadSide()
      modifies this`readBufLen, this`readStarted, readBuf
      ensures ReadSide()
      ensures Scan(found, Pending(), readStarted) == NextScan(old(Pending()), 0, old(readStarted))
    {
      var i := 0;
      while i < readBufLen
        invariant ReadSide() && 0 <= i
        invariant NextScan(Pending(), i, readStarted) == NextScan(old(Pending()), 0, old(readStarted))
        decreases readBufLen, readBufLen - i
      {
        ghost var before := Pending();
        if readBuf[i] == START {
          Drop(i + 1);
          readStarted := true;
          i := -1;
        } else if readBuf[i] == END && readStarted {
          found := Unescape(readBuf, i);
          assert readBuf[..i] == before[..i];
          Drop(i + 1);
          readStarted := false;
          if found != NoFrame {
            return;
          }
        }
        i := i + 1;
      }
      if readBufLen >= FRAME_BUF_SIZE {
        readBufLen := 0;
        readStarted := false;
        assert Pending() == [];
      }
      found := NoFrame;
    }

    /** The read of mdr_frameconn_read_frame: a chunk moves from the socket to read_buf, or the read fails. */
    method Fill() returns (filled: bool, ghost chunk: seq<byte>)
      requires ReadSide() && readBufLen < FRAME_BUF_SIZE
      modifies this`readBufLen, readBuf, sock`incoming, sock`misses
      ensures ReadSide() && Pending() == old(Pending()) + chunk
      ensures old(sock.incoming) == chunk + sock.incoming && (filled <==> chunk != [])
      ensures sock.misses == old(sock.misses) + if filled then 0 else 1
      ensures sock.prompt && !filled ==> sock.incoming == []
    {
      chunk := [];
      var taken := sock.Read(FRAME_BUF_SIZE - readBufLen);
      if taken == None {
        return false, chunk;
      }
      ghost var held := Pending();
      chunk := taken.value;
      forall k | 0 <= k < |taken.value| {
        readBuf[readBufLen + k] := taken.value[k];
      }
      readBufLen := readBufLen + |taken.value|;
      assert Pending() == held + chunk;
      filled := true;
    }

    /** One round of mdr_frameconn_read_frame: a scan, and a read if it found nothing. */
    method Round() returns (found: Received, again: bool, ghost chunk: seq<byte>)
      requires ReadSide()
      modifies this`readBufLen, this`readStarted, readBuf, sock`incoming, sock`misses
      ensures ReadSide() && old(sock.incoming) == chunk + sock.incoming
      ensures !again ==> sock.incoming == old(sock.incoming)
      ensures (again <==> chunk != []) && (again ==> found == NoFrame)
      ensures Scanned(old(Input()), found, chunk, Input())
      ensures old(Clean(Ahead().bodies)) && found == NoFrame && !again ==> Quiet(readStarted, Pending())
      ensures sock.misses == old(sock.misses) + if found == NoFrame && !again then 1 else 0
      ensures sock.prompt && found == NoFrame && !again ==> sock.incoming == []
    {
      ScanConservesStream(Pending(), readStarted, sock.incoming);
      if Clean(Ahead().bodies) {
        NextScanThenStream(Pending(), readStarted, sock.incoming);
      }
      ScanLeavesRoom(Pending(), 0, readStarted);
      again, chunk := false, [];
      found := NextFrame();
      ghost var held := Pending();
      if found == NoFrame {
        again, chunk := Fill();
        ConcatAssociates(held, chunk, sock.incoming);
      }
      assert held + [] == held;
    }

    /**
     * mdr_frameconn_read_frame, over any split of the stream into reads.  On a stream of
     * well-formed bodies it takes the next frame of the one-pass decoding and leaves the rest,
     * or takes nothing; on any stream the frames of the one-pass decoding are those skipped in
     * the chunks read, the one found, and those still ahead.  It takes nothing exactly when a
     * read has failed.
     */
    method ReadFrame() returns (found: Received, ghost chunks: seq<seq<byte>>)
      requires ReadSide()
      modifies this`readBufLen, this`readStarted, readBuf, sock`incoming, sock`misses
      ensures ReadSide() && Flat(chunks) + sock.incoming == old(sock.incoming)
      ensures Scan(found, Pending(), readStarted) == ScanChunks(old(Pending()), old(readStarted), chunks)
      ensures Conserves(old(Ahead()), LostInChunks(old(Pending()), old(readStarted), chunks), found, Ahead())
      ensures old(Clean(Ahead().bodies)) ==> Takes(old(Ahead()), found, Ahead())
      ensures old(Clean(Ahead().bodies)) && found == NoFrame ==> Quiet(readStarted, Pending())
      ensures sock.misses == old(sock.misses) + if found == NoFrame then 1 else 0
      ensures sock.prompt && found == NoFrame ==> sock.incoming == []
    {
      chunks := [];
      ghost var start, lost: seq<Received> := Input(), [];
      ReadingStarts(start);
      while true
        invariant ReadSide() && Flat(chunks) + sock.incoming == start.stream
        invariant Reading(start, chunks, lost, Input())
        invariant sock.misses == old(sock.misses)
        decreases |sock.incoming|
      {
        ghost var before := Input();
        var again: bool;
        ghost var chunk;
        found, again, chunk := Round();
        if !again {
          ReadingEnds(start, chunks, lost, before, found, Input());
          return;
        }
        ReadingGoesOn(start, chunks, lost, before, chunk, Input());
        FlatOneMore(chunks, chunk, sock.incoming);
        lost := lost + Lost(before.buf, 0, before.started);
        chunks := chunks + [chunk];
      }
    }

    /** The same for a caller who counts on well-formed bodies; a prompt socket never keeps a frame back. */
    method TakeFrame() returns (found: Received)
      requires Valid()
      modifies this`readBufLen, this`readStarted, readBuf, sock`incoming, sock`misses
      ensures Valid() && ReadOnce(old(Arriving()), found, Arriving())
    {
      ghost var chunks;
      found, chunks := ReadFrame();
      QuietIsEmpty(Pending(), readStarted, sock.incoming);
    }

    /** Drops the first n live bytes of write_buf; they are on the wire. */
    method DropWritten(n: nat)
      requires n <= writeBufLen <= writeBuf.Length
      modifies this`writeBufLen, writeBuf
      ensures writeBufLen <= writeBuf.Length && writeBuf[..writeBufLen] == old(writeBuf[n..writeBufLen])
    {
      forall k | 0 <= k < writeBufLen - n {
        writeBuf[k] := writeBuf[k + n];
      }
      writeBufLen := writeBufLen - n;
    }

    /** The loop of mdr_frameconn_flush_write, with the index advanced by what was written. */
    method FlushLoop() returns (r: Wrote, ghost flush: seq<Wrote>)
      requires writeBufLen <= writeBuf.Length
      modifies this`writeBufLen, writeBuf, sock`wire, sock`writes
      ensures sock.writes == old(sock.writes) + flush && Loop(flush, old(writeBufLen))
      ensures r == Outcome(flush, old(writeBufLen)) && writeBufLen <= writeBuf.Length
      ensures var to := FlushSpec(old(writeBuf[..writeBufLen]), flush);
              sock.wire == old(sock.wire) + to.wire && writeBuf[..writeBufLen] == to.held
    {
      var i := 0;
      flush := [];
      while i < writeBufLen
        invariant 0 <= i <= writeBufLen == old(writeBufLen) && writeBuf[..] == old(writeBuf[..])
        invariant sock.writes == old(sock.writes) + flush
        invariant Going(flush, writeBufLen) && Taken(flush, writeBufLen) == i
        invariant sock.wire == old(sock.wire) + old(writeBuf[..i])
      {
        var wrote := sock.Write(writeBuf[i..writeBufLen]);
        LoopSnoc(flush, writeBufLen, wrote);
        flush := flush + [wrote];
        if !wrote.Took? {
          DropWritten(i);
          assert old(writeBuf[..writeBufLen])[..i] == old(writeBuf[..i]);
          assert old(writeBuf[..writeBufLen])[i..] == old(writeBuf[i..writeBufLen]);
          return wrote, flush;
        }
        assert old(writeBuf[..i + wrote.n]) == old(writeBuf[..i]) + old(writeBuf[i..writeBufLen])[..wrote.n];
        i := i + wrote.n;
      }
      LoopDone(flush, writeBufLen);
      writeBufLen := 0;
      r := Took(0);
    }

    /** mdr_frameconn_flush_write: nothing is lost between the wire and the buffer. */
    method FlushWrite() returns (r: Wrote, ghost flush: seq<Wrote>)
      requires WriteSide()
      modifies this`writeBufLen, writeBuf, sock`wire, sock`writes
      ensures WriteSide() && sock.writes == old(sock.writes) + flush && Loop(flush, old(writeBufLen))
      ensures r == Outcome(flush, old(writeBufLen)) && (r.Took? <==> writeBufLen == 0)
      ensures var to := FlushSpec(old(writeBuf[..writeBufLen]), flush);
              sock.wire == old(sock.wire) + to.wire && writeBuf[..writeBufLen] == to.held
      ensures sock.wire + writeBuf[..writeBufLen] == old(sock.wire + writeBuf[..writeBufLen])
      ensures sock.Errors() == old(sock.Errors()) + if r == WriteError then 1 else 0
      ensures sock.Blocks() == old(sock.Blocks()) + if r == WouldBlock then 1 else 0
    {
      ghost var sent, held, writes := sock.wire, writeBuf[..writeBufLen], sock.writes;
      r, flush := FlushLoop();
      FlushConserves(sent, held, Taken(flush, |held|));
      FailedLoopLeaves(flush, |held|);
      LoopCounts(flush, |held|);
      CountAppend(writes, flush, WriteError);
      CountAppend(writes, flush, WouldBlock);
    }

    /** Puts escaped bytes behind the buffered ones. */
    method Hold(bytes: seq<byte>)
      requires writeBufLen + |bytes| <= writeBuf.Length
      modifies this`writeBufLen, writeBuf
      ensures writeBufLen == old(writeBufLen) + |bytes|
      ensures writeBuf[..writeBufLen] == old(writeBuf[..writeBufLen]) + bytes
    {
      forall k | 0 <= k < |bytes| {
        writeBuf[writeBufLen + k] := bytes[k];
      }
      writeBufLen := writeBufLen + |bytes|;
    }

    /** The write loop of mdr_frameconn_write_frame. */
    method SendNow(escaped: array<byte>) returns (written: nat, r: Wrote, ghost send: seq<Wrote>)
      modifies sock`wire, sock`writes
      ensures sock.writes == old(sock.writes) + send && Loop(send, escaped.Length)
      ensures written == Taken(send, escaped.Length) && r == Outcome(send, escaped.Length)
      ensures sock.wire == old(sock.wire) + escaped[..written]
    {
      written, send := 0, [];
      while written < escaped.Length
        invariant 0 <= written <= escaped.Length && sock.wire == old(sock.wire) + escaped[..written]
        invariant sock.writes == old(sock.writes) + send
        invariant Going(send, escaped.Length) && Taken(send, escaped.Length) == written
      {
        r := sock.Write(escaped[written..]);
        LoopSnoc(send, escaped.Length, r);
        send := send + [r];
        if !r.Took? {
          return;
        }
        assert escaped[..written + r.n] == escaped[..written] + escaped[written..][..r.n];
        written := written + r.n;
      }
      LoopDone(send, escaped.Length);
      r := Took(0);
    }

    /** The new bytes are written, if none are waiting, as far as the socket takes them; the rest is held. */
    method Deliver(escaped: array<byte>) returns (r: WriteEnd, ghost send: seq<Wrote>)
      requires writeBufLen + escaped.Length <= writeBuf.Length && escaped != writeBuf && escaped.Length > 0
      modifies this`writeBufLen, writeBuf, sock`wire, sock`writes
      ensures sock.writes == old(sock.writes) + send && writeBufLen <= writeBuf.Length
      ensures if old(writeBufLen) == 0 then Loop(send, escaped.Length) else send == []
      ensures var to := DeliverSpec(old(writeBuf[..writeBufLen]), escaped[..], send);
              sock.wire == old(sock.wire) + to.wire && writeBuf[..writeBufLen] == to.held && r == to.end
    {
      ghost var held, e := writeBuf[..writeBufLen], escaped[..];
      var written, sent := 0, WouldBlock;
      send := [];
      if writeBufLen == 0 {
        written, sent, send := SendNow(escaped);
        assert escaped[..written] == e[..written];
        FailedLoopLeaves(send, escaped.Length);
      }
      r := if sent == WriteError then Broken else if written == escaped.Length then Sent else Buffered;
      if r == Buffered {
        Hold(escaped[written..]);
        assert escaped[written..] == e[written..] && e[0..] == e;
      }
      assert held == [] ==> e[|e|..] == [];
    }

    /**
     * mdr_frameconn_write_frame, with new bytes waiting behind buffered ones.  What each write
     * takes decides how it ends and where the bytes are; a frame taken on appears whole behind
     * everything earlier, a refused one adds nothing, a hard error leaves its first bytes.
     */
    method WriteFrame(f: Frame) returns (r: WriteEnd, ghost flush: seq<Wrote>, ghost send: seq<Wrote>)
      requires Valid() && Fits(f)
      modifies this`writeBufLen, this`accepted, this`pieces, writeBuf, sock`wire, sock`writes
      ensures Valid() && sock.writes == old(sock.writes) + flush + send
      ensures WriteLoops(old(writeBuf[..writeBufLen]), EscapeFrame(f), flush, send)
      ensures var to := WriteSpec(old(writeBuf[..writeBufLen]), EscapeFrame(f), flush, send);
              sock.wire == old(sock.wire) + to.wire && writeBuf[..writeBufLen] == to.held && r == to.end
      ensures pieces == PiecesAfter(old(pieces), f, r, CutAt(old(writeBufLen), f, flush, send))
      ensures accepted == if r == Sent || r == Buffered then old(accepted) + [f] else old(accepted)
    {
      ghost var wire, held := sock.wire, writeBuf[..writeBufLen];
      r, flush, send := WriteOut(f);
      WrittenKeeps(pieces, wire, held, f, flush, send);
      NotePieces(PiecesAfter(pieces, f, r, CutAt(|held|, f, flush, send)));
    }

    /** The bytes of that, without the book-keeping. */
    method WriteOut(f: Frame) returns (r: WriteEnd, ghost flush: seq<Wrote>, ghost send: seq<Wrote>)
      requires writeBufLen <= writeBuf.Length == FRAME_BUF_SIZE && Fits(f)
      modifies this`writeBufLen, writeBuf, sock`wire, sock`writes
      ensures writeBufLen <= writeBuf.Length && sock.writes == old(sock.writes) + flush + send
      ensures WriteLoops(old(writeBuf[..writeBufLen]), EscapeFrame(f), flush, send)
      ensures var to := WriteSpec(old(writeBuf[..writeBufLen]), EscapeFrame(f), flush, send);
              sock.wire == old(sock.wire) + to.wire && writeBuf[..writeBufLen] == to.held && r == to.end
    {
      ghost var wire, held := sock.wire, writeBuf[..writeBufLen];
      var flushed;
      flushed, flush := FlushLoop();
      FailedLoopLeaves(flush, |held|);
      ghost var first := FlushSpec(held, flush);
      r, send := Broken, [];
      if flushed != WriteError {
        var escaped := Escape(f);
        r := Refused;
        if FRAME_BUF_SIZE - writeBufLen >= escaped.Length {
          r, send := Deliver(escaped);
          ConcatAssociates(wire, first.wire, DeliverSpec(first.held, EscapeFrame(f), send).wire);
        }
      }
    }

    ghost method NotePieces(now: seq<Piece>)
      modifies this`pieces, this`accepted
      ensures pieces == now && accepted == Wholes(now)
    {
      pieces, accepted := now, Wholes(now);
    }
  }

  /**
   * A caller that polls: any number of reads, each over any split.  What it got, followed by
   * what is still ahead, is always the stream's own list of frames; a prompt socket delivers
   * one frame each time.
   */
  method PollFrames(conn: FrameConn, times: nat, ghost frames: seq<Frame>, ghost gaps: seq<seq<byte>>)
    returns (got: seq<Frame>)
    requires conn.Valid() && conn.readBufLen == 0 && !conn.readStarted
    requires AllSendable(frames) && AreGaps(gaps, |frames|) && conn.sock.incoming == Stream(frames, gaps)
    modifies conn, conn.readBuf, conn.sock
    ensures conn.Valid() && Clean(conn.Ahead().bodies)
    ensures got + FramesOf(conn.Ahead().bodies) == frames
    ensures conn.sock.incoming == [] && Quiet(conn.readStarted, conn.Pending()) ==> got == frames
    ensures conn.sock.prompt && times >= |frames| ==> got == frames
  {
    got := [];
    StreamDecodes(frames, gaps);
    assert conn.Pending() + conn.sock.incoming == Stream(frames, gaps);
    for k := 0 to times
      invariant conn.Valid() && Clean(conn.Ahead().bodies)
      invariant got + FramesOf(conn.Ahead().bodies) == frames
      invariant conn.sock.prompt ==> |got| == k || got == frames
    {
      ghost var before := conn.Ahead();
      var found := conn.TakeFrame();
      TakesFrame(got, before, found, conn.Ahead());
      if found.Got? {
        got := got + [found.frame];
      }
    }
    QuietIsEmpty(conn.Pending(), conn.readStarted, conn.sock.incoming);
  }

  lemma QuietIsEmpty(buf: seq<byte>, started: bool, stream: seq<byte>)
    requires |buf| <= FRAME_BUF_SIZE
    ensures stream == [] && Quiet(started, buf) ==> Before(buf + stream, started).bodies == []
  {
    if stream == [] && Quiet(started, buf) {
      assert buf + stream == buf;
      DecodeQuiet(started, buf);
    }
  }

  // ----- whole streams, whatever they hold ------------------------------------------

  /** One call of mdr_frameconn_read_frame: the buffer it began with and the chunks it read. */
  datatype Call = Call(buf: seq<byte>, started: bool, chunks: seq<seq<byte>>) {
    function End(): Scan {
      ScanChunks(buf, started, chunks)
    }

    /** The frames it skipped, and the one it returned. */
    function Skipped(): seq<Received> {
      LostInChunks(buf, started, chunks)
    }

    function Returned(): seq<Received> {
      Kept(End().found)
    }
  }

  /** Each call begins where the one before it ended. */
  predicate Chained(calls: seq<Call>, buf: seq<byte>, started: bool) {
    && (calls != [] ==> calls[0].buf == buf && calls[0].started == started)
    && forall k :: 1 <= k < |calls| ==>
         calls[k].buf == calls[k - 1].End().buf && calls[k].started == calls[k - 1].End().started
  }

  /** All frames the calls came across, the skipped ones among them, in order. */
  function Passed(calls: seq<Call>): seq<Received> {
    if calls == [] then []
    else
      var last := calls[|calls| - 1];
      Passed(calls[..|calls| - 1]) + (last.Skipped() + last.Returned())
  }

  function AllReturned(calls: seq<Call>): seq<Received> {
    if calls == [] then [] else AllReturned(calls[..|calls| - 1]) + calls[|calls| - 1].Returned()
  }

  predicate NoneSkips(calls: seq<Call>) {
    forall k :: 0 <= k < |calls| ==> calls[k].Skipped() == []
  }

  lemma {:induction false} ReturnedAllIff(calls: seq<Call>)
    ensures |AllReturned(calls)| <= |Passed(calls)|
    ensures AllReturned(calls) == Passed(calls) <==> NoneSkips(calls)
  {
    if calls != [] {
      var init, last := calls[..|calls| - 1], calls[|calls| - 1];
      ReturnedAllIff(init);
      if last.Skipped() == [] {
        assert [] + last.Returned() == last.Returned();
        assert AllReturned(init) == AllReturned(calls)[..|AllReturned(init)|];
        assert |AllReturned(init)| == |Passed(init)| ==> Passed(init) == Passed(calls)[..|Passed(init)|];
      }
    }
  }

  /** These calls lead from r0 to r, and have come across all frames that are no longer ahead. */
  predicate Polling(r0: Reader, calls: seq<Call>, r: Reader) {
    && Chained(calls, r0.buf, r0.started)
    && (if calls == [] then r.buf == r0.buf && r.started == r0.started
        else r.buf == calls[|calls| - 1].End().buf && r.started == calls[|calls| - 1].End().started)
    && Good(r0.Ahead().bodies) == Passed(calls) + Good(r.Ahead().bodies)
  }

  lemma PollingGoesOn(r0: Reader, calls: seq<Call>, r: Reader, call: Call, t: Reader)
    requires Polling(r0, calls, r) && call.buf == r.buf && call.started == r.started
    requires call.End().buf == t.buf && call.End().started == t.started
    requires Conserves(r.Ahead(), call.Skipped(), call.End().found, t.Ahead())
    ensures Polling(r0, calls + [call], t)
    ensures AllReturned(calls + [call]) == AllReturned(calls) + call.Returned()
  {
    PassedOneMore(calls, call);
    ChainedOneMore(calls, call, r0.buf, r0.started);
    ConcatAssociates(Passed(calls), call.Skipped() + call.Returned(), Good(t.Ahead().bodies));
  }

  lemma ChainedOneMore(calls: seq<Call>, call: Call, buf: seq<byte>, started: bool)
    requires Chained(calls, buf, started)
    requires if calls == [] then call.buf == buf && call.started == started
             else var last := calls[|calls| - 1].End(); call.buf == last.buf && call.started == last.started
    ensures Chained(calls + [call], buf, started)
  {
  }

  lemma PassedOneMore(calls: seq<Call>, call: Call)
    ensures Passed(calls + [call]) == Passed(calls) + (call.Skipped() + call.Returned())
    ensures AllReturned(calls + [call]) == AllReturned(calls) + call.Returned()
  {
    assert (calls + [call])[..|calls|] == calls;
  }

  lemma PollingStarts(r: Reader)
    ensures Polling(r, [], r)
  {
    assert [] + Good(r.Ahead().bodies) == Good(r.Ahead().bodies);
  }

  lemma PollingEnds(r0: Reader, calls: seq<Call>, r: Reader)
    requires Polling(r0, calls, r)
    ensures Good(r.Ahead().bodies) == [] ==> (AllReturned(calls) == Good(r0.Ahead().bodies) <==> NoneSkips(calls))
  {
    ReturnedAllIff(calls);
    assert Passed(calls) + [] == Passed(calls);
  }

  /**
   * A caller that polls any stream, with any number of rejected bodies, over any split: the
   * frames of the one-pass decoding are those the calls came across and those still ahead.  Once
   * none is ahead, the caller has got them all if and only if no call skipped any.
   */
  method PollStream(conn: FrameConn, times: nat) returns (got: seq<Received>, ghost calls: seq<Call>)
    requires conn.ReadSide()
    modifies conn`readBufLen, conn`readStarted, conn.readBuf, conn.sock`incoming, conn.sock`misses
    ensures conn.ReadSide() && |calls| == times && got == AllReturned(calls)
    ensures Polling(old(conn.Input()), calls, conn.Input())
    ensures Good(conn.Ahead().bodies) == [] ==>
              (got == Good(old(conn.Ahead()).bodies) <==> NoneSkips(calls))
  {
    got, calls := [], [];
    ghost var start := conn.Input();
    PollingStarts(start);
    for k := 0 to times
      invariant conn.ReadSide() && |calls| == k && got == AllReturned(calls)
      invariant Polling(start, calls, conn.Input())
    {
      ghost var before := conn.Input();
      var found, chunks := conn.ReadFrame();
      PollingGoesOn(start, calls, before, Call(before.buf, before.started, chunks), conn.Input());
      calls := calls + [Call(before.buf, before.started, chunks)];
      got := got + if found == NoFrame then [] else [found];
    }
    PollingEnds(start, calls, conn.Input());
  }
}
