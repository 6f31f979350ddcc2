/** The socket, what its calls do, and how the writing of src/frameconn.c uses them. */
module Writing {
  import opened Bytes
  import opened Frames
  import opened Escaping
  import opened Decoding

  // ----- the socket ----------------------------------------------------------

  /** The outcome of one write(): a positive count, EAGAIN, or any other error. */
  datatype Wrote = Took(n: nat) | WouldBlock | WriteError

  /** How often an outcome occurs. */
  function Count(writes: seq<Wrote>, o: Wrote): nat {
    if writes == [] then 0
    else Count(writes[..|writes| - 1], o) + if writes[|writes| - 1] == o then 1 else 0
  }

  lemma {:induction false} CountAppend(a: seq<Wrote>, b: seq<Wrote>, o: Wrote)
    ensures Count(a + b, o) == Count(a, o) + Count(b, o)
  {
    if b == [] {
      assert a + b == a;
    } else {
      assert (a + b)[..|a + b| - 1] == a + b[..|b| - 1];
      CountAppend(a, b[..|b| - 1], o);
    }
  }

  /** A stream socket: what it will deliver, what it has taken, and how its calls have ended. */
  class Socket {
    /** A prompt socket delivers whatever there is. */
    const prompt: bool
    var incoming: seq<byte>
    ghost var wire: seq<byte>
    ghost var writes: seq<Wrote>
    ghost var misses: nat

    ghost function Errors(): nat
      reads this`writes
    {
      Count(writes, WriteError)
    }

    ghost function Blocks(): nat
      reads this`writes
    {
      Count(writes, WouldBlock)
    }

    /** read(): any non-empty part of what is there, up to `room`, or a failure. */
    method Read(room: nat) returns (r: Option<seq<byte>>)
      requires room >= 1
      modifies this`incoming, this`misses
      ensures r.None? ==> incoming == old(incoming) && misses == old(misses) + 1 && (prompt ==> incoming == [])
      ensures r.Some? ==> 1 <= |r.value| <= room && r.value + incoming == old(incoming) && misses == old(misses)
    {
      if incoming == [] {
        misses := misses + 1;
        return None;
      }
      if !prompt {
        if * {
          misses := misses + 1;
          return None;
        }
      }
      var n :| 1 <= n <= |incoming| && n <= room;
      r := Some(incoming[..n]);
      incoming := incoming[n..];
    }

    /** write(): takes any non-empty prefix, or fails. */
    method Write(data: seq<byte>) returns (r: Wrote)
      requires data != []
      modifies this`wire, this`writes
      ensures writes == old(writes) + [r]
      ensures r.Took? ==> 1 <= r.n <= |data| && wire == old(wire) + data[..r.n]
      ensures !r.Took? ==> wire == old(wire)
    {
      if * {
        r := WouldBlock;
      } else if * {
        r := WriteError;
      } else {
        var n :| 1 <= n <= |data|;
        wire := wire + data[..n];
        r := Took(n);
      }
      writes := writes + [r];
    }
  }

  // ----- loops of writes --------------------------------------------------------

  /** How many of n bytes a loop of writes gets rid of. */
  function Taken(script: seq<Wrote>, n: nat): (k: nat)
    ensures k <= n
    decreases |script|
  {
    if n == 0 || script == [] || !script[0].Took? then 0
    else
      var k := if script[0].n <= n then script[0].n else n;
      k + Taken(script[1..], n - k)
  }

  /** The loop runs into a hard error. */
  predicate Fails(script: seq<Wrote>, n: nat)
    decreases |script|
  {
    n > 0 && script != [] &&
    match script[0]
    case WouldBlock => false
    case WriteError => true
    case Took(m) => m < n && Fails(script[1..], n - m)
  }

  /** How a loop of writes for n bytes ends. */
  function Outcome(script: seq<Wrote>, n: nat): Wrote {
    if Fails(script, n) then WriteError else if Taken(script, n) == n then Took(0) else WouldBlock
  }

  /** So far every write has taken something, and no more than there was. */
  predicate Going(script: seq<Wrote>, n: nat)
    decreases |script|
  {
    script == [] || (script[0].Took? && 1 <= script[0].n <= n && Going(script[1..], n - script[0].n))
  }

  /** These are all the writes of such a loop: it goes on until nothing is left or one fails. */
  predicate Loop(script: seq<Wrote>, n: nat)
    decreases |script|
  {
    if n == 0 then script == []
    else
      && script != []
      && match script[0]
         case Took(m) => 1 <= m <= n && Loop(script[1..], n - m)
         case _ => |script| == 1
  }

  lemma {:induction false} LoopSnoc(script: seq<Wrote>, n: nat, o: Wrote)
    requires Going(script, n) && Taken(script, n) < n
    requires o.Took? ==> 1 <= o.n <= n - Taken(script, n)
    ensures o.Took? ==> Going(script + [o], n) && Taken(script + [o], n) == Taken(script, n) + o.n
    ensures !o.Took? ==> Loop(script + [o], n) && Taken(script + [o], n) == Taken(script, n)
                         && Outcome(script + [o], n) == o
    decreases |script|
  {
    if script == [] {
      assert (script + [o])[1..] == [];
    } else {
      assert (script + [o])[1..] == script[1..] + [o];
      LoopSnoc(script[1..], n - script[0].n, o);
    }
  }

  lemma {:induction false} LoopDone(script: seq<Wrote>, n: nat)
    requires Going(script, n) && Taken(script, n) == n
    ensures Loop(script, n) && Outcome(script, n) == Took(0)
    decreases |script|
  {
    if script != [] {
      LoopDone(script[1..], n - script[0].n);
    }
  }

  /** At most the last write of a loop fails, and its failure is how the loop ends. */
  lemma {:induction false} LoopCounts(script: seq<Wrote>, n: nat)
    requires Loop(script, n)
    ensures Count(script, WriteError) == if Outcome(script, n) == WriteError then 1 else 0
    ensures Count(script, WouldBlock) == if Outcome(script, n) == WouldBlock then 1 else 0
    decreases |script|
  {
    if script != [] {
      assert script == [script[0]] + script[1..];
      CountAppend([script[0]], script[1..], WriteError);
      CountAppend([script[0]], script[1..], WouldBlock);
      if script[0].Took? {
        LoopCounts(script[1..], n - script[0].n);
      } else {
        assert script[1..] == [];
      }
    }
  }

  /** A loop that runs into a hard error has not got rid of everything. */
  lemma {:induction false} FailedLoopLeaves(script: seq<Wrote>, n: nat)
    ensures Fails(script, n) ==> Taken(script, n) < n
    decreases |script|
  {
    if n > 0 && script != [] && script[0].Took? && script[0].n < n {
      FailedLoopLeaves(script[1..], n - script[0].n);
    }
  }

  // ----- writing in the intended order -------------------------------------------

  /** What a call puts on the wire, what it leaves in write_buf, and how it ends. */
  datatype Written = Written(wire: seq<byte>, held: seq<byte>, end: WriteEnd)

  function FlushSpec(held: seq<byte>, flush: seq<Wrote>): Written {
    var gone := Taken(flush, |held|);
    Written(held[..gone], held[gone..], if Fails(flush, |held|) then Broken else Sent)
  }

  /** New bytes go out if none are waiting, and fit. */
  function DeliverSpec(held: seq<byte>, escaped: seq<byte>, send: seq<Wrote>): Written {
    if held != [] then Written([], held + escaped, Buffered)
    else
      var k := Taken(send, |escaped|);
      if Fails(send, |escaped|) then Written(escaped[..k], [], Broken)
      else Written(escaped[..k], escaped[k..], if k == |escaped| then Sent else Buffered)
  }

  function WriteSpec(held: seq<byte>, escaped: seq<byte>, flush: seq<Wrote>, send: seq<Wrote>): Written {
    var first := FlushSpec(held, flush);
    if first.end == Broken then first
    else if FRAME_BUF_SIZE - |first.held| < |escaped| then first.(end := Refused)
    else
      var second := DeliverSpec(first.held, escaped, send);
      second.(wire := first.wire + second.wire)
  }

  /** The second loop runs only when nothing is left of the first and the bytes fit. */
  predicate WriteLoops(held: seq<byte>, escaped: seq<byte>, flush: seq<Wrote>, send: seq<Wrote>) {
    && Loop(flush, |held|)
    && if Outcome(flush, |held|) == Took(0) && |escaped| <= FRAME_BUF_SIZE then Loop(send, |escaped|) else send == []
  }

  /** Every way a frame can fare is the socket's doing, or its own for being too long. */
  lemma WriteEndIff(held: seq<byte>, escaped: seq<byte>, flush: seq<Wrote>, send: seq<Wrote>)
    requires WriteLoops(held, escaped, flush, send) && |held| <= FRAME_BUF_SIZE && escaped != []
    ensures var end := WriteSpec(held, escaped, flush, send).end;
            var outs := flush + send;
            && (end == Broken <==> WriteError in outs)
            && (end == Sent <==> WriteError !in outs && WouldBlock !in outs && |escaped| <= FRAME_BUF_SIZE)
            && (end == Buffered ==> WouldBlock in outs)
            && (end == Refused <==> WriteError !in outs
                                    && |held| - Taken(flush, |held|) + |escaped| > FRAME_BUF_SIZE)
            && (end == Sent ==> WriteSpec(held, escaped, flush, send) == Written(held + escaped, [], Sent))
  {
    LoopMembers(flush, |held|);
    if send != [] {
      LoopMembers(send, |escaped|);
    }
  }

  /**
   * How handing over a frame of this length may end, given how many of its writes ended in a
   * hard error and how many blocked.
   */
  predicate Explained(end: WriteEnd, length: nat, errors: int, blocks: int) {
    && errors == (if end == Broken then 1 else 0)
    && match end
       case Sent => blocks == 0
       case Buffered => blocks > 0
       case Refused => blocks > 0 || (blocks == 0 && length > FRAME_BUF_SIZE)
       case Broken => blocks == 0
  }

  /** The hard errors and the blocked writes so far, and how much is held. */
  datatype Traffic = Traffic(errors: nat, blocks: nat, held: nat)

  /** One frame was handed over, and the buffer is empty unless a write failed or blocked. */
  predicate HandedOver(before: Traffic, end: WriteEnd, length: nat, after: Traffic) {
    && Explained(end, length, after.errors - before.errors, after.blocks - before.blocks)
    && Emptied(before, after)
  }

  predicate Emptied(before: Traffic, after: Traffic) {
    after.errors == before.errors && after.blocks == before.blocks ==> after.held == 0
  }

  lemma WriteCounts(writes: seq<Wrote>, held: seq<byte>, escaped: seq<byte>, flush: seq<Wrote>, send: seq<Wrote>)
    requires WriteLoops(held, escaped, flush, send) && |held| <= FRAME_BUF_SIZE && escaped != []
    ensures var to := WriteSpec(held, escaped, flush, send);
            var errors := Count(writes + flush + send, WriteError) - Count(writes, WriteError);
            var blocks := Count(writes + flush + send, WouldBlock) - Count(writes, WouldBlock);
            && Explained(to.end, |escaped|, errors, blocks)
            && (errors == 0 && blocks == 0 ==> to.held == [])
  {
    LoopCounts(flush, |held|);
    if send != [] {
      LoopCounts(send, |escaped|);
    }
    CountAppend(writes, flush, WriteError);
    CountAppend(writes + flush, send, WriteError);
    CountAppend(writes, flush, WouldBlock);
    CountAppend(writes + flush, send, WouldBlock);
  }

  lemma {:induction false} LoopMembers(script: seq<Wrote>, n: nat)
    requires Loop(script, n)
    ensures WriteError in script <==> Outcome(script, n) == WriteError
    ensures WouldBlock in script <==> Outcome(script, n) == WouldBlock
    decreases |script|
  {
    if script != [] && script[0].Took? {
      LoopMembers(script[1..], n - script[0].n);
      assert script == [script[0]] + script[1..];
    }
  }

  // ----- writing as the code does it --------------------------------------------

  datatype FlushEnd = Flushed | Stopped | StillWriting

  /** `wire` is what the socket takes, `held` what stays in write_buf. */
  datatype FlushRun = FlushRun(wire: seq<byte>, held: seq<byte>, end: FlushEnd)

  /**
   * mdr_frameconn_flush_write as written, against a script of write() outcomes: the index
   * never advances, so every round offers the whole buffer again.
   */
  function FlushAsWritten(held: seq<byte>, script: seq<Wrote>): FlushRun {
    if held == [] then FlushRun([], [], Flushed)
    else if script == [] then FlushRun([], held, StillWriting)
    else if !script[0].Took? then FlushRun([], held, Stopped)
    else
      var rest := FlushAsWritten(held, script[1..]);
      rest.(wire := held[..if script[0].n <= |held| then script[0].n else |held|] + rest.wire)
  }

  /**
   * As written, flushing keeps the stream intact exactly when there is nothing to flush or
   * the first write already fails; and it never reports success on a non-empty buffer.
   */
  lemma {:induction false} FlushAsWrittenIff(held: seq<byte>, script: seq<Wrote>)
    requires forall i :: 0 <= i < |script| && script[i].Took? ==> script[i].n >= 1
    ensures var run := FlushAsWritten(held, script);
            && (run.wire + run.held == held <==> held == [] || script == [] || !script[0].Took?)
            && (run.end == Flushed <==> held == [])
            && run.held == held
  {
    if held != [] && script != [] && script[0].Took? {
      FlushAsWrittenIff(held, script[1..]);
    }
  }

  /** The write loop of mdr_frameconn_write_frame as written; `held` was in write_buf before. */
  function WriteAsWritten(held: seq<byte>, escaped: seq<byte>, script: seq<Wrote>): FlushRun {
    if escaped == [] then FlushRun([], held, Flushed)
    else if script == [] then FlushRun([], held + escaped, Stopped)
    else
      match script[0]
      case WouldBlock => FlushRun([], held + escaped, Stopped)
      case WriteError => FlushRun([], held, Stopped)
      case Took(n) =>
        var k := if n <= |escaped| then n else |escaped|;
        var rest := WriteAsWritten(held, escaped[k..], script[1..]);
        rest.(wire := escaped[..k] + rest.wire)
  }

  /** What has not gone out is put behind the older bytes, or dropped after a hard error. */
  lemma {:induction false} WriteAsWrittenIs(held: seq<byte>, escaped: seq<byte>, script: seq<Wrote>)
    ensures var run, k := WriteAsWritten(held, escaped, script), Taken(script, |escaped|);
            && run.wire == escaped[..k]
            && run.held == held + if Fails(script, |escaped|) then [] else escaped[k..]
    decreases |script|
  {
    if escaped != [] && script != [] && script[0].Took? {
      var k := if script[0].n <= |escaped| then script[0].n else |escaped|;
      WriteAsWrittenIs(held, escaped[k..], script[1..]);
      FailsLater(script, |escaped|, k);
      TakenInTwo(escaped, k, Taken(script[1..], |escaped| - k));
    } else {
      assert escaped[..0] == [] && escaped[0..] == escaped && held + [] == held;
    }
  }

  lemma TakenInTwo(s: seq<byte>, k: nat, more: nat)
    requires k + more <= |s|
    ensures s[..k] + s[k..][..more] == s[..k + more] && s[k..][more..] == s[k + more..]
  {
  }

  lemma FailsLater(script: seq<Wrote>, n: nat, k: nat)
    requires n > 0 && script != [] && script[0].Took? && k == if script[0].n <= n then script[0].n else n
    ensures Fails(script, n) <==> Fails(script[1..], n - k)
  {
  }

  /** `held` is so many copies of `w`, one after the other. */
  ghost predicate Copies(held: seq<byte>, w: seq<byte>)
    decreases |held|
  {
    held == [] || (0 < |w| <= |held| && held[..|w|] == w && Copies(held[|w|..], w))
  }

  lemma {:induction false} CopiesCommute(held: seq<byte>, w: seq<byte>)
    requires Copies(held, w)
    ensures w + held == held + w
    decreases |held|
  {
    if held != [] {
      var rest := held[|w|..];
      CopiesCommute(rest, w);
      assert held == w + rest;
      ConcatAssociates(w, w, rest);
      ConcatAssociates(w, rest, w);
    }
  }

  lemma ByteAfter(held: seq<byte>, w: seq<byte>)
    ensures 0 < |held| < |w| ==>
              (w + held)[|held|] == w[1..][|held| - 1] && (held + w)[|held|] == w[0]
  {
  }

  /** Bytes that begin with the one START in them change places only with copies of themselves. */
  lemma {:induction false} OnlyCopiesCommute(held: seq<byte>, w: seq<byte>)
    requires w != [] && w[0] == START && START !in w[1..] && w + held == held + w
    ensures Copies(held, w)
    decreases |held|
  {
    ByteAfter(held, w);
    if held != [] {
      var rest := held[|w|..];
      assert held[..|w|] == (held + w)[..|w|] == (w + held)[..|w|] == w;
      assert (w + held)[|w|..] == held && (held + w)[|w|..] == rest + w;
      assert w + rest == held;
      OnlyCopiesCommute(rest, w);
    }
  }

  /** Pulling a prefix of `e` in front of what is held. */
  lemma OvertakenIff(held: seq<byte>, w: seq<byte>, rest: seq<byte>)
    ensures w + (held + rest) == held + (w + rest) <==> w + held == held + w
  {
    ConcatAssociates(w, held, rest);
    ConcatAssociates(held, w, rest);
    var n := |w| + |held|;
    assert (w + held + rest)[..n] == w + held && (held + w + rest)[..n] == held + w;
  }

  predicate EndsInEnd(held: seq<byte>) {
    held == [] || held[|held| - 1] == END
  }

  /**
   * As written, a frame overtakes older bytes.  The stream stays in order exactly when there are
   * none, or nothing of the frame is taken, or all of it is and the older bytes are only copies
   * of it.  This covers hard errors, and what is held always ends in an END.
   */
  lemma OvertakesIff(held: seq<byte>, f: Frame, script: seq<Wrote>)
    requires Fits(f) && EndsInEnd(held)
    ensures var e := EscapeFrame(f);
            var run, k := WriteAsWritten(held, e, script), Taken(script, |e|);
            var kept := if Fails(script, |e|) then [] else e[k..];
            && EndsInEnd(run.held)
            && (run.wire + run.held == held + (e[..k] + kept) <==>
                  held == [] || k == 0 || (k == |e| && Copies(held, e)))
  {
    var e := EscapeFrame(f);
    var k := Taken(script, |e|);
    WriteAsWrittenIs(held, e, script);
    OvertakenIff(held, e[..k], if Fails(script, |e|) then [] else e[k..]);
    CommutesIff(held, f, k);
    assert EndsInEnd(e[k..]) && EndsInEnd(held + e[k..]) && held + [] == held;
  }

  lemma CommutesIff(held: seq<byte>, f: Frame, k: nat)
    requires Fits(f) && EndsInEnd(held) && k <= |EscapeFrame(f)|
    ensures var e := EscapeFrame(f);
            e[..k] + held == held + e[..k] <==> held == [] || k == 0 || (k == |e| && Copies(held, e))
  {
    var e := EscapeFrame(f);
    var w := e[..k];
    if k == 0 || held == [] {
      assert [] + held == held + [] && w + [] == [] + w;
    } else {
      EscapedDelimiters(f, w);
      if w + held == held + w {
        OnlyCopiesCommute(held, w);
        assert (w + held)[k + |held| - 1] == held[|held| - 1] && (held + w)[k + |held| - 1] == w[k - 1];
      }
      if k == |e| && Copies(held, e) {
        CopiesCommute(held, e);
        assert w == e;
      }
    }
  }

  /** A START at the front only, an END at the end only. */
  lemma EscapedDelimiters(f: Frame, w: seq<byte>)
    requires Fits(f) && w != [] && w <= EscapeFrame(f)
    ensures w[0] == START && START !in w[1..]
    ensures w[|w| - 1] == END ==> w == EscapeFrame(f)
  {
    var body := EscapeBytes(WireBytes(f));
    EscapedHasNoDelimiter(WireBytes(f));
    assert EscapeFrame(f) == [START] + body + [END];
    forall i | 1 <= i < |w|
      ensures w[i] != START && (w[i] == END ==> i == |body| + 1)
    {
      assert w[i] == (body + [END])[i - 1];
    }
  }
}
