/** Byte stuffing: between START and END no delimiter occurs (src/frameconn.c). */
module Escaping {
  import opened Bytes
  import opened Frames

  const START: byte := 0x3e
  const ESCAPE: byte := 0x3d
  const END: byte := 0x3c

  /** b & ~FRAME_ESCAPE_MASK. */
  function ClearMask(b: byte): byte {
    if b / 0x10 % 2 == 1 then b - 0x10 else b
  }

  /** b | FRAME_ESCAPE_MASK. */
  function SetMask(b: byte): byte {
    if b / 0x10 % 2 == 1 then b else b + 0x10
  }

  /** The two masks are the bit operations they stand for. */
  lemma MasksAreBitOperations(b: bv8)
    ensures (b & !0x10) as int == ClearMask(b as int)
    ensures (b | 0x10) as int == SetMask(b as int)
  {
  }

  predicate IsSpecial(b: byte) {
    b == START || b == ESCAPE || b == END
  }

  function EscapeByte(b: byte): seq<byte> {
    if IsSpecial(b) then [ESCAPE, ClearMask(b)] else [b]
  }

  function EscapeBytes(s: seq<byte>): seq<byte> {
    if s == [] then [] else EscapeByte(s[0]) + EscapeBytes(s[1..])
  }

  /** An ESCAPE that ends the body has nothing to escape and stays as it is. */
  function UnescapeBytes(s: seq<byte>): seq<byte> {
    if s == [] then []
    else if s[0] == ESCAPE && |s| > 1 then [SetMask(s[1])] + UnescapeBytes(s[2..])
    else [s[0]] + UnescapeBytes(s[1..])
  }

  /** What travels for one frame. */
  function EscapeFrame(f: Frame): seq<byte>
    requires Fits(f)
  {
    [START] + EscapeBytes(WireBytes(f)) + [END]
  }

  /**
   * What becomes of a delimited body.  `Wrapped` is the block handed out when the declared
   * length makes the 32-bit sum EMPTY_LEN + payload_length wrap to a small number.
   */
  datatype Received = NoFrame | Got(frame: Frame) | Wrapped(declared: nat)

  function ParseWire(bytes: seq<byte>): Received {
    if |bytes| < EMPTY_LEN then NoFrame
    else
      var declared := FromBigEndian(bytes[2..6]);
      if |bytes| < (EMPTY_LEN + declared) % TWO_TO_32 then NoFrame
      else if EMPTY_LEN + declared >= TWO_TO_32 then Wrapped(declared)
      else Got(Frame(bytes[0], bytes[1], bytes[6..6 + declared], bytes[6 + declared]))
  }

  function ParseBody(escaped: seq<byte>): Received {
    ParseWire(UnescapeBytes(escaped))
  }

  // ----- laws ---------------------------------------------------------------

  predicate NoDelimiter(s: seq<byte>) {
    START !in s && END !in s
  }

  lemma {:induction false} EscapedHasNoDelimiter(s: seq<byte>)
    ensures NoDelimiter(EscapeBytes(s))
    ensures |s| <= |EscapeBytes(s)| <= 2 * |s|
  {
    if s != [] {
      EscapedHasNoDelimiter(s[1..]);
    }
  }

  lemma {:induction false} UnescapeInvertsEscape(s: seq<byte>)
    ensures UnescapeBytes(EscapeBytes(s)) == s
  {
    if s != [] {
      UnescapeInvertsEscape(s[1..]);
      var e, rest := EscapeByte(s[0]), EscapeBytes(s[1..]);
      assert (e + rest)[|e|..] == rest;
    }
  }

  /** A body an escaper can have produced: no delimiter, and ESCAPE only before a cleared special byte. */
  predicate Canonical(s: seq<byte>) {
    s == [] ||
    if s[0] == ESCAPE then |s| > 1 && s[1] in {0x2c, 0x2d, 0x2e} && Canonical(s[2..])
    else s[0] != START && s[0] != END && Canonical(s[1..])
  }

  /** The other direction: escaping restores a received body exactly when it was canonical. */
  lemma {:induction false} EscapeInvertsUnescapeIff(s: seq<byte>)
    ensures EscapeBytes(UnescapeBytes(s)) == s <==> Canonical(s)
  {
    if s == [] {
    } else if s[0] == ESCAPE && |s| > 1 {
      EscapeInvertsUnescapeIff(s[2..]);
      var b, rest := SetMask(s[1]), UnescapeBytes(s[2..]);
      assert ([b] + rest)[1..] == rest;
      assert EscapeBytes([b] + rest) == EscapeByte(b) + EscapeBytes(rest);
      assert s == [s[0], s[1]] + s[2..];
      if |EscapeByte(b)| == 2 {
        assert (EscapeByte(b) + EscapeBytes(rest))[2..] == EscapeBytes(rest);
        assert (EscapeByte(b) + EscapeBytes(rest))[..2] == EscapeByte(b);
      } else {
        assert (EscapeByte(b) + EscapeBytes(rest))[0] == b;
      }
    } else {
      EscapeInvertsUnescapeIff(s[1..]);
      var rest := UnescapeBytes(s[1..]);
      assert ([s[0]] + rest)[1..] == rest;
      assert EscapeBytes([s[0]] + rest) == EscapeByte(s[0]) + EscapeBytes(rest);
      assert s == [s[0]] + s[1..];
      if IsSpecial(s[0]) {
        assert (EscapeByte(s[0]) + EscapeBytes(rest))[..2] == [ESCAPE, ClearMask(s[0])];
      } else {
        assert (EscapeByte(s[0]) + EscapeBytes(rest))[1..] == EscapeBytes(rest);
      }
    }
  }

  /** Framing loses nothing, on every frame, swap of the length field included. */
  lemma FrameRoundTrip(f: Frame)
    requires Fits(f)
    ensures ParseBody(EscapeBytes(WireBytes(f))) == Got(f)
    ensures NoDelimiter(EscapeBytes(WireBytes(f)))
    ensures var len := EMPTY_LEN + |f.payload|; len + 2 <= |EscapeFrame(f)| <= 2 * len + 2
  {
    var w := WireBytes(f);
    UnescapeInvertsEscape(w);
    EscapedHasNoDelimiter(w);
    assert w[2..6] == BigEndian(|f.payload|);
    FromBigEndianInverts(|f.payload|);
    assert w[6..6 + |f.payload|] == f.payload;
  }

  /** A block whose length wraps is handed out exactly for these bodies; no frame is behind it. */
  lemma WrappedIff(escaped: seq<byte>)
    ensures var bytes := UnescapeBytes(escaped);
            ParseBody(escaped).Wrapped? <==>
              && |bytes| >= EMPTY_LEN
              && FromBigEndian(bytes[2..6]) >= TWO_TO_32 - EMPTY_LEN
  {
  }

  // ----- the code -----------------------------------------------------------

  /** ENSURE_ESCAPED_BUFFER: at most one growth step, then `n` more bytes fit. */
  method EnsureRoom(escaped: array<byte>, write: nat, n: nat) returns (grown: array<byte>)
    requires write <= escaped.Length && 1 <= n <= 2
    ensures grown == escaped || fresh(grown)
    ensures write + n <= grown.Length
    ensures grown[..write] == escaped[..write]
    ensures grown == escaped <==> write + n <= escaped.Length
  {
    if write + (n - 1) >= escaped.Length {
      var capacity := (escaped.Length + 2) * 9 / 8;
      grown := new byte[capacity];
      forall k | 0 <= k < escaped.Length {
        grown[k] := escaped[k];
      }
    } else {
      grown := escaped;
    }
  }

  /** The switch of the loop: one byte, escaped when it is special. */
  method PutByte(escaped: array<byte>, write: nat, b: byte) returns (grown: array<byte>, next: nat)
    requires write <= escaped.Length
    modifies escaped
    ensures grown == escaped || fresh(grown)
    ensures next <= grown.Length
    ensures grown[..next] == old(escaped[..write]) + EscapeByte(b)
  {
    if IsSpecial(b) {
      grown := EnsureRoom(escaped, write, 2);
      grown[write], grown[write + 1] := ESCAPE, ClearMask(b);
      next := write + 2;
    } else {
      grown := EnsureRoom(escaped, write, 1);
      grown[write] := b;
      next := write + 1;
    }
  }

  /** Moving one byte from the input to the escaped output. */
  lemma EscapeStep(done: seq<byte>, wire: seq<byte>, read: nat)
    requires read < |wire|
    ensures done + EscapeBytes(wire[read..]) == (done + EscapeByte(wire[read])) + EscapeBytes(wire[read + 1..])
  {
    assert wire[read..][1..] == wire[read + 1..];
  }

  /** How many bytes of the body the next unescaped byte takes, and what it is. */
  function Next(body: seq<byte>, read: nat): (nat, byte)
    requires read < |body|
  {
    if body[read] == ESCAPE && read + 1 < |body| then (2, SetMask(body[read + 1])) else (1, body[read])
  }

  lemma UnescapeStep(done: seq<byte>, body: seq<byte>, read: nat)
    requires read < |body|
    ensures var (n, b) := Next(body, read);
            && read + n <= |body|
            && done + UnescapeBytes(body[read..]) == (done + [b]) + UnescapeBytes(body[read + n..])
  {
    assert body[read..][1..] == body[read + 1..];
    if read + 1 < |body| {
      assert body[read..][2..] == body[read + 2..];
    }
  }

  /** mdr_frameconn_escape_frame. */
  method Escape(f: Frame) returns (result: array<byte>)
    requires Fits(f)
    ensures fresh(result)
    ensures result[..] == EscapeFrame(f)
  {
    var frameLen := EMPTY_LEN + |f.payload|;
    var payloadLengthBytes := BigEndian(|f.payload|);
    var frameBytes := HostBytes(f);
    ghost var wire := WireBytes(f);

    var escaped := new byte[2 + (frameLen + 2) * 9 / 8];
    escaped[0] := START;
    var read, write := 0, 1;
    ghost var done: seq<byte> := [START];
    assert wire[0..] == wire;
    while read < frameLen
      invariant 0 <= read <= frameLen == |wire| == |frameBytes|
      invariant 0 <= write <= escaped.Length && fresh(escaped) && escaped[..write] == done
      invariant done + EscapeBytes(wire[read..]) == [START] + EscapeBytes(wire)
    {
      var b := if 2 <= read < 6 then payloadLengthBytes[read - 2] else frameBytes[read];
      assert b == wire[read];
      EscapeStep(done, wire, read);
      escaped, write := PutByte(escaped, write, b);
      done := done + EscapeByte(b);
      read := read + 1;
    }
    assert wire[read..] == [];
    escaped := EnsureRoom(escaped, write, 1);
    escaped[write] := END;
    write := write + 1;
    result := new byte[write];
    forall k | 0 <= k < write {
      result[k] := escaped[k];
    }
    assert result[..write - 1] == done;
  }

  /** The loop of mdr_frameconn_unescape_frame. */
  method UnescapeLoop(escaped: array<byte>, escapedLen: nat) returns (frameBytes: array<byte>, write: nat)
    requires escapedLen <= escaped.Length
    ensures write <= frameBytes.Length && frameBytes[..write] == UnescapeBytes(escaped[..escapedLen])
  {
    frameBytes := new byte[escapedLen];
    ghost var body := escaped[..escapedLen];
    ghost var done: seq<byte> := [];
    var read := 0;
    write := 0;
    assert body[0..] == body;
    while read < escapedLen
      invariant 0 <= write <= read <= escapedLen == frameBytes.Length && frameBytes[..write] == done
      invariant escaped[..escapedLen] == body && fresh(frameBytes)
      invariant done + UnescapeBytes(body[read..]) == UnescapeBytes(body)
    {
      var b := escaped[read];
      ghost var (taken, next) := Next(body, read);
      UnescapeStep(done, body, read);
      if b == ESCAPE && read + 1 < escapedLen {
        read := read + 1;
        frameBytes[write] := SetMask(escaped[read]);
      } else {
        frameBytes[write] := b;
      }
      done := done + [next];
      read, write := read + 1, write + 1;
    }
    assert body[read..] == [];
  }

  /** mdr_frameconn_unescape_frame. */
  method Unescape(escaped: array<byte>, escapedLen: nat) returns (r: Received)
    requires escapedLen <= escaped.Length
    ensures r == ParseBody(escaped[..escapedLen])
  {
    var frameBytes, write := UnescapeLoop(escaped, escapedLen);
    r := ParseWire(frameBytes[..write]);
  }
}
