/** Frames and their checksum (src/frame.c, include/mdr/frame.h). */
module Frames {
  import opened Bytes

  /** MDR_FRAME_EMPTY_LEN: header and checksum of a frame without payload. */
  const EMPTY_LEN := 7

  const DATA_TYPE_ACK: byte := 0x01
  const DATA_TYPE_DATA_MDR: byte := 0x0c

  /** payload_length is the length of `payload`; the checksum byte follows it. */
  datatype Frame = Frame(dataType: byte, sequenceId: byte, payload: seq<byte>, checksum: byte)

  /** The frame's total length does not wrap in the 32-bit sum that computes it. */
  predicate Fits(f: Frame) {
    EMPTY_LEN + |f.payload| < TWO_TO_32
  }

  type SizedFrame = f: Frame | Fits(f) witness Frame(0, 0, [], 0)

  /**
   * How handing a frame to the connection ends.  The code reports Buffered and Refused
   * alike, as EWOULDBLOCK.
   */
  datatype WriteEnd = Sent | Buffered | Refused | Broken

  // ----- byte order ---------------------------------------------------------

  /** A 32-bit value as a little-endian machine keeps it. */
  function LittleEndian(n: nat): seq<byte>
    requires n < TWO_TO_32
  {
    [n % 0x100, n / 0x100 % 0x100, n / 0x1_0000 % 0x100, n / 0x100_0000]
  }

  /** htonl: the same value in network order. */
  function BigEndian(n: nat): seq<byte>
    requires n < TWO_TO_32
  {
    [n / 0x100_0000, n / 0x1_0000 % 0x100, n / 0x100 % 0x100, n % 0x100]
  }

  /** ntohl of four received bytes. */
  function FromBigEndian(b: seq<byte>): (n: nat)
    requires |b| == 4
    ensures n < TWO_TO_32
  {
    b[0] as nat * 0x100_0000 + b[1] as nat * 0x1_0000 + b[2] as nat * 0x100 + b[3] as nat
  }

  lemma FromBigEndianInverts(n: nat)
    requires n < TWO_TO_32
    ensures FromBigEndian(BigEndian(n)) == n
  {
    assert n == n / 0x100 * 0x100 + n % 0x100;
    assert n / 0x100 == n / 0x1_0000 * 0x100 + n / 0x100 % 0x100;
    assert n / 0x1_0000 == n / 0x100_0000 * 0x100 + n / 0x1_0000 % 0x100;
  }

  /** The packed struct as it lies in memory (little-endian host). */
  function HostBytes(f: Frame): seq<byte>
    requires Fits(f)
  {
    [f.dataType, f.sequenceId] + LittleEndian(|f.payload|) + f.payload + [f.checksum]
  }

  /** The unescaped bytes of the frame as they travel. */
  function WireBytes(f: Frame): seq<byte>
    requires Fits(f)
  {
    [f.dataType, f.sequenceId] + BigEndian(|f.payload|) + f.payload + [f.checksum]
  }

  // ----- checksum -----------------------------------------------------------

  function Sum(s: seq<byte>): nat {
    if s == [] then 0 else s[0] + Sum(s[1..])
  }

  lemma {:induction false} SumAppend(s: seq<byte>, t: seq<byte>)
    ensures Sum(s + t) == Sum(s) + Sum(t)
  {
    if s == [] {
      assert s + t == t;
    } else {
      assert (s + t)[1..] == s[1..] + t;
      SumAppend(s[1..], t);
    }
  }

  /** The i-th byte that travels, of those in front of the checksum. */
  function WireByte(f: Frame, i: nat): byte
    requires Fits(f) && i < EMPTY_LEN - 1 + |f.payload|
  {
    if i == 0 then f.dataType
    else if i == 1 then f.sequenceId
    else if i < 6 then BigEndian(|f.payload|)[i - 2]
    else f.payload[i - 6]
  }

  /** The first n of them, added up in eight bits. */
  function ChecksumUpTo(f: Frame, n: nat): byte
    requires Fits(f) && n < EMPTY_LEN + |f.payload|
  {
    if n == 0 then 0 else (ChecksumUpTo(f, n - 1) as nat + WireByte(f, n - 1)) % 0x100
  }

  function WireChecksum(f: Frame): byte
    requires Fits(f)
  {
    ChecksumUpTo(f, EMPTY_LEN - 1 + |f.payload|)
  }

  function WithChecksum(f: SizedFrame): SizedFrame {
    f.(checksum := WireChecksum(f))
  }

  predicate ChecksumOk(f: Frame) {
    Fits(f) && f.checksum == WireChecksum(f)
  }

  lemma {:induction false} ChecksumIsNotSummed(f: SizedFrame, c: byte, n: nat)
    requires n < EMPTY_LEN + |f.payload|
    ensures ChecksumUpTo(f.(checksum := c), n) == ChecksumUpTo(f, n)
  {
    if n > 0 {
      ChecksumIsNotSummed(f, c, n - 1);
    }
  }

  /** The checksum byte is not summed into itself. */
  lemma WithChecksumOk(f: SizedFrame)
    ensures ChecksumOk(WithChecksum(f))
  {
    ChecksumIsNotSummed(f, WireChecksum(f), EMPTY_LEN - 1 + |f.payload|);
  }

  lemma WireByteAt(f: SizedFrame, i: nat)
    requires i < EMPTY_LEN - 1 + |f.payload|
    ensures WireBytes(f)[i] == WireByte(f, i)
  {
  }

  /** One step of the 8-bit accumulator. */
  lemma SumNext(s: seq<byte>, i: nat)
    requires i < |s|
    ensures Sum(s[..i + 1]) % 0x100 == (Sum(s[..i]) % 0x100 + s[i]) % 0x100
  {
    assert s[..i + 1] == s[..i] + [s[i]];
    SumAppend(s[..i], [s[i]]);
    AddModulo(Sum(s[..i]), s[i]);
  }

  lemma AddModulo(a: nat, b: nat)
    ensures (a % 0x100 + b) % 0x100 == (a + b) % 0x100
  {
    assert a == a / 0x100 * 0x100 + a % 0x100;
  }

  lemma {:induction false} ChecksumIsWireSum(f: SizedFrame, n: nat)
    requires n < EMPTY_LEN + |f.payload|
    ensures ChecksumUpTo(f, n) == Sum(WireBytes(f)[..n]) % 0x100
  {
    if n > 0 {
      ChecksumIsWireSum(f, n - 1);
      var w := WireBytes(f);
      WireByteAt(f, n - 1);
      SumNext(w, n - 1);
    }
  }

  /** The byte swap only permutes the four bytes of the length. */
  lemma HostAndWireSumsAgree(f: Frame)
    requires Fits(f)
    ensures Sum(HostBytes(f)[..|HostBytes(f)| - 1]) == Sum(WireBytes(f)[..|WireBytes(f)| - 1])
  {
    var head, le, be := [f.dataType, f.sequenceId], LittleEndian(|f.payload|), BigEndian(|f.payload|);
    assert HostBytes(f)[..|HostBytes(f)| - 1] == head + (le + f.payload);
    assert WireBytes(f)[..|WireBytes(f)| - 1] == head + (be + f.payload);
    SumAppend(head, le + f.payload);
    SumAppend(head, be + f.payload);
    SumAppend(le, f.payload);
    SumAppend(be, f.payload);
    assert Sum(le) == le[0] as nat + le[1] as nat + le[2] as nat + le[3] as nat by { SumOfFour(le); }
    assert Sum(be) == be[0] as nat + be[1] as nat + be[2] as nat + be[3] as nat by { SumOfFour(be); }
  }

  lemma SumOfFour(s: seq<byte>)
    requires |s| == 4
    ensures Sum(s) == s[0] as nat + s[1] as nat + s[2] as nat + s[3] as nat
  {
    assert s == [s[0]] + ([s[1]] + ([s[2]] + [s[3]]));
    SumAppend([s[0]], [s[1]] + ([s[2]] + [s[3]]));
    SumAppend([s[1]], [s[2]] + [s[3]]);
    SumAppend([s[2]], [s[3]]);
  }

  /** A frame on the wire with a good checksum closes the sum of its own bytes. */
  lemma GoodChecksumEndsTheWireSum(f: Frame)
    requires ChecksumOk(f)
    ensures var w := WireBytes(f); w[|w| - 1] == Sum(w[..|w| - 1]) % 0x100
  {
    ChecksumIsWireSum(f, EMPTY_LEN - 1 + |f.payload|);
  }

  /** mdr_frame_compute_checksum: an 8-bit accumulator over the host-order struct. */
  method ComputeChecksum(f: Frame) returns (checksum: byte)
    requires Fits(f)
    ensures checksum == WireChecksum(f)
  {
    var frameBytes := HostBytes(f);
    checksum := 0;
    var i := 0;
    while i < |frameBytes| - 1
      invariant 0 <= i <= |frameBytes| - 1
      invariant checksum == Sum(frameBytes[..i]) % 0x100
    {
      SumNext(frameBytes, i);
      checksum := (checksum + frameBytes[i]) % 0x100;
      i := i + 1;
    }
    HostAndWireSumsAgree(f);
    ChecksumIsWireSum(f, EMPTY_LEN - 1 + |f.payload|);
  }
}
