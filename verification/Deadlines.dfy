/** struct timespec arithmetic (src/packetconn.c). */
module Deadlines {

  const NANOS := 1_000_000_000

  datatype Timespec = Timespec(sec: int, nsec: int)

  /** packet_ack_timeout and packet_reply_timeout. */
  const ACK_TIMEOUT := Timespec(1, 0)
  const REPLY_TIMEOUT := Timespec(1, 0)

  predicate Normal(t: Timespec) {
    0 <= t.nsec < NANOS
  }

  /** What clock_gettime delivers. */
  type Clock = t: Timespec | Normal(t) witness Timespec(0, 0)

  /** The instant in nanoseconds. */
  function Instant(t: Timespec): int {
    t.sec * NANOS + t.nsec
  }

  /** timespec_add; the carry test is `>` where `>=` is meant. */
  function Add(a: Timespec, b: Timespec): Timespec {
    var sec, nsec := a.sec + b.sec, a.nsec + b.nsec;
    if nsec > NANOS then Timespec(sec + 1, nsec - NANOS) else Timespec(sec, nsec)
  }

  /** timespec_sub. */
  function Sub(a: Timespec, b: Timespec): Timespec {
    var sec, nsec := a.sec - b.sec, a.nsec - b.nsec;
    if nsec < 0 then Timespec(sec - 1, nsec + NANOS) else Timespec(sec, nsec)
  }

  /** timespec_compare. */
  function Compare(a: Timespec, b: Timespec): int {
    if a.sec < b.sec then -1
    else if a.sec > b.sec then 1
    else if a.nsec < b.nsec then -1
    else if a.nsec > b.nsec then 1
    else 0
  }

  /** Addition keeps the instant; it loses the normal form exactly when the parts make one second. */
  lemma AddIsExact(a: Timespec, b: Timespec)
    requires Normal(a) && Normal(b)
    ensures Instant(Add(a, b)) == Instant(a) + Instant(b)
    ensures Normal(Add(a, b)) <==> a.nsec + b.nsec != NANOS
  {
  }

  lemma SubIsExact(a: Timespec, b: Timespec)
    requires Normal(a) && Normal(b)
    ensures Normal(Sub(a, b)) && Instant(Sub(a, b)) == Instant(a) - Instant(b)
  {
  }

  /** On normal forms, comparing the pairs is comparing the instants. */
  lemma CompareIsExact(a: Timespec, b: Timespec)
    requires Normal(a) && Normal(b)
    ensures Compare(a, b) > 0 <==> Instant(a) > Instant(b)
    ensures Compare(a, b) == 0 <==> a == b
    ensures Compare(a, b) < 0 <==> Instant(a) < Instant(b)
  {
  }
}
