/** Retries are bounded, due steps make progress, and poll agrees with process. */
module RequestProgress {
  import opened Bytes
  import opened Frames
  import opened Deadlines
  import opened Requests
  import opened RequestSafety

  // ----- what a due step costs --------------------------------------------------------

  /** Due steps the head can still take: its sends, and the one that gives up on it. */
  function StepsLeft(r: Request): (n: nat)
    requires r.attempts <= MAX_TRIES
    ensures 1 <= n <= MAX_TRIES + 1
  {
    if r.acked then (if r.attempts == 0 then 2 else 1) else MAX_TRIES + 1 - r.attempts
  }

  /** Steps used up: four by every finished request, and the head's own. */
  function Spent(h: Host): nat
    requires Inv(h)
  {
    (MAX_TRIES + 1) * |h.log| + if h.queue == [] then 0 else MAX_TRIES + 1 - StepsLeft(h.queue[0])
  }

  /** Four steps for every submission are enough, and are used up only when nothing is pending. */
  lemma SpentBound(h: Host)
    requires Inv(h)
    ensures Spent(h) <= (MAX_TRIES + 1) * |h.submitted|
    ensures Spent(h) == (MAX_TRIES + 1) * |h.submitted| <==> h.queue == []
  {
  }

  /** This event runs the head step on a head that is due, and no write blocks or fails. */
  predicate IsDueStep(h: Host, e: Event) {
    && e.Processing? && !(e.inp.writable && e.inp.flushFails)
    && h.queue != [] && Due(h.queue[0], e.inp.now)
    && (h.queue[0].attempts == 0 ==> e.inp.writable)
    && (GivesUp(h, e.inp.now) || e.inp.headWrite == Sent)
  }

  /** Ending the head uses up all its steps. */
  lemma EndSpends(h: Host, t: Host, outcome: Outcome)
    requires Inv(h) && Inv(t) && h.queue != [] && HeadDone(h, t, outcome)
    ensures Spent(t) == (MAX_TRIES + 1) * (|h.log| + 1) > Spent(h)
  {
  }

  /** The head step never gives steps back, and a due one uses up at least one. */
  lemma HeadStepSpends(h: Host, now: Clock, writable: bool, end: WriteEnd, reaction: seq<Act>)
    requires Inv(h)
    ensures var t := HeadStep(h, now, writable, end, reaction).host;
            && Inv(t)
            && Spent(t) >= Spent(h)
            && (h.queue != [] && Due(h.queue[0], now) && (h.queue[0].attempts == 0 ==> writable)
                && (GivesUp(h, now) || end == Sent)
                ==> Spent(t) > Spent(h))
  {
    HeadStepKeeps(h, now, writable, end, reaction);
    HeadStepCases(h, now, writable, end, reaction);
    if GivesUp(h, now) {
      EndSpends(h, HeadStep(h, now, writable, end, reaction).host, ExpiryOutcome(h.queue[0]));
    }
  }

  lemma ReceiveSpends(h: Host, now: Clock, m: Message, reactions: seq<seq<Act>>)
    requires Inv(h)
    ensures var t := Receive(h, now, m, reactions); Inv(t) && Spent(t) >= Spent(h)
  {
    ReceiveKeeps(h, now, m, reactions);
    ReceiveCases(h, now, m, reactions);
    if Completes(h, m) {
      EndSpends(h, Receive(h, now, m, reactions), Replied(if m.AckMessage? then None else m.packet));
    }
  }

  lemma StepSpends(h: Host, e: Event)
    requires Inv(h)
    ensures Inv(Step(h, e))
    ensures Spent(h) + (if IsDueStep(h, e) then 1 else 0) <= Spent(Step(h, e))
  {
    StepKeeps(h, e);
    match e
    case Processing(inp) =>
      HeadStepSpends(h, inp.now, inp.writable, inp.headWrite, inp.onExpire);
      if !SendPart(h, inp).failed && inp.readable {
        ReceiveSpends(SendPart(h, inp).host, inp.now, inp.message, inp.reactions);
      }
    case _ =>
  }

  function DueSteps(h: Host, events: seq<Event>): nat
    decreases |events|
  {
    if events == [] then 0
    else (if IsDueStep(h, events[0]) then 1 else 0) + DueSteps(Step(h, events[0]), events[1..])
  }

  lemma {:induction false} RunSpends(h: Host, events: seq<Event>)
    requires Inv(h)
    ensures Inv(Run(h, events))
    ensures Spent(h) + DueSteps(h, events) <= Spent(Run(h, events))
    decreases |events|
  {
    if events != [] {
      StepSpends(h, events[0]);
      RunSpends(Step(h, events[0]), events[1..]);
    }
  }

  /**
   * In any run whatever, with submissions, blocked writes and messages in between, there are at
   * most four due steps for each request pending or submitted, and after that many none is pending.
   */
  lemma AllFinishWithinFourSteps(h: Host, events: seq<Event>)
    requires Inv(h)
    ensures var t := Run(h, events);
            var asked := |h.queue| + |t.submitted| - |h.submitted|;
            && DueSteps(h, events) <= (MAX_TRIES + 1) * asked
            && (DueSteps(h, events) == (MAX_TRIES + 1) * asked ==> t.queue == [])
  {
    RunSpends(h, events);
    SpentBound(Run(h, events));
  }

  // ----- calls further apart than the deadlines ---------------------------------------------

  /** No deadline of the head lies more than one second behind `last`. */
  predicate DeadlineNear(h: Host, last: Clock) {
    h.queue != [] && h.queue[0].timeout.Some? ==> Instant(h.queue[0].timeout.value) <= Instant(last) + NANOS
  }

  /** Calls that may write and do not block, each more than a second behind the one before. */
  predicate Spaced(events: seq<Event>, last: Clock) {
    events == [] ||
    (&& events[0].Processing? && events[0].inp.headWrite == Sent
     && events[0].inp.writable && !events[0].inp.flushFails
     && Instant(events[0].inp.now) > Instant(last) + NANOS
     && Spaced(events[1..], events[0].inp.now))
  }

  lemma HeadStepSetsNear(h: Host, now: Clock, last: Clock, reaction: seq<Act>)
    requires Inv(h) && DeadlineNear(h, last) && Instant(last) < Instant(now)
    ensures DeadlineNear(HeadStep(h, now, true, Sent, reaction).host, now)
  {
    AddIsExact(now, ACK_TIMEOUT);
    HeadStepCases(h, now, true, Sent, reaction);
  }

  lemma ReceiveSetsNear(h: Host, now: Clock, m: Message, reactions: seq<seq<Act>>)
    requires Inv(h) && DeadlineNear(h, now)
    ensures DeadlineNear(Receive(h, now, m, reactions), now)
  {
    AddIsExact(now, REPLY_TIMEOUT);
    ReceiveCases(h, now, m, reactions);
  }

  /** Such a call finds a pending head due, and leaves the next deadline near. */
  lemma SpacedCallIsDue(h: Host, e: Event, last: Clock)
    requires Inv(h) && DeadlineNear(h, last) && Spaced([e], last)
    ensures DeadlineNear(Step(h, e), e.inp.now)
    ensures h.queue != [] ==> IsDueStep(h, e)
  {
    var inp := e.inp;
    HeadStepKeeps(h, inp.now, true, Sent, inp.onExpire);
    HeadStepSetsNear(h, inp.now, last, inp.onExpire);
    ReceiveSetsNear(HeadStep(h, inp.now, true, Sent, inp.onExpire).host, inp.now, inp.message, inp.reactions);
    if h.queue != [] && h.queue[0].attempts > 0 {
      CompareIsExact(inp.now, h.queue[0].timeout.value);
    }
  }

  /** At some point of the run nothing is pending. */
  predicate Drains(h: Host, events: seq<Event>)
    decreases |events|
  {
    h.queue == [] || (events != [] && Drains(Step(h, events[0]), events[1..]))
  }

  lemma {:induction false} SpacedCallsSpend(h: Host, events: seq<Event>, last: Clock)
    requires Inv(h) && DeadlineNear(h, last) && Spaced(events, last)
    ensures Inv(Run(h, events))
    ensures Drains(h, events) || (Spent(h) + |events| <= Spent(Run(h, events)) && Run(h, events).queue != [])
    decreases |events|
  {
    if events != [] {
      SpacedCallIsDue(h, events[0], last);
      StepSpends(h, events[0]);
      SpacedCallsSpend(Step(h, events[0]), events[1..], events[0].inp.now);
    }
  }

  /**
   * Polled more than a second apart, with whatever messages and whatever callbacks ask for, the
   * queue drains within four calls for each request pending or submitted meanwhile; and if
   * nothing was submitted, all requests are finished at the end.
   */
  lemma SpacedCallsFinishAll(h: Host, events: seq<Event>, last: Clock)
    requires Inv(h) && DeadlineNear(h, last) && Spaced(events, last)
    ensures var t := Run(h, events);
            |events| >= (MAX_TRIES + 1) * (|h.queue| + |t.submitted| - |h.submitted|) ==>
              Drains(h, events) && (t.submitted == h.submitted ==> t.queue == [])
  {
    SpacedCallsSpend(h, events, last);
    var t := Run(h, events);
    SpentBound(t);
    if Drains(h, events) {
      DrainedIsDone(h, events);
    } else {
      assert Spent(h) >= (MAX_TRIES + 1) * |h.log| && |h.submitted| == |h.log| + |h.queue|;
      assert Spent(t) < (MAX_TRIES + 1) * |t.submitted|;
    }
  }

  /** Without submissions a drained queue stays empty. */
  lemma {:induction false} DrainedIsDone(h: Host, events: seq<Event>)
    requires Inv(h) && Drains(h, events)
    ensures Inv(Run(h, events))
    ensures Run(h, events).submitted == h.submitted ==> Run(h, events).queue == []
    decreases |events|
  {
    RunKeeps(h, events);
    HistoryOnlyGrows(h, events);
    if h.queue != [] {
      StepKeeps(h, events[0]);
      HistoryOnlyGrows(h, events[..1]);
      assert Run(h, events[..1]) == Step(h, events[0]);
      HistoryOnlyGrows(Step(h, events[0]), events[1..]);
      DrainedIsDone(Step(h, events[0]), events[1..]);
    }
  }

  // ----- retransmission -------------------------------------------------------------------

  /** In every run the counter stays within the bound, and waiting requests have not been sent. */
  lemma AttemptsAreBounded(events: seq<Event>, i: nat)
    requires i < |Run(FRESH, events).queue|
    ensures Run(FRESH, events).queue[i].attempts <= if i == 0 then MAX_TRIES else 0
  {
    RunKeeps(FRESH, events);
  }

  predicate Summed(f: SizedFrame) {
    var w := WireBytes(f);
    w[|w| - 1] == Sum(w[..|w| - 1]) % 0x100
  }

  lemma ProcessSends(h: Host, inp: Input)
    ensures forall i :: 0 <= i < |Process(h, inp).sent| ==>
              var f := Process(h, inp).sent[i];
              || (h.queue != [] && f == h.queue[0].frame)
              || (inp.message.DataMessage? && f == AckFor(inp.message.id))
  {
    var head := HeadStep(h, inp.now, inp.writable, inp.headWrite, inp.onExpire);
    assert head.sent == [] || (h.queue != [] && head.sent == [h.queue[0].frame]);
    var ack := TakenAck(inp.message, inp.ackWrite);
    assert ack == [] || (inp.message.DataMessage? && ack == [AckFor(inp.message.id)]);
    var sent := Process(h, inp).sent;
    assert sent == [] || sent == head.sent || sent == head.sent + ack;
  }

  lemma SummedWhenOk(f: SizedFrame)
    requires ChecksumOk(f)
    ensures Summed(f)
  {
    GoodChecksumEndsTheWireSum(f);
  }

  /** In every run, each frame handed over ends in the sum of its earlier wire bytes. */
  lemma SentFramesAreSummed(events: seq<Event>, inp: Input, i: nat)
    requires i < |Process(Run(FRESH, events), inp).sent|
    ensures Summed(Process(Run(FRESH, events), inp).sent[i])
  {
    var h := Run(FRESH, events);
    ProcessSends(h, inp);
    if h.queue != [] && Process(h, inp).sent[i] == h.queue[0].frame {
      RunKeeps(FRESH, events);
      SummedWhenOk(h.queue[0].frame);
    } else {
      WithChecksumOk(Frame(DATA_TYPE_ACK, Not(inp.message.id), [], 0));
      SummedWhenOk(AckFor(inp.message.id));
    }
  }

  /** An acked head goes out again exactly when its ACK came before its first send. */
  lemma AckedHeadIsSentIff(h: Host)
    requires Inv(h) && h.queue != [] && h.queue[0].acked
    ensures (exists now :: HeadStep(h, now, true, Sent, []).sent != []) <==> h.queue[0].attempts == 0
  {
    if h.queue[0].attempts == 0 {
      assert HeadStep(h, Timespec(0, 0), true, Sent, []).sent != [];
    }
  }

  // ----- copies and the counter -------------------------------------------------------------

  /** Copies of request number n, in the order of submission, handed to the frame connection. */
  function Copies(h: Host, events: seq<Event>, n: nat): nat
    decreases |events|
  {
    if events == [] then 0
    else
      var e := events[0];
      (if e.Processing? && |h.log| == n then |SendPart(h, e.inp).sent| else 0) + Copies(Step(h, e), events[1..], n)
  }

  /** The rounds that handed over a copy of it and ended so. */
  function Rounds(h: Host, events: seq<Event>, n: nat, end: WriteEnd): nat
    decreases |events|
  {
    if events == [] then 0
    else
      var e := events[0];
      (if e.Processing? && |h.log| == n then RoundsOf(h, e.inp, end) else 0) + Rounds(Step(h, e), events[1..], n, end)
  }

  function RoundsOf(h: Host, inp: Input, end: WriteEnd): nat {
    if SendPart(h, inp).sent != [] && inp.headWrite == end then 1 else 0
  }

  function Attempts(h: Host): nat {
    if h.queue == [] then 0 else h.queue[0].attempts
  }

  predicate NoAck(c: Completion) {
    c.outcome == Ended(E_NO_ACK)
  }

  /** One call counts what it sent and ended Sent, or ends the head within its three tries. */
  predicate CountsSends(h: Host, t: Host, sent: nat) {
    || (t.log == h.log && Attempts(t) == Attempts(h) + sent)
    || (&& h.log < t.log && Attempts(t) == 0 && Attempts(h) + sent <= MAX_TRIES
        && (NoAck(t.log[|h.log|]) ==> Attempts(h) + sent == MAX_TRIES)
        && (forall i :: |h.log| < i < |t.log| ==> !NoAck(t.log[i])))
  }

  lemma ReceiveCountsSends(h: Host, now: Clock, m: Message, reactions: seq<seq<Act>>)
    requires Inv(h)
    ensures CountsSends(h, Receive(h, now, m, reactions), 0)
  {
    ReceiveCases(h, now, m, reactions);
  }

  lemma HeadStepCountsSends(h: Host, inp: Input)
    requires Inv(h)
    ensures var st := SendPart(h, inp);
            && Inv(st.host) && CountsSends(h, st.host, RoundsOf(h, inp, Sent))
            && (st.sent != [] ==> st.host.log == h.log)
            && |st.sent| == RoundsOf(h, inp, Sent) + RoundsOf(h, inp, Buffered)
  {
    HeadStepKeeps(h, inp.now, inp.writable, inp.headWrite, inp.onExpire);
    HeadStepCases(h, inp.now, inp.writable, inp.headWrite, inp.onExpire);
  }

  lemma CountingOn(h: Host, middle: Host, t: Host, sent: nat)
    requires CountsSends(h, middle, sent) && CountsSends(middle, t, 0) && Attempts(middle) <= MAX_TRIES
    ensures CountsSends(h, t, sent)
  {
  }

  lemma StepCountsSends(h: Host, e: Event)
    requires Inv(h)
    ensures Inv(Step(h, e))
    ensures CountsSends(h, Step(h, e), if e.Processing? then RoundsOf(h, e.inp, Sent) else 0)
  {
    StepKeeps(h, e);
    if e.Processing? {
      var part := SendPart(h, e.inp);
      HeadStepCountsSends(h, e.inp);
      if !part.failed && e.inp.readable {
        ReceiveCountsSends(part.host, e.inp.now, e.inp.message, e.inp.reactions);
        CountingOn(h, part.host, Step(h, e), RoundsOf(h, e.inp, Sent));
      }
    }
  }

  lemma {:induction false} CopiesAreRounds(h: Host, events: seq<Event>, n: nat)
    requires Inv(h)
    ensures Copies(h, events, n) == Rounds(h, events, n, Sent) + Rounds(h, events, n, Buffered)
    decreases |events|
  {
    if events != [] {
      StepKeeps(h, events[0]);
      if events[0].Processing? {
        HeadStepCountsSends(h, events[0].inp);
      }
      CopiesAreRounds(Step(h, events[0]), events[1..], n);
    }
  }

  lemma {:induction false} SentRounds(h: Host, events: seq<Event>, n: nat)
    requires Inv(h) && |h.log| <= n
    ensures var t := Run(h, events);
            var sent := (if |h.log| == n then Attempts(h) else 0) + Rounds(h, events, n, Sent);
            && (|t.log| == n ==> sent == Attempts(t))
            && (|t.log| < n ==> sent == 0)
            && (|t.log| > n ==> sent <= MAX_TRIES && (NoAck(t.log[n]) ==> sent == MAX_TRIES))
    decreases |events|
  {
    if events != [] {
      var e := events[0];
      StepCountsSends(h, e);
      if |Step(h, e).log| <= n {
        SentRounds(Step(h, e), events[1..], n);
      } else {
        FinishedIsNotSent(Step(h, e), events[1..], n, Sent);
        HistoryOnlyGrows(Step(h, e), events[1..]);
      }
    }
  }

  lemma {:induction false} FinishedIsNotSent(h: Host, events: seq<Event>, n: nat, end: WriteEnd)
    requires |h.log| > n
    ensures Rounds(h, events, n, end) == 0
    decreases |events|
  {
    if events != [] {
      HistoryOnlyGrows(h, events[..1]);
      assert Run(h, events[..1]) == Step(h, events[0]);
      FinishedIsNotSent(Step(h, events[0]), events[1..], n, end);
    }
  }

  /**
   * In every run, the copies of a request are its counted sends, at most three, and the rounds
   * whose write was buffered, which the code does not count.  While it is the head, the counted
   * sends are what `attempts` says.
   */
  lemma CopiesAreCountedOrBuffered(events: seq<Event>, n: nat)
    ensures var t := Run(FRESH, events);
            var counted := Rounds(FRESH, events, n, Sent);
            && Copies(FRESH, events, n) == counted + Rounds(FRESH, events, n, Buffered)
            && counted <= MAX_TRIES
            && (|t.log| == n ==> counted == Attempts(t))
  {
    CopiesAreRounds(FRESH, events, n);
    SentRounds(FRESH, events, n);
    RunKeeps(FRESH, events);
  }

  /**
   * A request given up without an ACK was handed over at most three times if and only if no
   * write of it was buffered; a pending head, if and only if no more were than tries are left.
   */
  lemma AtMostThreeCopiesIff(events: seq<Event>, n: nat)
    ensures var t := Run(FRESH, events);
            var atMostThree := Copies(FRESH, events, n) <= MAX_TRIES;
            var buffered := Rounds(FRESH, events, n, Buffered);
            && (n < |t.log| && NoAck(t.log[n]) ==> (atMostThree <==> buffered == 0))
            && (n == |t.log| ==> (atMostThree <==> buffered <= MAX_TRIES - Attempts(t)))
  {
    CopiesAreCountedOrBuffered(events, n);
    SentRounds(FRESH, events, n);
  }

  /** Nothing bounds them: k rounds with a buffered write, first sends or retries, hand over k copies. */
  lemma {:induction false} BufferedCopiesAreUnbounded(h: Host, inp: Input, k: nat)
    requires h.queue != [] && Due(h.queue[0], inp.now) && !GivesUp(h, inp.now)
    requires inp.writable && !inp.flushFails && !inp.readable && inp.headWrite == Buffered
    ensures var events := seq(k, i => Processing(inp));
            Run(h, events) == h && Copies(h, events, |h.log|) == k
  {
    if k > 0 {
      BufferedCopiesAreUnbounded(h, inp, k - 1);
      assert seq(k, i => Processing(inp))[1..] == seq(k - 1, i => Processing(inp));
    }
  }

  // ----- poll -------------------------------------------------------------------------------

  /** Poll asks to write exactly when output waits or a step taken now would do something. */
  lemma PollWriteIff(h: Host, buffered: bool, now: Clock)
    requires Inv(h)
    ensures Poll(h, buffered, now).write <==> buffered || HeadStep(h, now, true, Sent, []).host != h
  {
    HeadStepSpends(h, now, true, Sent, []);
  }

  /**
   * The timeout is the remaining time in whole milliseconds: no earlier instant is overdue,
   * and one millisecond more is enough.
   */
  lemma PollTimeoutIsTight(h: Host, buffered: bool, now: Clock, later: Clock)
    requires Inv(h) && h.queue != [] && h.queue[0].attempts != 0
    ensures var ms := Poll(h, buffered, now).timeout;
            var r := h.queue[0];
            && ms >= 0
            && (Overdue(r, now) ==> ms == 0)
            && (!Overdue(r, now) && Instant(later) <= Instant(now) + ms * 1_000_000 ==> !Overdue(r, later))
            && (Instant(later) >= Instant(now) + (ms + 1) * 1_000_000 ==> Overdue(r, later))
  {
    var deadline := h.queue[0].timeout.value;
    SubIsExact(deadline, now);
    CompareIsExact(now, deadline);
    CompareIsExact(later, deadline);
    var left := Sub(deadline, now);
    assert left.nsec == left.nsec / 1_000_000 * 1_000_000 + left.nsec % 1_000_000;
  }
}
