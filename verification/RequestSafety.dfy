/** What every run of the request engine keeps. */
module RequestSafety {
  import opened Bytes
  import opened Frames
  import opened Deadlines
  import opened Requests

  // ----- the invariant ----------------------------------------------------------

  /** The request carries what was submitted; only sequence id and checksum may differ. */
  predicate ComesFrom(r: Request, s: Submission) {
    && r.expected == s.expected && r.hasResult == s.hasResult && r.hasError == s.hasError
    && r.owner == s.owner && r.frame.payload == s.frame.payload && r.frame.dataType == s.frame.dataType
  }

  predicate Finishes(c: Completion, s: Submission) {
    && c.owner == s.owner
    && c.called == if c.outcome.Replied? then s.hasResult else s.hasError
  }

  /** Completed requests, then pending ones, are the submissions in order. */
  predicate InOrder(h: Host) {
    && |h.submitted| == |h.log| + |h.queue|
    && (forall i :: 0 <= i < |h.log| ==> Finishes(h.log[i], h.submitted[i]))
    && (forall i :: 0 <= i < |h.queue| ==> ComesFrom(h.queue[i], h.submitted[|h.log| + i]))
  }

  /** The id the next request to be started gets, from the history alone. */
  function NextAfter(log: seq<Completion>): byte {
    if log == [] then 0
    else
      var last := log[|log| - 1];
      if last.outcome == Ended(E_NO_ACK) then last.id else Not(last.id)
  }

  /** Each finished request had the id its predecessors leave for it. */
  predicate Follows(log: seq<Completion>) {
    log == [] ||
    var init, last := log[..|log| - 1], log[|log| - 1];
    Follows(init) && last.id == NextAfter(init)
  }

  predicate Alternates(h: Host) {
    && Follows(h.log)
    && if h.queue == [] then h.nextId == NextAfter(h.log)
       else h.queue[0].frame.sequenceId == NextAfter(h.log) && h.nextId == Not(NextAfter(h.log))
  }

  predicate HeadOk(r: Request) {
    && ChecksumOk(r.frame)
    && r.attempts <= MAX_TRIES
    && (r.attempts > 0 || r.acked ==> r.timeout.Some?)
    && (r.timeout.Some? ==> Normal(r.timeout.value))
  }

  predicate Unsent(r: Request) {
    r.attempts == 0 && !r.acked && r.timeout == None
  }

  predicate Inv(h: Host) {
    && InOrder(h)
    && Alternates(h)
    && (h.queue != [] ==> HeadOk(h.queue[0]))
    && (forall i :: 1 <= i < |h.queue| ==> Unsent(h.queue[i]))
  }

  // ----- it is kept ---------------------------------------------------------------

  lemma {:induction false} NextAfterIsABit(log: seq<Completion>)
    requires Follows(log)
    ensures NextAfter(log) in {0, 1}
  {
    if log != [] {
      NextAfterIsABit(log[..|log| - 1]);
    }
  }

  lemma SubmitKeeps(h: Host, s: Submission)
    requires Inv(h)
    ensures Inv(Submit(h, s))
  {
    if h.queue == [] {
      WithChecksumOk(s.frame.(sequenceId := h.nextId));
    }
  }

  lemma PerformKeeps(h: Host, a: Act)
    requires Inv(h)
    ensures Inv(Perform(h, a))
  {
    if a.Ask? {
      SubmitKeeps(h, a.s);
    }
  }

  lemma {:induction false} PerformAllKeeps(h: Host, acts: seq<Act>)
    requires Inv(h)
    ensures Inv(PerformAll(h, acts))
    decreases |acts|
  {
    if acts != [] {
      PerformKeeps(h, acts[0]);
      PerformAllKeeps(Perform(h, acts[0]), acts[1..]);
    }
  }

  /** The head has been logged but not yet unlinked, and nextId is what the history asks for. */
  predicate Leaving(h: Host) {
    && |h.queue| > 0 && |h.submitted| + 1 == |h.log| + |h.queue|
    && (forall i :: 0 <= i < |h.log| ==> Finishes(h.log[i], h.submitted[i]))
    && (forall i :: 1 <= i < |h.queue| ==> ComesFrom(h.queue[i], h.submitted[|h.log| + i - 1]))
    && Follows(h.log)
    && h.nextId == NextAfter(h.log)
    && (forall i :: 1 <= i < |h.queue| ==> Unsent(h.queue[i]))
  }

  lemma AdvanceRestores(h: Host)
    requires Leaving(h)
    ensures Inv(Advance(h))
  {
    var t := Advance(h);
    if |h.queue| > 1 {
      WithChecksumOk(h.queue[1].frame.(sequenceId := h.nextId));
      assert forall i :: 1 <= i < |t.queue| ==> t.queue[i] == h.queue[i + 1];
    }
  }

  lemma LogLeaves(h: Host, outcome: Outcome)
    requires InOrder(h) && h.queue != []
    requires Follows(h.log)
    requires h.queue[0].frame.sequenceId == NextAfter(h.log)
    requires h.nextId == if outcome == Ended(E_NO_ACK) then NextAfter(h.log) else Not(NextAfter(h.log))
    requires forall i :: 1 <= i < |h.queue| ==> Unsent(h.queue[i])
    ensures Leaving(Log(h, outcome))
  {
    var logged := Log(h, outcome);
    assert logged.log[..|h.log|] == h.log;
  }

  /** What an error callback requests goes behind the head that is still linked. */
  lemma {:induction false} PerformAllLeaves(h: Host, acts: seq<Act>)
    requires Leaving(h)
    ensures Leaving(PerformAll(h, acts))
    decreases |acts|
  {
    if acts != [] {
      PerformAllLeaves(Perform(h, acts[0]), acts[1..]);
    }
  }

  lemma CompleteKeeps(h: Host, packet: Option<Packet>, reaction: seq<Act>)
    requires Inv(h) && h.queue != []
    ensures Inv(Complete(h, packet, reaction))
  {
    var logged := Log(h, Replied(packet));
    LogLeaves(h, Replied(packet));
    AdvanceRestores(logged);
    PerformAllKeeps(Advance(logged), reaction);
  }

  lemma ExpireKeeps(h: Host, reaction: seq<Act>)
    requires Inv(h) && h.queue != []
    ensures Inv(Expire(h, reaction))
  {
    var r := h.queue[0];
    var flipped := h.(nextId := if r.acked then h.nextId else Not(h.nextId));
    var outcome := Ended(if r.acked then E_NO_REPLY else E_NO_ACK);
    NextAfterIsABit(h.log);
    LogLeaves(flipped, outcome);
    PerformAllLeaves(Log(flipped, outcome), reaction);
    AdvanceRestores(if r.hasError then PerformAll(Log(flipped, outcome), reaction) else Log(flipped, outcome));
  }

  /** Counting a send or noting an ACK touches nothing but the head's progress. */
  lemma ProgressKeeps(h: Host, r: Request)
    requires Inv(h) && h.queue != [] && HeadOk(r)
    requires r == h.queue[0].(attempts := r.attempts, acked := r.acked, timeout := r.timeout)
    ensures Inv(h.(queue := h.queue[0 := r]))
  {
  }

  lemma HeadStepKeeps(h: Host, now: Clock, writable: bool, end: WriteEnd, reaction: seq<Act>)
    requires Inv(h)
    ensures Inv(HeadStep(h, now, writable, end, reaction).host)
  {
    if h.queue != [] {
      var r := h.queue[0];
      if r.attempts > 0 && Overdue(r, now) && (r.acked || r.attempts >= MAX_TRIES) {
        ExpireKeeps(h, reaction);
      } else if end == Sent && r.attempts < MAX_TRIES {
        ProgressKeeps(h, r.(attempts := r.attempts + 1, timeout := Some(Add(now, ACK_TIMEOUT))));
      }
    }
  }

  lemma {:induction false} DispatchKeeps(h: Host, subs: seq<Subscription>, p: Packet, reactions: seq<seq<Act>>)
    requires Inv(h)
    ensures Inv(Dispatch(h, subs, p, reactions))
    decreases |subs| + |AllListened(reactions)|
  {
    if subs != [] {
      if Wants(subs[0], p) {
        var noted := h.(notices := h.notices + [Notice(subs[0].userData, p)]);
        PerformAllKeeps(noted, FirstReaction(reactions));
        DispatchKeeps(Notify(h, subs[0], p, FirstReaction(reactions)),
                      subs[1..] + Listened(FirstReaction(reactions)), p, LaterReactions(reactions));
      } else {
        DispatchKeeps(h, subs[1..], p, reactions);
      }
    }
  }

  lemma ReceiveKeeps(h: Host, now: Clock, m: Message, reactions: seq<seq<Act>>)
    requires Inv(h)
    ensures Inv(Receive(h, now, m, reactions))
  {
    if m.AckMessage? && AcceptsAck(h, m.id) {
      if h.queue[0].expected.onlyAck {
        CompleteKeeps(h, None, FirstReaction(reactions));
      } else {
        ProgressKeeps(h, h.queue[0].(acked := true, timeout := Some(Add(now, REPLY_TIMEOUT))));
      }
    } else if m.DataMessage? && m.packet.Some? {
      if Answers(h, m.packet.value) {
        CompleteKeeps(h, m.packet, FirstReaction(reactions));
      } else {
        DispatchKeeps(h, h.subs, m.packet.value, reactions);
      }
    }
  }

  lemma StepKeeps(h: Host, e: Event)
    requires Inv(h)
    ensures Inv(Step(h, e))
  {
    match e
    case Acting(a) => PerformKeeps(h, a);
    case Processing(inp) =>
      HeadStepKeeps(h, inp.now, inp.writable, inp.headWrite, inp.onExpire);
      ReceiveKeeps(HeadStep(h, inp.now, inp.writable, inp.headWrite, inp.onExpire).host,
                   inp.now, inp.message, inp.reactions);
    case Unsubscribing(_) =>
  }

  /** Every state any run reaches satisfies the invariant. */
  lemma {:induction false} RunKeeps(h: Host, events: seq<Event>)
    requires Inv(h)
    ensures Inv(Run(h, events))
    decreases |events|
  {
    if events != [] {
      StepKeeps(h, events[0]);
      RunKeeps(Step(h, events[0]), events[1..]);
    }
  }

  // ----- what becomes of the head ------------------------------------------------------

  /** The head, if there is one, is untouched; if there is none, a new one has not been sent. */
  predicate HeadStays(h: Host, t: Host) {
    && t.log == h.log
    && if h.queue == [] then t.queue != [] ==> Unsent(t.queue[0])
       else t.queue != [] && t.queue[0] == h.queue[0]
  }

  /** The head has ended this way, and the next one has not been sent. */
  predicate HeadDone(h: Host, t: Host, outcome: Outcome)
    requires h.queue != []
  {
    t.log == Log(h, outcome).log && (t.queue != [] ==> Unsent(t.queue[0]))
  }

  lemma {:induction false} PerformAllKeepsHead(h: Host, acts: seq<Act>)
    ensures HeadStays(h, PerformAll(h, acts))
    decreases |acts|
  {
    if acts != [] {
      PerformAllKeepsHead(Perform(h, acts[0]), acts[1..]);
    }
  }

  lemma {:induction false} DispatchKeepsHead(h: Host, subs: seq<Subscription>, p: Packet, reactions: seq<seq<Act>>)
    ensures HeadStays(h, Dispatch(h, subs, p, reactions))
    decreases |subs| + |AllListened(reactions)|
  {
    if subs != [] {
      if Wants(subs[0], p) {
        var acts := FirstReaction(reactions);
        PerformAllKeepsHead(h.(notices := h.notices + [Notice(subs[0].userData, p)]), acts);
        DispatchKeepsHead(Notify(h, subs[0], p, acts), subs[1..] + Listened(acts), p, LaterReactions(reactions));
      } else {
        DispatchKeepsHead(h, subs[1..], p, reactions);
      }
    }
  }

  lemma CompleteEndsHead(h: Host, packet: Option<Packet>, reaction: seq<Act>)
    requires Inv(h) && h.queue != []
    ensures HeadDone(h, Complete(h, packet, reaction), Replied(packet))
  {
    var next := Advance(Log(h, Replied(packet)));
    assert |h.queue| > 1 ==> Unsent(h.queue[1]);
    PerformAllKeepsHead(next, reaction);
  }

  function ExpiryOutcome(r: Request): Outcome {
    Ended(if r.acked then E_NO_REPLY else E_NO_ACK)
  }

  lemma ExpireEndsHead(h: Host, reaction: seq<Act>)
    requires Inv(h) && h.queue != []
    ensures HeadDone(h, Expire(h, reaction), ExpiryOutcome(h.queue[0]))
  {
    var r := h.queue[0];
    var flipped := h.(nextId := if r.acked then h.nextId else Not(h.nextId));
    var logged := Log(flipped, ExpiryOutcome(r));
    NextAfterIsABit(h.log);
    LogLeaves(flipped, ExpiryOutcome(r));
    PerformAllLeaves(logged, reaction);
    PerformAllGrows(logged, reaction);
    var behind := if r.hasError then PerformAll(logged, reaction) else logged;
    assert Expire(h, reaction) == Advance(behind);
    assert |behind.queue| > 1 ==> Unsent(behind.queue[1]);
  }

  predicate GivesUp(h: Host, now: Clock) {
    && h.queue != [] && h.queue[0].attempts != 0 && Overdue(h.queue[0], now)
    && (h.queue[0].acked || h.queue[0].attempts >= MAX_TRIES)
  }

  /** The head step hands over a copy of the head. */
  predicate Transmits(h: Host, now: Clock, writable: bool) {
    h.queue != [] && !GivesUp(h, now) && if h.queue[0].attempts == 0 then writable else Overdue(h.queue[0], now)
  }

  /** What it sends, and whether it fails, is decided by that and by how the write ends. */
  lemma TransmitsIff(h: Host, now: Clock, writable: bool, end: WriteEnd, reaction: seq<Act>)
    ensures var st := HeadStep(h, now, writable, end, reaction);
            && (st.sent != [] <==> Transmits(h, now, writable) && end in {Sent, Buffered})
            && (st.failed <==> Transmits(h, now, writable) && end == Broken)
  {
  }

  /** The head step ends the head, or counts a send of it, or leaves it alone. */
  lemma HeadStepCases(h: Host, now: Clock, writable: bool, end: WriteEnd, reaction: seq<Act>)
    requires Inv(h)
    ensures var st := HeadStep(h, now, writable, end, reaction);
            if GivesUp(h, now) then st.sent == [] && HeadDone(h, st.host, ExpiryOutcome(h.queue[0]))
            else if st.sent == [] then st.host == h
            else
              && h.queue != [] && st.sent == [h.queue[0].frame] && end in {Sent, Buffered}
              && st.host == (if end == Sent then h.(queue := h.queue[0 := Resent(h.queue[0], now)]) else h)
  {
    if GivesUp(h, now) {
      ExpireEndsHead(h, reaction);
    }
  }

  function Resent(r: Request, now: Clock): Request {
    r.(attempts := r.attempts + 1, timeout := Some(Add(now, ACK_TIMEOUT)))
  }

  function Acked(r: Request, now: Clock): Request {
    r.(acked := true, timeout := Some(Add(now, REPLY_TIMEOUT)))
  }

  /** The message completes the head. */
  predicate Completes(h: Host, m: Message) {
    || (m.AckMessage? && AcceptsAck(h, m.id) && h.queue[0].expected.onlyAck)
    || (m.DataMessage? && m.packet.Some? && Answers(h, m.packet.value))
  }

  /** A message ends the head with a reply, or marks it as acked, or leaves it alone. */
  lemma ReceiveCases(h: Host, now: Clock, m: Message, reactions: seq<seq<Act>>)
    requires Inv(h)
    ensures var t := Receive(h, now, m, reactions);
            if Completes(h, m) then HeadDone(h, t, Replied(if m.AckMessage? then None else m.packet))
            else if m.AckMessage? && AcceptsAck(h, m.id) then t == h.(queue := h.queue[0 := Acked(h.queue[0], now)])
            else HeadStays(h, t)
  {
    if Completes(h, m) {
      CompleteEndsHead(h, if m.AckMessage? then None else m.packet, FirstReaction(reactions));
    } else if m.DataMessage? && m.packet.Some? {
      DispatchKeepsHead(h, h.subs, m.packet.value, reactions);
    }
  }

  // ----- exactly once, in order -------------------------------------------------------

  lemma PerformGrows(h: Host, a: Act)
    ensures var t := Perform(h, a);
            && t.log == h.log && t.notices == h.notices
            && t.submitted == h.submitted + (if a.Ask? then [a.s] else [])
            && t.subs == h.subs + (if a.Listen? then [a.sub] else [])
  {
    assert h.submitted + [] == h.submitted && h.subs + [] == h.subs;
  }

  lemma {:induction false} PerformAllGrows(h: Host, acts: seq<Act>)
    ensures var t := PerformAll(h, acts);
            && t.log == h.log && t.notices == h.notices
            && t.submitted == h.submitted + Asked(acts) && t.subs == h.subs + Listened(acts)
    decreases |acts|
  {
    if acts == [] {
      assert h.submitted + [] == h.submitted && h.subs + [] == h.subs;
    } else {
      var a := acts[0];
      PerformGrows(h, a);
      PerformAllGrows(Perform(h, a), acts[1..]);
      ConcatAssociates(h.submitted, if a.Ask? then [a.s] else [], Asked(acts[1..]));
      ConcatAssociates(h.subs, if a.Listen? then [a.sub] else [], Listened(acts[1..]));
    }
  }

  lemma {:induction false} DispatchGrows(h: Host, subs: seq<Subscription>, p: Packet, reactions: seq<seq<Act>>)
    ensures Dispatch(h, subs, p, reactions).log == h.log
    ensures h.submitted <= Dispatch(h, subs, p, reactions).submitted
    decreases |subs| + |AllListened(reactions)|
  {
    if subs != [] {
      if Wants(subs[0], p) {
        var noted := h.(notices := h.notices + [Notice(subs[0].userData, p)]);
        PerformAllGrows(noted, FirstReaction(reactions));
        DispatchGrows(Notify(h, subs[0], p, FirstReaction(reactions)),
                      subs[1..] + Listened(FirstReaction(reactions)), p, LaterReactions(reactions));
      } else {
        DispatchGrows(h, subs[1..], p, reactions);
      }
    }
  }

  lemma HeadStepGrows(h: Host, now: Clock, writable: bool, end: WriteEnd, reaction: seq<Act>)
    ensures var t := HeadStep(h, now, writable, end, reaction).host;
            h.log <= t.log && h.submitted <= t.submitted
  {
    if h.queue != [] {
      var r := h.queue[0];
      var flipped := h.(nextId := if r.acked then h.nextId else Not(h.nextId));
      PerformAllGrows(Log(flipped, Ended(if r.acked then E_NO_REPLY else E_NO_ACK)), reaction);
    }
  }

  lemma ReceiveGrows(h: Host, now: Clock, m: Message, reactions: seq<seq<Act>>)
    ensures var t := Receive(h, now, m, reactions);
            h.log <= t.log && h.submitted <= t.submitted
  {
    if h.queue != [] {
      PerformAllGrows(Advance(Log(h, Replied(None))), FirstReaction(reactions));
      if m.DataMessage? && m.packet.Some? {
        PerformAllGrows(Advance(Log(h, Replied(m.packet))), FirstReaction(reactions));
      }
    }
    if m.DataMessage? && m.packet.Some? {
      DispatchGrows(h, h.subs, m.packet.value, reactions);
    }
  }

  /** No completion is ever taken back, changed or reordered. */
  lemma {:induction false} HistoryOnlyGrows(h: Host, events: seq<Event>)
    ensures h.log <= Run(h, events).log && h.submitted <= Run(h, events).submitted
    decreases |events|
  {
    if events != [] {
      if events[0].Processing? {
        var inp := events[0].inp;
        HeadStepGrows(h, inp.now, inp.writable, inp.headWrite, inp.onExpire);
        ReceiveGrows(HeadStep(h, inp.now, inp.writable, inp.headWrite, inp.onExpire).host,
                     inp.now, inp.message, inp.reactions);
      }
      HistoryOnlyGrows(Step(h, events[0]), events[1..]);
    }
  }

  lemma {:induction false} CloseFinishesAll(h: Host)
    requires InOrder(h)
    ensures var t := Close(h);
            && t.queue == [] && t.submitted == h.submitted && InOrder(t) && h.log <= t.log
            && forall i :: |h.log| <= i < |t.log| ==> t.log[i].outcome == Ended(E_CLOSED)
    decreases |h.queue|
  {
    if h.queue != [] {
      var logged := Log(h, Ended(E_CLOSED));
      var t := logged.(queue := h.queue[1..]);
      assert InOrder(t);
      CloseFinishesAll(t);
    }
  }

  /**
   * In every run, completions followed by pending requests are the submissions in order, and
   * tearing down finishes each of the rest once, with MDR_E_CLOSED.
   */
  lemma EachRequestCompletesOnce(events: seq<Event>)
    ensures var h := Run(FRESH, events);
            var t := Close(h);
            && InOrder(h)
            && |t.log| == |h.submitted|
            && (forall i :: 0 <= i < |t.log| ==> Finishes(t.log[i], h.submitted[i]))
            && t.log[..|h.log|] == h.log
            && (forall i :: |h.log| <= i < |t.log| ==> t.log[i].outcome == Ended(E_CLOSED))
  {
    RunKeeps(FRESH, events);
    CloseFinishesAll(Run(FRESH, events));
  }

  // ----- the sequence bit ----------------------------------------------------------------

  function Acknowledged(log: seq<Completion>): nat {
    if log == [] then 0
    else
      var last := log[|log| - 1];
      Acknowledged(log[..|log| - 1]) + if last.outcome == Ended(E_NO_ACK) then 0 else 1
  }

  lemma {:induction false} NextAfterCounts(log: seq<Completion>)
    requires Follows(log)
    ensures NextAfter(log) == Acknowledged(log) % 2
  {
    if log != [] {
      NextAfterCounts(log[..|log| - 1]);
    }
  }

  /**
   * In every run the pending head has the parity of the number of requests finished in any
   * way but MDR_E_NO_ACK, and nextId is the opposite; idle, nextId has that parity.
   */
  lemma SequenceBit(events: seq<Event>)
    ensures var h := Run(FRESH, events);
            var bit := Acknowledged(h.log) % 2;
            if h.queue == [] then h.nextId == bit
            else h.queue[0].frame.sequenceId == bit && h.nextId == 1 - bit
  {
    RunKeeps(FRESH, events);
    NextAfterCounts(Run(FRESH, events).log);
  }

  lemma {:induction false} FollowsAt(log: seq<Completion>, i: nat)
    requires Follows(log) && i < |log|
    ensures Follows(log[..i]) && log[i].id == NextAfter(log[..i])
    decreases |log|
  {
    var init := log[..|log| - 1];
    if i < |init| {
      FollowsAt(init, i);
      assert init[..i] == log[..i];
    }
  }

  /** Successive requests differ in id, except behind one that got no ACK. */
  lemma SuccessiveIds(events: seq<Event>, i: nat)
    requires i + 1 < |Run(FRESH, events).log|
    ensures var log := Run(FRESH, events).log;
            log[i + 1].id == log[i].id <==> log[i].outcome == Ended(E_NO_ACK)
  {
    RunKeeps(FRESH, events);
    var log := Run(FRESH, events).log;
    FollowsAt(log, i);
    FollowsAt(log, i + 1);
    NextAfterIsABit(log[..i]);
    assert log[..i + 1][i] == log[i];
  }

  // ----- documentation and code --------------------------------------------------------------

  /**
   * The header promises that an onlyAck request ignores its other fields.  It does exactly
   * when the packet is of another type or key: a matching one completes the request, with a
   * packet, sent or not.
   */
  lemma OnlyAckIgnoresReplyIff(h: Host, p: Packet)
    requires Inv(h) && h.queue != [] && h.queue[0].expected.onlyAck
    ensures ReceiveData(h, p, []).log == h.log <==> !Matches(h.queue[0].expected, p)
  {
    DispatchGrows(h, h.subs, p, []);
  }

  // ----- who is told of a packet -----------------------------------------------------------

  /** One call for each subscription that wants the packet, in order. */
  function NoticesFor(subs: seq<Subscription>, p: Packet): seq<Notice> {
    if subs == [] then []
    else (if Wants(subs[0], p) then [Notice(subs[0].userData, p)] else []) + NoticesFor(subs[1..], p)
  }

  lemma NoticesOfFirst(subs: seq<Subscription>, sub: Subscription, passed: nat, before: seq<Notice>, p: Packet)
    requires passed < |subs| && subs[passed] == sub
    ensures before + NoticesFor(subs[passed..], p) ==
            (before + if Wants(sub, p) then [Notice(sub.userData, p)] else []) + NoticesFor(subs[passed + 1..], p)
  {
    assert subs[passed..][0] == sub && subs[passed..][1..] == subs[passed + 1..];
    var first := if Wants(sub, p) then [Notice(sub.userData, p)] else [];
    ConcatAssociates(before, first, NoticesFor(subs[passed + 1..], p));
  }

  lemma {:induction false} DispatchVisits(h: Host, passed: seq<Subscription>, subs: seq<Subscription>, p: Packet,
                                          reactions: seq<seq<Act>>)
    requires h.subs == passed + subs
    ensures var t := Dispatch(h, subs, p, reactions);
            h.subs <= t.subs && t.notices == h.notices + NoticesFor(t.subs[|passed|..], p)
    decreases |subs| + |AllListened(reactions)|
  {
    var t := Dispatch(h, subs, p, reactions);
    if subs == [] {
      assert t.subs[|passed|..] == [] && h.notices + [] == h.notices;
    } else if Wants(subs[0], p) {
      var acts := FirstReaction(reactions);
      PerformAllGrows(h.(notices := h.notices + [Notice(subs[0].userData, p)]), acts);
      var next := Notify(h, subs[0], p, acts);
      assert next.subs == (passed + [subs[0]]) + (subs[1..] + Listened(acts));
      DispatchVisits(next, passed + [subs[0]], subs[1..] + Listened(acts), p, LaterReactions(reactions));
      NoticesOfFirst(t.subs, subs[0], |passed|, h.notices, p);
    } else {
      assert h.subs == (passed + [subs[0]]) + subs[1..];
      DispatchVisits(h, passed + [subs[0]], subs[1..], p, reactions);
      NoticesOfFirst(t.subs, subs[0], |passed|, h.notices, p);
      assert h.notices + [] == h.notices;
    }
  }

  /**
   * A packet that answers no request is told, once each and in list order, to all subscriptions
   * that want it, those made by the callbacks of the same round included.
   */
  lemma EachSubscriberIsToldOnce(h: Host, p: Packet, reactions: seq<seq<Act>>)
    requires !Answers(h, p)
    ensures var t := ReceiveData(h, p, reactions);
            h.subs <= t.subs && t.notices == h.notices + NoticesFor(t.subs, p)
  {
    DispatchVisits(h, [], h.subs, p, reactions);
    var t := ReceiveData(h, p, reactions);
    assert t.subs[0..] == t.subs;
  }
}
