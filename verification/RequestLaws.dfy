/** What single decisions of the request engine come to, and what they come to over runs. */
module RequestLaws {
  import opened Bytes
  import opened Frames
  import opened Deadlines
  import opened Requests
  import opened RequestSafety

  // ----- who is answered ---------------------------------------------------------------

  /** The requests of each family: what they ask for is answered by another type. */
  const GETS: set<byte> := {0x00, 0x04, 0x06, 0x10, 0x24, 0x50, 0x56, 0x66, 0xa6, 0xf0, 0xf6}

  /** RET, SET and NTFY packets that say which of several things they are about. */
  const ABOUT_ONE_THING: set<byte> :=
    {0x05} + {0x11, 0x13, 0x25, 0x27} + {0x51, 0x57, 0x58, 0x59} + {0x67, 0x68, 0x69}
    + {0xa7, 0xa8, 0xa9} + {0xf1, 0xf7, 0xf8, 0xf9}

  /** Protocol info, the list of functions and powering off come in one kind only. */
  const OF_ONE_KIND: set<byte> := {0x01, 0x07, 0x22}

  /** A packet about another thing is no answer, one of another type neither, and no other types are known. */
  lemma MatchesIff(spec: ReplySpec, p: Packet)
    ensures Matches(spec, p) <==>
            && p.packetType == spec.packetType
            && if spec.packetType in ABOUT_ONE_THING then p.key == spec.extra
               else spec.packetType in GETS + OF_ONE_KIND
  {
  }

  /** A packet of the expected type about another thing never completes a request. */
  lemma OtherKeyCompletesNothing(h: Host, p: Packet, reactions: seq<seq<Act>>)
    requires Inv(h) && h.queue != []
    requires h.queue[0].expected.packetType in ABOUT_ONE_THING && p.key != h.queue[0].expected.extra
    ensures HeadStays(h, ReceiveData(h, p, reactions))
  {
    MatchesIff(h.queue[0].expected, p);
    DispatchKeepsHead(h, h.subs, p, reactions);
  }

  // ----- acknowledgements ---------------------------------------------------------------

  /** An ACK changes anything if and only if it has the opposite bit and the head has none yet. */
  lemma AckCountsIff(h: Host, now: Clock, id: byte, reactions: seq<seq<Act>>)
    requires Inv(h)
    ensures Receive(h, now, AckMessage(id), reactions) != h <==>
            h.queue != [] && !h.queue[0].acked && id == Not(h.queue[0].frame.sequenceId)
  {
    NextAfterIsABit(h.log);
    ReceiveCases(h, now, AckMessage(id), reactions);
  }

  /** A duplicate ACK leaves everything as it was, the deadline too. */
  lemma AckedHeadIgnoresAcks(h: Host, now: Clock, id: byte, reactions: seq<seq<Act>>)
    requires Inv(h) && h.queue != [] && h.queue[0].acked
    ensures Receive(h, now, AckMessage(id), reactions) == h
  {
    AckCountsIff(h, now, id, reactions);
  }

  /** The ACK for a data frame is an empty frame of that type, and a peer waiting on that frame takes it. */
  lemma AckForIsTaken(id: byte, peer: Host)
    ensures var ack := AckFor(id);
            && ack.dataType == 0x01 && ack.payload == [] && ChecksumOk(ack)
            && (Inv(peer) && peer.queue != [] && !peer.queue[0].acked && peer.queue[0].frame.sequenceId == id
                ==> AcceptsAck(peer, ack.sequenceId))
  {
    WithChecksumOk(Frame(DATA_TYPE_ACK, Not(id), [], 0));
    if Inv(peer) {
      NextAfterIsABit(peer.log);
    }
  }

  /** Every data frame that is read is acknowledged last, whatever else comes of it, unless the write fails. */
  lemma EveryDataFrameIsAcked(h: Host, inp: Input)
    requires inp.readable && !SendPart(h, inp).failed && inp.message.DataMessage?
    ensures var sent := Process(h, inp).sent;
            inp.ackWrite in {Sent, Buffered} <==> |sent| > |SendPart(h, inp).sent|
    ensures var sent := Process(h, inp).sent;
            inp.ackWrite in {Sent, Buffered} ==> sent[|sent| - 1] == AckFor(inp.message.id)
  {
  }

  // ----- how a request ends ------------------------------------------------------------------

  /** A message ends the head, and then with this outcome, if and only if it is the ACK or the packet asked for. */
  lemma MessageEndsIff(h: Host, now: Clock, m: Message, reactions: seq<seq<Act>>)
    requires Inv(h)
    ensures var acks := && m.AckMessage? && h.queue != [] && !h.queue[0].acked && h.queue[0].expected.onlyAck
                        && m.id == Not(h.queue[0].frame.sequenceId);
            var answers := && m.DataMessage? && m.packet.Some? && h.queue != []
                           && Matches(h.queue[0].expected, m.packet.value);
            Receive(h, now, m, reactions).log ==
            if !acks && !answers then h.log
            else
              var r := h.queue[0];
              h.log + [Completion(r.owner, r.frame.sequenceId, Replied(if acks then None else m.packet), r.hasResult)]
  {
    NextAfterIsABit(h.log);
    ReceiveCases(h, now, m, reactions);
  }

  /** A head step ends the head if and only if its deadline has passed and it was acked or sent three times. */
  lemma DeadlineEndsIff(h: Host, now: Clock, writable: bool, end: WriteEnd, reaction: seq<Act>)
    requires Inv(h)
    ensures var ends := && h.queue != [] && h.queue[0].attempts > 0
                        && Instant(now) > Instant(h.queue[0].timeout.value)
                        && (h.queue[0].acked || h.queue[0].attempts == 3);
            HeadStep(h, now, writable, end, reaction).host.log ==
            if !ends then h.log
            else
              var r := h.queue[0];
              h.log + [Completion(r.owner, r.frame.sequenceId, Ended(if r.acked then -5 else -4), r.hasError)]
  {
    HeadStepCases(h, now, writable, end, reaction);
    if h.queue != [] && h.queue[0].attempts > 0 {
      CompareIsExact(now, h.queue[0].timeout.value);
    }
  }

  // ----- deadlines ------------------------------------------------------------------------

  /** The head is the same, has got no further or further, and its deadline is as old as its last progress. */
  predicate HeadMoves(h: Host, t: Host)
    requires h.queue != []
  {
    && t.queue != []
    && t.queue[0].attempts >= h.queue[0].attempts && (h.queue[0].acked ==> t.queue[0].acked)
    && (SameProgress(h, t) ==> t.queue[0].timeout == h.queue[0].timeout)
  }

  predicate SameProgress(h: Host, t: Host)
    requires h.queue != [] && t.queue != []
  {
    t.queue[0].attempts == h.queue[0].attempts && t.queue[0].acked == h.queue[0].acked
  }

  lemma SendingMovesHead(h: Host, inp: Input)
    requires Inv(h) && h.queue != []
    ensures var t := SendPart(h, inp).host;
            Inv(t) && h.log <= t.log && (t.log == h.log ==> HeadMoves(h, t))
  {
    HeadStepKeeps(h, inp.now, inp.writable, inp.headWrite, inp.onExpire);
    HeadStepCases(h, inp.now, inp.writable, inp.headWrite, inp.onExpire);
  }

  lemma ReadingMovesHead(h: Host, now: Clock, m: Message, reactions: seq<seq<Act>>)
    requires Inv(h) && h.queue != []
    ensures var t := Receive(h, now, m, reactions);
            h.log <= t.log && (t.log == h.log ==> HeadMoves(h, t))
  {
    ReceiveCases(h, now, m, reactions);
  }

  lemma StepMovesHead(h: Host, e: Event)
    requires Inv(h) && h.queue != [] && Step(h, e).log == h.log
    ensures HeadMoves(h, Step(h, e))
  {
    if e.Processing? {
      var inp, part := e.inp, SendPart(h, e.inp);
      SendingMovesHead(h, inp);
      if !part.failed && inp.readable {
        ReceiveGrows(part.host, inp.now, inp.message, inp.reactions);
        ReadingMovesHead(part.host, inp.now, inp.message, inp.reactions);
      }
    }
  }

  /** While a head makes no progress its deadline stands, whatever arrives and however often. */
  lemma {:induction false} DeadlineStands(h: Host, events: seq<Event>)
    requires Inv(h) && h.queue != [] && Run(h, events).log == h.log
    ensures HeadMoves(h, Run(h, events))
    decreases |events|
  {
    if events != [] {
      var next := Step(h, events[0]);
      HistoryOnlyGrows(h, events[..1]);
      assert Run(h, events[..1]) == next;
      HistoryOnlyGrows(next, events[1..]);
      assert next.log == h.log;
      StepKeeps(h, events[0]);
      StepMovesHead(h, events[0]);
      DeadlineStands(next, events[1..]);
    }
  }

  /**
   * A head that was sent at some instant is sent again or given up, with no progress in between,
   * exactly when more than a second has passed.
   */
  lemma RetriesAfterASecond(h: Host, at: Clock, writable: bool, reaction: seq<Act>, events: seq<Event>, now: Clock)
    requires Inv(h) && Transmits(h, at, writable)
    requires var sent := HeadStep(h, at, writable, Sent, reaction).host;
             var t := Run(sent, events);
             t.log == sent.log && t.queue != [] && SameProgress(sent, t)
    ensures var t := Run(HeadStep(h, at, writable, Sent, reaction).host, events);
            Transmits(t, now, true) || GivesUp(t, now) <==> Instant(now) > Instant(at) + 1_000_000_000
  {
    var sent := HeadStep(h, at, writable, Sent, reaction).host;
    HeadStepKeeps(h, at, writable, Sent, reaction);
    HeadStepCases(h, at, writable, Sent, reaction);
    DeadlineStands(sent, events);
    AddIsExact(at, ACK_TIMEOUT);
    CompareIsExact(now, sent.queue[0].timeout.value);
  }

  /**
   * A head that was acked at some instant, and had been sent, is given up for want of a reply
   * exactly when more than a second has passed since then; no further ACK puts that off.
   */
  lemma AckedHeadWaitsASecond(h: Host, at: Clock, id: byte, reactions: seq<seq<Act>>, events: seq<Event>, now: Clock)
    requires Inv(h) && AcceptsAck(h, id) && !h.queue[0].expected.onlyAck && h.queue[0].attempts > 0
    requires var acked := Receive(h, at, AckMessage(id), reactions);
             Run(acked, events).log == acked.log
    ensures var t := Run(Receive(h, at, AckMessage(id), reactions), events);
            && t.queue != [] && t.queue[0].acked
            && (GivesUp(t, now) <==> Instant(now) > Instant(at) + 1_000_000_000)
  {
    var acked := Receive(h, at, AckMessage(id), reactions);
    ReceiveKeeps(h, at, AckMessage(id), reactions);
    AckedHeadIsNotResent(acked, events);
    DeadlineStands(acked, events);
    AddIsExact(at, REPLY_TIMEOUT);
    CompareIsExact(now, acked.queue[0].timeout.value);
  }

  lemma {:induction false} AckedHeadIsNotResent(h: Host, events: seq<Event>)
    requires Inv(h) && h.queue != [] && h.queue[0].acked && h.queue[0].attempts > 0 && Run(h, events).log == h.log
    ensures var t := Run(h, events); t.queue != [] && SameProgress(h, t)
    decreases |events|
  {
    if events != [] {
      var next := Step(h, events[0]);
      HistoryOnlyGrows(h, events[..1]);
      assert Run(h, events[..1]) == next;
      HistoryOnlyGrows(next, events[1..]);
      assert next.log == h.log;
      StepKeeps(h, events[0]);
      StepMovesHead(h, events[0]);
      AckedStepDoesNotSend(h, events[0]);
      AckedHeadIsNotResent(next, events[1..]);
    }
  }

  lemma AckedStepDoesNotSend(h: Host, e: Event)
    requires Inv(h) && h.queue != [] && h.queue[0].acked && h.queue[0].attempts > 0 && Step(h, e).log == h.log
    ensures Step(h, e).queue != [] && SameProgress(h, Step(h, e))
  {
    if e.Processing? {
      var inp, part := e.inp, SendPart(h, e.inp);
      HeadStepKeeps(h, inp.now, inp.writable, inp.headWrite, inp.onExpire);
      HeadStepCases(h, inp.now, inp.writable, inp.headWrite, inp.onExpire);
      TransmitsIff(h, inp.now, inp.writable, inp.headWrite, inp.onExpire);
      if !part.failed && inp.readable {
        ReceiveCases(part.host, inp.now, inp.message, inp.reactions);
        ReceiveGrows(part.host, inp.now, inp.message, inp.reactions);
      }
    }
  }

  // ----- what callbacks ask for is done -------------------------------------------------------

  /** The first k reactions, one after the other. */
  function Performed(reactions: seq<seq<Act>>, k: nat): seq<Act> {
    if k == 0 || reactions == [] then [] else reactions[0] + Performed(reactions[1..], k - 1)
  }

  /** Nothing but these acts has happened to what is asked for and listened to. */
  predicate Enacts(h: Host, t: Host, acts: seq<Act>) {
    t.submitted == h.submitted + Asked(acts) && t.subs == h.subs + Listened(acts)
  }

  lemma {:induction false} ActsAppend(a: seq<Act>, b: seq<Act>)
    ensures Asked(a + b) == Asked(a) + Asked(b) && Listened(a + b) == Listened(a) + Listened(b)
  {
    if a == [] {
      assert a + b == b;
    } else {
      assert (a + b)[0] == a[0] && (a + b)[1..] == a[1..] + b;
      ActsAppend(a[1..], b);
      ConcatAssociates(if a[0].Ask? then [a[0].s] else [], Asked(a[1..]), Asked(b));
      ConcatAssociates(if a[0].Listen? then [a[0].sub] else [], Listened(a[1..]), Listened(b));
    }
  }

  lemma EnactsOn(h: Host, middle: Host, t: Host, a: seq<Act>, b: seq<Act>)
    requires Enacts(h, middle, a) && Enacts(middle, t, b)
    ensures Enacts(h, t, a + b)
  {
    ActsAppend(a, b);
    ConcatAssociates(h.submitted, Asked(a), Asked(b));
    ConcatAssociates(h.subs, Listened(a), Listened(b));
  }

  /** A finished request's callback, if there is one, does what it does, once; no subscriber is told. */
  lemma CompleteEnacts(h: Host, packet: Option<Packet>, reaction: seq<Act>)
    requires h.queue != []
    ensures var t := Complete(h, packet, reaction);
            Enacts(h, t, if h.queue[0].hasResult then reaction else []) && t.notices == h.notices
  {
    var next := Advance(Log(h, Replied(packet)));
    PerformAllGrows(next, reaction);
    PerformAllGrows(next, []);
  }

  lemma ExpireEnacts(h: Host, reaction: seq<Act>)
    requires h.queue != []
    ensures var t := Expire(h, reaction);
            Enacts(h, t, if h.queue[0].hasError then reaction else []) && t.notices == h.notices
  {
    PerformAllGrows(Failed(h), reaction);
    PerformAllGrows(Failed(h), []);
  }

  /** Each subscriber that is told takes the next reaction, and does it. */
  lemma {:induction false} DispatchEnacts(h: Host, subs: seq<Subscription>, p: Packet, reactions: seq<seq<Act>>)
    ensures var t := Dispatch(h, subs, p, reactions);
            |t.notices| >= |h.notices| && Enacts(h, t, Performed(reactions, |t.notices| - |h.notices|))
    decreases |subs| + |AllListened(reactions)|
  {
    PerformAllGrows(h, []);
    if subs != [] {
      if Wants(subs[0], p) {
        var acts, later := FirstReaction(reactions), LaterReactions(reactions);
        var next := Notify(h, subs[0], p, acts);
        PerformAllGrows(h.(notices := h.notices + [Notice(subs[0].userData, p)]), acts);
        DispatchEnacts(next, subs[1..] + Listened(acts), p, later);
        var t := Dispatch(next, subs[1..] + Listened(acts), p, later);
        EnactsOn(h, next, t, acts, Performed(later, |t.notices| - |next.notices|));
        assert reactions == [] ==> [] + Performed(later, |t.notices| - |next.notices|) == [];
      } else {
        DispatchEnacts(h, subs[1..], p, reactions);
      }
    }
  }

  /** A packet is for the head or for the subscribers, never for both. */
  lemma DataEnacts(h: Host, p: Packet, reactions: seq<seq<Act>>)
    ensures var t := ReceiveData(h, p, reactions);
            if Answers(h, p)
            then t.notices == h.notices && Enacts(h, t, if h.queue[0].hasResult then FirstReaction(reactions) else [])
            else t.log == h.log && |t.notices| >= |h.notices|
                 && Enacts(h, t, Performed(reactions, |t.notices| - |h.notices|))
  {
    if Answers(h, p) {
      CompleteEnacts(h, Some(p), FirstReaction(reactions));
    } else {
      DispatchEnacts(h, h.subs, p, reactions);
      DispatchGrows(h, h.subs, p, reactions);
    }
  }

  // ----- how a call ends -------------------------------------------------------------------------

  /**
   * A call fails if and only if the flush or the head's write does, or a frame it reads does not
   * parse; after a failing write it does not read.
   */
  lemma ProcessFailsIff(h: Host, inp: Input)
    ensures var hands := Transmits(h, inp.now, inp.writable);
            var writeFails := if inp.writable && inp.flushFails then true else hands && inp.headWrite == Broken;
            && (Process(h, inp).failed <==>
                  writeFails || (inp.readable && inp.message.DataMessage? && inp.message.packet == None))
            && (writeFails || !inp.readable ==> Process(h, inp) == SendPart(h, inp))
            && (inp.writable && inp.flushFails ==> Process(h, inp).host == h && Process(h, inp).sent == [])
  {
    TransmitsIff(h, inp.now, inp.writable, inp.headWrite, inp.onExpire);
  }

  /** Poll has no timeout to offer if and only if no head with a counted send is pending. */
  lemma NoTimeoutIff(h: Host, buffered: bool, now: Clock)
    requires Inv(h)
    ensures Poll(h, buffered, now).timeout == -1 <==> h.queue == [] || h.queue[0].attempts == 0
  {
  }
}
