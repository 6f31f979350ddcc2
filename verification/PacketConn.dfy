/**
 * The packet connection itself (src/packetconn.c): linked nodes updated in place, over the
 * frame connection.  Every method does to the nodes what Requests says of the state.
 */
module PacketConns {
  import opened Bytes
  import opened Frames
  import opened Escaping
  import opened Decoding
  import opened Writing
  import opened FrameConns
  import opened Deadlines
  import opened Requests
  import opened RequestSafety
  import opened RequestLaws
  import opened Lists

  /** struct request. */
  class RequestNode {
    var frame: SizedFrame
    var timeout: Option<Timespec>
    var attempts: nat
    var acked: bool
    const expected: ReplySpec
    const hasResult: bool
    const hasError: bool
    const owner: Owner
    var next: RequestNode?

    ghost function Value(): Request
      reads this
    {
      Request(frame, timeout, attempts, acked, expected, hasResult, hasError, owner)
    }

    constructor (s: Submission)
      ensures Value() == NewRequest(s) && next == null
    {
      frame, timeout, attempts, acked := s.frame, None, 0, false;
      expected, hasResult, hasError, owner := s.expected, s.hasResult, s.hasError, s.owner;
      next := null;
    }
  }

  ghost predicate LinkedRequests(first: RequestNode?, last: RequestNode?, nodes: seq<RequestNode>)
    reads nodes
  {
    && (forall i, j :: 0 <= i < j < |nodes| ==> nodes[i] != nodes[j])
    && (forall i :: 0 <= i < |nodes| - 1 ==> nodes[i].next == nodes[i + 1])
    && if nodes == [] then first == null && last == null
       else first == nodes[0] && last == nodes[|nodes| - 1] && last.next == null
  }

  lemma DispatchNext(h: Host, k: nat, p: Packet, left: seq<seq<Act>>)
    requires k < |h.subs|
    ensures Notify(h, h.subs[k], p, FirstReaction(left)).subs == h.subs + Listened(FirstReaction(left))
    ensures var sub, acts := h.subs[k], FirstReaction(left);
            Dispatch(h, h.subs[k..], p, left) ==
            if Wants(sub, p)
            then Dispatch(Notify(h, sub, p, acts), Notify(h, sub, p, acts).subs[k + 1..], p, LaterReactions(left))
            else Dispatch(h, h.subs[k + 1..], p, left)
  {
    var sub, acts := h.subs[k], FirstReaction(left);
    assert h.subs[k..][0] == sub && h.subs[k..][1..] == h.subs[k + 1..];
    PerformAllGrows(h.(notices := h.notices + [Notice(sub.userData, p)]), acts);
    assert (h.subs + Listened(acts))[k + 1..] == h.subs[k + 1..] + Listened(acts);
  }

  /** What the callback at k subscribes comes out of what callbacks still have in them. */
  lemma ListenedGrows(h: Host, k: nat, p: Packet, left: seq<seq<Act>>)
    requires k < |h.subs|
    ensures |Notify(h, h.subs[k], p, FirstReaction(left)).subs| + |AllListened(LaterReactions(left))| ==
            |h.subs| + |AllListened(left)|
  {
    PerformAllGrows(h.(notices := h.notices + [Notice(h.subs[k].userData, p)]), FirstReaction(left));
  }

  /** How one call of process is put together from its two parts. */
  lemma ProcessFromParts(h: Host, inp: Input)
    requires Inv(h)
    requires SendPart(h, inp).failed || !inp.readable ==> inp.message == Nothing
    ensures var head := SendPart(h, inp);
            && Inv(Process(h, inp).host)
            && Process(h, inp) ==
               Stepped(Receive(head.host, inp.now, inp.message, inp.reactions),
                       head.sent + TakenAck(inp.message, inp.ackWrite),
                       head.failed || (inp.message.DataMessage? && inp.message.packet == None))
  {
    StepKeeps(h, Processing(inp));
    var head := SendPart(h, inp);
    assert head.sent + [] == head.sent;
  }

  lemma SendPartIs(h: Host, inp: Input, flushFails: bool, end: WriteEnd)
    requires flushFails ==> inp.writable
    ensures SendPart(h, inp.(flushFails := flushFails, headWrite := end)) ==
            if flushFails then Stepped(h, [], true) else HeadStep(h, inp.now, inp.writable, end, inp.onExpire)
  {
  }

  /** The writing part does not look at what is read. */
  lemma SendPartAlone(h: Host, inp: Input, m: Message, ackWrite: WriteEnd)
    ensures SendPart(h, inp.(message := m, ackWrite := ackWrite)) == SendPart(h, inp)
  {
  }

  /** One more of the requests from k on is told that the connection closed. */
  lemma CloseOne(h: Host, log: seq<Completion>, k: nat)
    requires k < |h.queue|
    ensures var r := h.queue[k];
            Close(h.(queue := h.queue[k..], log := log)) ==
            Close(h.(queue := h.queue[k + 1..],
                     log := log + [Completion(r.owner, r.frame.sequenceId, Ended(E_CLOSED), r.hasError)]))
  {
    assert h.queue[k..][0] == h.queue[k] && h.queue[k..][1..] == h.queue[k + 1..];
  }

  // ----- what a call does at the socket -----------------------------------------------

  /** The length of the head's frame on the wire. */
  function HeadLength(h: Host): nat
    requires h.queue != []
  {
    |EscapeFrame(h.queue[0].frame)|
  }

  /** Only a data frame is acknowledged. */
  predicate AckTraffic(before: Traffic, m: Message, ackWrite: WriteEnd, after: Traffic) {
    if m.DataMessage? then HandedOver(before, ackWrite, |EscapeFrame(AckFor(m.id))|, after) else after == before
  }

  /** The flush fails if and only if one of its writes does. */
  predicate FlushTraffic(before: Traffic, writable: bool, fails: bool, after: Traffic) {
    if writable then
      && after.errors == before.errors + (if fails then 1 else 0)
      && after.blocks >= before.blocks && Emptied(before, after)
    else !fails && after == before
  }

  /** The writing part hands the head over if it is due, unless the flush has failed. */
  predicate Hands(h: Host, inp: Input) {
    !(inp.writable && inp.flushFails) && Transmits(h, inp.now, inp.writable)
  }

  /** Hard errors are reported, one for one; nothing else than a blocked write keeps bytes back. */
  predicate SendTraffic(h: Host, inp: Input, before: Traffic, after: Traffic) {
    && (inp.flushFails ==> inp.writable)
    && after.errors - before.errors ==
       (if inp.flushFails then 1 else 0) + (if Hands(h, inp) && inp.headWrite == Broken then 1 else 0)
    && after.blocks >= before.blocks
    && (if Hands(h, inp) then HeadExplained(h, inp.headWrite, before, after) else inp.headWrite == Refused)
    && (if inp.writable || Hands(h, inp) then Emptied(before, after) else after == before)
  }

  predicate HeadExplained(h: Host, end: WriteEnd, before: Traffic, after: Traffic)
    requires h.queue != []
  {
    && (end == Buffered ==> after.blocks > before.blocks)
    && (end == Refused ==> after.blocks > before.blocks || HeadLength(h) > FRAME_BUF_SIZE)
  }

  /** Nothing went wrong before the read. */
  predicate Reads(h: Host, inp: Input) {
    inp.readable && !(inp.writable && inp.flushFails) && !(Hands(h, inp) && inp.headWrite == Broken)
  }

  /** The same for the whole call, with the ACK of what was read. */
  predicate ProcessTraffic(h: Host, inp: Input, before: Traffic, after: Traffic) {
    && (inp.flushFails ==> inp.writable)
    && after.errors - before.errors ==
       (if inp.flushFails then 1 else 0) + (if Hands(h, inp) && inp.headWrite == Broken then 1 else 0)
       + (if inp.message.DataMessage? && inp.ackWrite == Broken then 1 else 0)
    && after.blocks >= before.blocks
    && (if Hands(h, inp) then HeadExplained(h, inp.headWrite, before, after) else inp.headWrite == Refused)
    && (inp.message.DataMessage? && inp.ackWrite in {Buffered, Refused} ==> after.blocks > before.blocks)
    && (if inp.writable || Hands(h, inp) || inp.message.DataMessage? then Emptied(before, after) else after == before)
  }

  lemma TrafficAddsUp(h: Host, inp: Input, before: Traffic, flushed: Traffic, end: WriteEnd, after: Traffic)
    requires FlushTraffic(before, inp.writable, inp.flushFails, flushed)
    requires if inp.flushFails then end == Refused && after == flushed
             else if Transmits(h, inp.now, inp.writable) then HandedOver(flushed, end, HeadLength(h), after)
             else end == Refused && after == flushed
    ensures SendTraffic(h, inp.(headWrite := end), before, after)
  {
  }

  /** An ACK always fits the buffer. */
  lemma AckFits(id: byte)
    ensures |EscapeFrame(AckFor(id))| <= FRAME_BUF_SIZE
  {
    FrameRoundTrip(AckFor(id));
  }

  /** The input of a call, with how its parts have gone. */
  function Done(inp: Input, flushFails: bool, end: WriteEnd, m: Message, ackWrite: WriteEnd): Input {
    inp.(flushFails := flushFails, headWrite := end, message := m, ackWrite := ackWrite)
  }

  lemma TrafficWithAck(h: Host, inp: Input, m: Message, ackWrite: WriteEnd, before: Traffic, middle: Traffic,
                       after: Traffic)
    requires SendTraffic(h, inp, before, middle) && AckTraffic(middle, m, ackWrite, after)
    ensures ProcessTraffic(h, inp.(message := m, ackWrite := ackWrite), before, after)
  {
    if m.DataMessage? {
      AckFits(m.id);
    }
  }

  class PacketConn {
    const fconn: FrameConn
    var nextSequenceId: byte
    var request: RequestNode?
    var requestQueueTail: RequestNode?
    var subscription: Node?<Subscription>
    var subscriptionListTail: Node?<Subscription>

    /** What callbacks have been told, in order. */
    var log: seq<Completion>
    var notices: seq<Notice>

    /** The nodes behind the pointers, in order, and the state they stand for. */
    ghost var requests: seq<RequestNode>
    ghost var subscriptions: seq<Node<Subscription>>
    ghost var state: Host

    ghost predicate RequestShape()
      reads this`request, this`requestQueueTail, this`nextSequenceId, this`log, this`notices
      reads this`requests, this`state, requests
    {
      && LinkedRequests(request, requestQueueTail, requests)
      && |requests| == |state.queue|
      && (forall i :: 0 <= i < |requests| ==> requests[i].Value() == state.queue[i])
      && nextSequenceId == state.nextId && log == state.log && notices == state.notices
    }

    ghost predicate SubscriptionShape()
      reads this`subscription, this`subscriptionListTail, this`subscriptions, this`state, subscriptions
    {
      && Linked(subscription, subscriptionListTail, subscriptions)
      && |subscriptions| == |state.subs|
      && forall i :: 0 <= i < |subscriptions| ==> subscriptions[i].value == state.subs[i]
    }

    ghost predicate Shape()
      reads this, requests, subscriptions
    {
      RequestShape() && SubscriptionShape()
    }

    ghost predicate Valid()
      reads this, requests, subscriptions
    {
      Shape() && Inv(state)
    }

    /** No nodes but the connection's own and new ones are linked. */
    twostate predicate OwnNodes()
      reads this
    {
      && (forall i :: 0 <= i < |requests| ==> requests[i] in old(requests) || fresh(requests[i]))
      && (forall i :: 0 <= i < |subscriptions| ==> subscriptions[i] in old(subscriptions) || fresh(subscriptions[i]))
    }

    /** mdr_packetconn_new_from_frameconn. */
    constructor (fconn: FrameConn)
      ensures Valid() && state == FRESH && this.fconn == fconn
      ensures requests == [] && subscriptions == []
    {
      this.fconn := fconn;
      nextSequenceId := 0;
      request, requestQueueTail := null, null;
      subscription, subscriptionListTail := null, null;
      log, notices := [], [];
      requests, subscriptions, state := [], [], FRESH;
    }

    // ----- the queue ------------------------------------------------------------

    /** Gives the head its sequence id and checksum. */
    method StartHead()
      requires Shape() && requests != []
      modifies this`nextSequenceId, this`state, requests[0]
      ensures Shape()
      ensures state == old(state).(queue := [Start(old(state).queue[0], old(state).nextId)] + old(state).queue[1..],
                                  nextId := Not(old(state).nextId))
    {
      var frame := request.frame.(sequenceId := nextSequenceId);
      var checksum := ComputeChecksum(frame);
      request.frame := frame.(checksum := checksum);
      state := state.(queue := [Start(state.queue[0], state.nextId)] + state.queue[1..], nextId := Not(state.nextId));
      nextSequenceId := Not(nextSequenceId);
    }

    /** Links a new node behind the queue. */
    method Enqueue(handle: RequestNode)
      requires Shape() && handle !in requests && handle.next == null
      modifies this`request, this`requestQueueTail, this`requests, this`state, requests
      ensures Shape() && requests == old(requests) + [handle]
      ensures state == old(state).(queue := old(state).queue + [handle.Value()])
    {
      if request == null {
        request, requestQueueTail := handle, handle;
      } else {
        requestQueueTail.next := handle;
        requestQueueTail := handle;
      }
      requests := requests + [handle];
      state := state.(queue := state.queue + [handle.Value()]);
    }

    /** mdr_packetconn_make_request, from the frame on. */
    method MakeRequest(s: Submission) returns (handle: RequestNode)
      requires Shape()
      modifies this`request, this`requestQueueTail, this`nextSequenceId, this`requests, this`state, requests
      ensures Shape() && fresh(handle) && requests == old(requests) + [handle]
      ensures state == Submit(old(state), s)
    {
      handle := new RequestNode(s);
      var first := request == null;
      Enqueue(handle);
      state := state.(submitted := state.submitted + [s]);
      if first {
        StartHead();
      }
    }

    method UnlinkHead()
      requires Shape() && requests != []
      modifies this`request, this`requestQueueTail, this`requests, this`state
      ensures Shape() && requests == old(requests)[1..]
      ensures state == old(state).(queue := old(state).queue[1..])
    {
      request := request.next;
      requests := requests[1..];
      state := state.(queue := state.queue[1..]);
      if request == null {
        requestQueueTail := null;
      }
    }

    /** advance_frame_queue. */
    method AdvanceFrameQueue()
      requires Shape() && requests != []
      modifies this`request, this`requestQueueTail, this`nextSequenceId, this`requests, this`state, requests
      ensures Shape() && requests == old(requests)[1..]
      ensures state == Advance(old(state))
    {
      UnlinkHead();
      if request != null {
        StartHead();
      }
    }

    /** What a callback does. */
    method React(acts: seq<Act>)
      requires Shape()
      modifies this, requests, subscriptions
      ensures Shape() && OwnNodes() && old(subscriptions) <= subscriptions
      ensures state == PerformAll(old(state), acts)
    {
      for k := 0 to |acts|
        invariant Shape() && OwnNodes() && old(subscriptions) <= subscriptions
        invariant PerformAll(state, acts[k..]) == PerformAll(old(state), acts)
      {
        assert acts[k..][0] == acts[k] && acts[k..][1..] == acts[k + 1..];
        ActOnce(acts[k]);
      }
      assert acts[|acts|..] == [];
    }

    /** A callback that is not there does nothing. */
    method ReactIf(called: bool, acts: seq<Act>)
      requires Shape()
      modifies this, requests, subscriptions
      ensures Shape() && OwnNodes()
      ensures state == if called then PerformAll(old(state), acts) else old(state)
    {
      if called {
        React(acts);
      }
    }

    method ActOnce(a: Act)
      requires Shape()
      modifies this, requests, subscriptions
      ensures Shape() && OwnNodes() && old(subscriptions) <= subscriptions
      ensures state == Perform(old(state), a)
    {
      match a {
        case Ask(s) => var _ := MakeRequest(s);
        case Listen(sub) => var _ := Subscribe(sub);
      }
    }

    // ----- the head ---------------------------------------------------------------

    /** The head has been sent once more. */
    method CountSend(now: Clock)
      requires Shape() && requests != []
      modifies this`state, requests[0]
      ensures Shape() && state == Transmit(old(state), now, Sent).host
    {
      request.attempts := request.attempts + 1;
      request.timeout := Some(Add(now, ACK_TIMEOUT));
      state := state.(queue := state.queue[0 := request.Value()]);
    }

    /** mdr_frameconn_write_frame, as far as it matters here. */
    method HandOver(f: SizedFrame) returns (end: WriteEnd)
      requires fconn.Valid()
      modifies fconn`writeBufLen, fconn`accepted, fconn`pieces, fconn.writeBuf, fconn.sock`wire, fconn.sock`writes
      ensures fconn.Valid()
      ensures fconn.accepted == old(fconn.accepted) + if end == Sent || end == Buffered then [f] else []
      ensures HandedOver(old(fconn.Traffic()), end, |EscapeFrame(f)|, fconn.Traffic())
    {
      ghost var writes, held := fconn.sock.writes, fconn.writeBuf[..fconn.writeBufLen];
      ghost var flush, send;
      end, flush, send := fconn.WriteFrame(f);
      WriteCounts(writes, held, EscapeFrame(f), flush, send);
      assert old(fconn.accepted) + [] == old(fconn.accepted);
    }

    /** Hands the head's frame to the frame connection, and counts it if that says it was sent. */
    method SendHead(now: Clock) returns (end: WriteEnd)
      requires Shape() && requests != [] && fconn.Valid()
      modifies this`state, requests[0]
      modifies fconn`writeBufLen, fconn`accepted, fconn`pieces, fconn.writeBuf, fconn.sock`wire, fconn.sock`writes
      ensures Shape() && fconn.Valid()
      ensures state == Transmit(old(state), now, end).host
      ensures fconn.accepted == old(fconn.accepted) + Transmit(old(state), now, end).sent
      ensures HandedOver(old(fconn.Traffic()), end, HeadLength(old(state)), fconn.Traffic())
    {
      end := HandOver(request.frame);
      if end == Sent {
        CountSend(now);
      }
    }

    /** The head has failed: the error callback is told, over the flipped bit if there was no ACK. */
    method FailHead() returns (hasError: bool)
      requires Shape() && requests != []
      modifies this`nextSequenceId, this`state, this`log
      ensures Shape() && hasError == old(state).queue[0].hasError
      ensures state == Failed(old(state))
    {
      hasError := request.hasError;
      var outcome := Ended(if request.acked then E_NO_REPLY else E_NO_ACK);
      if !request.acked {
        nextSequenceId := Not(nextSequenceId);
      }
      log := log + [Completion(request.owner, request.frame.sequenceId, outcome, hasError)];
      state := state.(nextId := nextSequenceId, log := log);
    }

    /** The error callback submits, then the head is unlinked. */
    method ExpireHead(reaction: seq<Act>)
      requires Shape() && requests != []
      modifies this, requests, subscriptions
      ensures Shape() && state == Expire(old(state), reaction)
      ensures OwnNodes()
    {
      var hasError := FailHead();
      PerformAllKeepsHead(state, reaction);
      ReactIf(hasError, reaction);
      assert |requests| == |state.queue| > 0;
      AdvanceFrameQueue();
    }

    /** The head is done: its outcome is noted for its callback, and it is unlinked. */
    method FinishHead(packet: Option<Packet>) returns (hasResult: bool)
      requires Shape() && requests != []
      modifies this`request, this`requestQueueTail, this`nextSequenceId, this`requests, this`state, this`log, requests
      ensures Shape() && requests == old(requests)[1..]
      ensures state == Advance(Log(old(state), Replied(packet))) && hasResult == old(state).queue[0].hasResult
    {
      hasResult := request.hasResult;
      log := log + [Completion(request.owner, request.frame.sequenceId, Replied(packet), hasResult)];
      state := Log(state, Replied(packet));
      AdvanceFrameQueue();
    }

    /** ... and the result callback submits. */
    method CompleteHead(packet: Option<Packet>, reaction: seq<Act>)
      requires Shape() && requests != []
      modifies this, requests, subscriptions
      ensures Shape() && state == Complete(old(state), packet, reaction)
      ensures OwnNodes()
    {
      var hasResult := FinishHead(packet);
      ReactIf(hasResult, reaction);
    }

    /** The middle part of mdr_packetconn_process_by_availability. */
    method StepHead(now: Clock, writable: bool, reaction: seq<Act>) returns (end: WriteEnd)
      requires Shape() && fconn.Valid()
      modifies this, requests, subscriptions
      modifies fconn`writeBufLen, fconn`accepted, fconn`pieces, fconn.writeBuf, fconn.sock`wire, fconn.sock`writes
      ensures Shape() && fconn.Valid()
      ensures var step := HeadStep(old(state), now, writable, end, reaction);
              && state == step.host && fconn.accepted == old(fconn.accepted) + step.sent
              && (end == Broken <==> step.failed)
      ensures OwnNodes()
      ensures if Transmits(old(state), now, writable)
              then HandedOver(old(fconn.Traffic()), end, HeadLength(old(state)), fconn.Traffic())
              else end == Refused && fconn.Traffic() == old(fconn.Traffic())
    {
      end := Refused;
      if request != null {
        if request.attempts == 0 {
          if writable {
            end := SendHead(now);
          }
        } else if request.timeout.Some? && Compare(now, request.timeout.value) > 0 {
          end := RetryOrExpire(now, reaction);
        }
      }
    }

    /** ... for a head that is overdue. */
    method RetryOrExpire(now: Clock, reaction: seq<Act>) returns (end: WriteEnd)
      requires Shape() && requests != [] && fconn.Valid()
      modifies this, requests, subscriptions
      modifies fconn`writeBufLen, fconn`accepted, fconn`pieces, fconn.writeBuf, fconn.sock`wire, fconn.sock`writes
      ensures Shape() && fconn.Valid()
      ensures var r := old(state).queue[0];
              var step := if r.acked || r.attempts >= MAX_TRIES then Stepped(Expire(old(state), reaction), [], false)
                          else Transmit(old(state), now, end);
              && state == step.host && fconn.accepted == old(fconn.accepted) + step.sent
              && (end == Broken <==> step.failed)
      ensures OwnNodes()
      ensures if old(state).queue[0].acked || old(state).queue[0].attempts >= MAX_TRIES
              then end == Refused && fconn.Traffic() == old(fconn.Traffic())
              else HandedOver(old(fconn.Traffic()), end, HeadLength(old(state)), fconn.Traffic())
    {
      end := Refused;
      if request.acked || request.attempts >= MAX_TRIES {
        ExpireHead(reaction);
      } else {
        end := SendHead(now);
      }
    }

    // ----- what arrives --------------------------------------------------------------

    /** The head has its ACK and now waits for a reply. */
    method MarkAcked(now: Clock)
      requires Shape() && requests != []
      modifies this`state, requests[0]
      ensures Shape() && state == old(state).(queue := old(state).queue[0 := Acked(old(state).queue[0], now)])
    {
      request.acked := true;
      request.timeout := Some(Add(now, REPLY_TIMEOUT));
      state := state.(queue := state.queue[0 := request.Value()]);
    }

    /** An ACK with the expected bit, for a head that has none yet. */
    method TakeAck(now: Clock, id: byte, reaction: seq<Act>)
      requires Shape()
      modifies this, requests, subscriptions
      ensures Shape() && state == ReceiveAck(old(state), now, id, reaction)
      ensures OwnNodes()
    {
      if request != null && !request.acked && id == 1 - request.frame.sequenceId as int {
        if request.expected.onlyAck {
          CompleteHead(None, reaction);
        } else {
          MarkAcked(now);
        }
      }
    }

    /** One subscription's callback. */
    method CallSubscriber(sub: Subscription, p: Packet, reaction: seq<Act>)
      requires Shape()
      modifies this, requests, subscriptions
      ensures Shape() && state == Notify(old(state), sub, p, reaction)
      ensures old(subscriptions) <= subscriptions
      ensures OwnNodes()
    {
      notices := notices + [Notice(sub.userData, p)];
      state := state.(notices := notices);
      React(reaction);
    }

    /** The packet is shown to one subscription, whose callback takes the next reaction. */
    method Offer(sub: Subscription, p: Packet, left: seq<seq<Act>>) returns (later: seq<seq<Act>>)
      requires Shape()
      modifies this, requests, subscriptions
      ensures Shape() && old(subscriptions) <= subscriptions
      ensures state == if Wants(sub, p) then Notify(old(state), sub, p, FirstReaction(left)) else old(state)
      ensures later == if Wants(sub, p) then LaterReactions(left) else left
      ensures OwnNodes()
    {
      later := left;
      if Wants(sub, p) {
        CallSubscriber(sub, p, FirstReaction(left));
        later := LaterReactions(left);
      }
    }

    /** ... and the walk goes on to whatever follows it then. */
    method Visit(cursor: Node<Subscription>, p: Packet, left: seq<seq<Act>>, ghost k: nat)
      returns (next: Node?<Subscription>, later: seq<seq<Act>>)
      requires Shape() && k < |subscriptions| && cursor == subscriptions[k]
      modifies this, requests, subscriptions
      ensures Shape() && OwnNodes() && k < |subscriptions|
      ensures next == if k + 1 == |subscriptions| then null else subscriptions[k + 1]
      ensures var sub := old(state).subs[k];
              && state == (if Wants(sub, p) then Notify(old(state), sub, p, FirstReaction(left)) else old(state))
              && later == (if Wants(sub, p) then LaterReactions(left) else left)
    {
      later := Offer(cursor.value, p, left);
      next := cursor.next;
    }

    /** The loop over the subscriptions; it walks on into those that callbacks append. */
    method DispatchLoop(p: Packet, reactions: seq<seq<Act>>)
      requires Shape()
      modifies this, requests, subscriptions
      ensures Shape()
      ensures state == Dispatch(old(state), old(state).subs, p, reactions)
      ensures OwnNodes()
    {
      var cursor := subscription;
      var left := reactions;
      ghost var k := 0;
      assert state.subs[0..] == state.subs;
      while cursor != null
        invariant Shape() && OwnNodes()
        invariant k <= |subscriptions| && cursor == if k == |subscriptions| then null else subscriptions[k]
        invariant Dispatch(state, state.subs[k..], p, left) == Dispatch(old(state), old(state).subs, p, reactions)
        decreases |state.subs| - k + |AllListened(left)|
      {
        DispatchNext(state, k, p, left);
        ListenedGrows(state, k, p, left);
        cursor, left := Visit(cursor, p, left, k);
        k := k + 1;
      }
    }

    /** A parsed packet completes the head it answers, or goes to the subscribers. */
    method TakeData(p: Packet, reactions: seq<seq<Act>>)
      requires Shape()
      modifies this, requests, subscriptions
      ensures Shape() && state == ReceiveData(old(state), p, reactions)
      ensures OwnNodes()
    {
      if request != null && Matches(request.expected, p) {
        CompleteHead(Some(p), FirstReaction(reactions));
      } else {
        DispatchLoop(p, reactions);
      }
    }

    /** What a frame from the frame connection is to the request engine. */
    static function MessageFrom(found: Received, parse: Frame -> Option<Packet>): Message {
      match found
      case Got(f) =>
        if f.dataType == DATA_TYPE_ACK then AckMessage(f.sequenceId)
        else if f.dataType == DATA_TYPE_DATA_MDR then DataMessage(f.sequenceId, parse(f))
        else OtherMessage
      case _ => Nothing
    }

    /** A data frame: the ACK goes out first, whatever comes of that. */
    method TakeDataFrame(id: byte, packet: Option<Packet>, reactions: seq<seq<Act>>)
      returns (ackWrite: WriteEnd)
      requires Shape() && fconn.Valid()
      modifies this, requests, subscriptions
      modifies fconn`writeBufLen, fconn`accepted, fconn`pieces, fconn.writeBuf, fconn.sock`wire, fconn.sock`writes
      ensures Shape() && fconn.Valid()
      ensures state == if packet == None then old(state) else ReceiveData(old(state), packet.value, reactions)
      ensures fconn.accepted ==
              old(fconn.accepted) + if ackWrite == Sent || ackWrite == Buffered then [AckFor(id)] else []
      ensures OwnNodes()
      ensures HandedOver(old(fconn.Traffic()), ackWrite, |EscapeFrame(AckFor(id))|, fconn.Traffic())
    {
      ackWrite := SendAck(id);
      TakeParsed(packet, reactions);
    }

    method SendAck(id: byte) returns (end: WriteEnd)
      requires fconn.Valid()
      modifies fconn`writeBufLen, fconn`accepted, fconn`pieces, fconn.writeBuf, fconn.sock`wire, fconn.sock`writes
      ensures fconn.Valid() && Shape() == old(Shape())
      ensures fconn.accepted == old(fconn.accepted) + if end == Sent || end == Buffered then [AckFor(id)] else []
      ensures HandedOver(old(fconn.Traffic()), end, |EscapeFrame(AckFor(id))|, fconn.Traffic())
    {
      end := HandOver(AckFor(id));
    }

    /** A packet that did not parse is dropped. */
    method TakeParsed(packet: Option<Packet>, reactions: seq<seq<Act>>)
      requires Shape()
      modifies this, requests, subscriptions
      ensures Shape()
      ensures state == if packet == None then old(state) else ReceiveData(old(state), packet.value, reactions)
      ensures OwnNodes()
    {
      if packet.Some? {
        TakeData(packet.value, reactions);
      }
    }

    /** Whatever was read is handled by its kind. */
    method TakeMessage(now: Clock, m: Message, reactions: seq<seq<Act>>) returns (ackWrite: WriteEnd)
      requires Shape() && fconn.Valid()
      modifies this, requests, subscriptions
      modifies fconn`writeBufLen, fconn`accepted, fconn`pieces, fconn.writeBuf, fconn.sock`wire, fconn.sock`writes
      ensures Shape() && fconn.Valid()
      ensures state == Receive(old(state), now, m, reactions)
      ensures fconn.accepted == old(fconn.accepted) + TakenAck(m, ackWrite)
      ensures OwnNodes()
      ensures AckTraffic(old(fconn.Traffic()), m, ackWrite, fconn.Traffic())
    {
      ackWrite := Refused;
      match m
      case AckMessage(id) => TakeAck(now, id, FirstReaction(reactions));
      case DataMessage(id, packet) => ackWrite := TakeDataFrame(id, packet, reactions);
      case _ =>
    }

    method NextFrame() returns (found: Received)
      requires fconn.Valid()
      modifies fconn`readBufLen, fconn`readStarted, fconn.readBuf, fconn.sock`incoming, fconn.sock`misses
      ensures fconn.Valid() && Shape() == old(Shape()) && fconn.Traffic() == old(fconn.Traffic())
      ensures ReadOnce(old(fconn.Arriving()), found, fconn.Arriving())
    {
      found := fconn.TakeFrame();
    }

    /** That reads nothing more. */
    method Handle(now: Clock, m: Message, reactions: seq<seq<Act>>) returns (ackWrite: WriteEnd)
      requires Shape() && fconn.Valid()
      modifies this, requests, subscriptions
      modifies fconn`writeBufLen, fconn`accepted, fconn`pieces, fconn.writeBuf, fconn.sock`wire, fconn.sock`writes
      ensures Shape() && fconn.Valid() && fconn.Arriving() == old(fconn.Arriving())
      ensures state == Receive(old(state), now, m, reactions)
      ensures fconn.accepted == old(fconn.accepted) + TakenAck(m, ackWrite)
      ensures OwnNodes()
      ensures AckTraffic(old(fconn.Traffic()), m, ackWrite, fconn.Traffic())
    {
      ackWrite := TakeMessage(now, m, reactions);
    }

    /** The reading part of mdr_packetconn_process_by_availability. */
    method ReadPart(now: Clock, parse: Frame -> Option<Packet>, reactions: seq<seq<Act>>)
      returns (found: Received, ackWrite: WriteEnd)
      requires Shape() && fconn.Valid()
      modifies this, requests, subscriptions
      modifies fconn`writeBufLen, fconn`accepted, fconn`pieces, fconn.writeBuf, fconn.sock`wire, fconn.sock`writes
      modifies fconn`readBufLen, fconn`readStarted, fconn.readBuf, fconn.sock`incoming, fconn.sock`misses
      ensures Shape() && fconn.Valid()
      ensures state == Receive(old(state), now, MessageFrom(found, parse), reactions)
      ensures fconn.accepted == old(fconn.accepted) + TakenAck(MessageFrom(found, parse), ackWrite)
      ensures OwnNodes()
      ensures AckTraffic(old(fconn.Traffic()), MessageFrom(found, parse), ackWrite, fconn.Traffic())
      ensures ReadOnce(old(fconn.Arriving()), found, fconn.Arriving())
    {
      found := NextFrame();
      ackWrite := Handle(now, MessageFrom(found, parse), reactions);
    }

    /** ... which runs only when there may be something to read and nothing went wrong before. */
    method ReadIf(wanted: bool, now: Clock, parse: Frame -> Option<Packet>, reactions: seq<seq<Act>>)
      returns (found: Received, ackWrite: WriteEnd)
      requires Shape() && fconn.Valid()
      modifies this, requests, subscriptions
      modifies fconn`writeBufLen, fconn`accepted, fconn`pieces, fconn.writeBuf, fconn.sock`wire, fconn.sock`writes
      modifies fconn`readBufLen, fconn`readStarted, fconn.readBuf, fconn.sock`incoming, fconn.sock`misses
      ensures Shape() && fconn.Valid()
      ensures state == Receive(old(state), now, MessageFrom(found, parse), reactions)
      ensures fconn.accepted == old(fconn.accepted) + TakenAck(MessageFrom(found, parse), ackWrite)
      ensures AckTraffic(old(fconn.Traffic()), MessageFrom(found, parse), ackWrite, fconn.Traffic())
      ensures if wanted
              then ReadOnce(old(fconn.Arriving()), found, fconn.Arriving())
              else found == NoFrame && fconn.Arriving() == old(fconn.Arriving())
    {
      found, ackWrite := NoFrame, Refused;
      if wanted {
        found, ackWrite := ReadPart(now, parse, reactions);
      }
    }

    /** The writing part of mdr_packetconn_process_by_availability. */
    method FlushAndSend(inp: Input) returns (flushFails: bool, end: WriteEnd)
      requires Shape() && fconn.Valid()
      modifies this, requests, subscriptions
      modifies fconn`writeBufLen, fconn`accepted, fconn`pieces, fconn.writeBuf, fconn.sock`wire, fconn.sock`writes
      ensures Shape() && fconn.Valid()
      ensures var step := SendPart(old(state), inp.(flushFails := flushFails, headWrite := end));
              && state == step.host && fconn.accepted == old(fconn.accepted) + step.sent
              && (flushFails || end == Broken <==> step.failed)
      ensures OwnNodes()
      ensures SendTraffic(old(state), inp.(flushFails := flushFails, headWrite := end),
                          old(fconn.Traffic()), fconn.Traffic())
    {
      end := Refused;
      ghost var before := fconn.Traffic();
      flushFails := FlushFirst(inp.writable);
      ghost var flushed := fconn.Traffic();
      if !flushFails {
        end := StepHead(inp.now, inp.writable, inp.onExpire);
      }
      SendPartIs(old(state), inp, flushFails, end);
      TrafficAddsUp(old(state), inp.(flushFails := flushFails), before, flushed, end, fconn.Traffic());
    }

    /** What is buffered goes out first, if anything can. */
    method FlushFirst(writable: bool) returns (fails: bool)
      requires fconn.Valid()
      modifies fconn`writeBufLen, fconn`pieces, fconn.writeBuf, fconn.sock`wire, fconn.sock`writes
      ensures fconn.Valid() && (fails ==> writable) && Shape() == old(Shape())
      ensures FlushTraffic(old(fconn.Traffic()), writable, fails, fconn.Traffic())
    {
      fails := false;
      if writable {
        ghost var flush;
        var flushed;
        flushed, flush := fconn.FlushWrite();
        fails := flushed == WriteError;
      }
    }

    /** Writing, then reading unless something went wrong. */
    method WriteThenRead(inp: Input, parse: Frame -> Option<Packet>)
      returns (flushFails: bool, end: WriteEnd, found: Received, ackWrite: WriteEnd)
      requires Shape() && fconn.Valid()
      modifies this, requests, subscriptions
      modifies fconn`writeBufLen, fconn`accepted, fconn`pieces, fconn.writeBuf, fconn.sock`wire, fconn.sock`writes
      modifies fconn`readBufLen, fconn`readStarted, fconn.readBuf, fconn.sock`incoming, fconn.sock`misses
      ensures Shape() && fconn.Valid()
      ensures var done := Done(inp, flushFails, end, MessageFrom(found, parse), ackWrite);
              var part := SendPart(old(state), done);
              && state == Receive(part.host, inp.now, done.message, inp.reactions)
              && fconn.accepted == old(fconn.accepted) + (part.sent + TakenAck(done.message, ackWrite))
              && (flushFails || end == Broken <==> part.failed)
              && ProcessTraffic(old(state), done, old(fconn.Traffic()), fconn.Traffic())
      ensures if !flushFails && end != Broken && inp.readable
              then ReadOnce(old(fconn.Arriving()), found, fconn.Arriving())
              else found == NoFrame && fconn.Arriving() == old(fconn.Arriving())
    {
      ghost var ahead, before, accepted := fconn.Arriving(), fconn.Traffic(), fconn.accepted;
      flushFails, end := FlushAndSend(inp);
      ghost var middle := fconn.Traffic();
      assert fconn.Arriving() == ahead;
      found, ackWrite := ReadIf(!flushFails && end != Broken && inp.readable, inp.now, parse, inp.reactions);
      ghost var part := inp.(flushFails := flushFails, headWrite := end);
      SendPartAlone(old(state), part, MessageFrom(found, parse), ackWrite);
      TrafficWithAck(old(state), part, MessageFrom(found, parse), ackWrite, before, middle, fconn.Traffic());
      ConcatAssociates(accepted, SendPart(old(state), part).sent, TakenAck(MessageFrom(found, parse), ackWrite));
    }

    /**
     * mdr_packetconn_process_by_availability over the real frame connection: the state moves
     * as Process says, the frames sent are those it says, and the message is the next frame
     * of the received stream.
     */
    method ProcessByAvailability(now: Clock, readable: bool, writable: bool, parse: Frame -> Option<Packet>,
                                 onExpire: seq<Act>, reactions: seq<seq<Act>>)
      returns (code: int, inp: Input, found: Received)
      requires Valid() && fconn.Valid()
      modifies this, requests, subscriptions
      modifies fconn`writeBufLen, fconn`accepted, fconn`pieces, fconn.writeBuf, fconn.sock`wire, fconn.sock`writes
      modifies fconn`readBufLen, fconn`readStarted, fconn.readBuf, fconn.sock`incoming, fconn.sock`misses
      ensures Valid() && fconn.Valid()
      ensures inp.now == now && inp.readable == readable && inp.writable == writable
      ensures inp.onExpire == onExpire && inp.reactions == reactions
      ensures state == Process(old(state), inp).host
      ensures code == if Process(old(state), inp).failed then -1 else 0
      ensures fconn.accepted == old(fconn.accepted) + Process(old(state), inp).sent
      ensures inp.message == MessageFrom(found, parse)
      ensures ProcessTraffic(old(state), inp, old(fconn.Traffic()), fconn.Traffic())
      ensures if Reads(old(state), inp)
              then ReadOnce(old(fconn.Arriving()), found, fconn.Arriving())
              else found == NoFrame && fconn.Arriving() == old(fconn.Arriving())
    {
      inp := Input(now, readable, writable, false, Refused, Nothing, Refused, onExpire, reactions);
      var flushFails, end, ackWrite;
      flushFails, end, found, ackWrite := WriteThenRead(inp, parse);
      inp := Done(inp, flushFails, end, MessageFrom(found, parse), ackWrite);
      code := if flushFails || end == Broken || (inp.message.DataMessage? && inp.message.packet == None) then -1 else 0;
      ProcessFromParts(old(state), inp);
    }

    /** mdr_packetconn_poll_info. */
    method PollNow(now: Clock) returns (info: PollInfo)
      requires Valid()
      ensures info == Requests.Poll(state, fconn.writeBufLen > 0, now)
    {
      var write := false;
      if fconn.writeBufLen > 0 {
        write := true;
      } else if request != null {
        if request.attempts == 0 || Compare(now, request.timeout.value) > 0 {
          write := true;
        }
      }
      var timeout := -1;
      if request != null && request.attempts != 0 {
        var left := Sub(request.timeout.value, now);
        if left.sec < 0 {
          timeout := 0;
        } else {
          timeout := left.sec * 1000 + left.nsec / 1_000_000;
        }
      }
      info := PollInfo(write, timeout);
    }

    /** The loop of mdr_packetconn_free_self: every pending request's error callback is told. */
    method TellAll()
      requires RequestShape()
      modifies this`log
      ensures state.(queue := [], log := log) == Close(state)
    {
      var cursor := request;
      ghost var k := 0;
      assert state.queue[0..] == state.queue;
      while cursor != null
        invariant k <= |requests| && cursor == if k == |requests| then null else requests[k]
        invariant Close(state.(queue := state.queue[k..], log := log)) == Close(state)
        decreases |requests| - k
      {
        CloseOne(state, log, k);
        assert cursor.Value() == state.queue[k];
        log := log + [Completion(cursor.owner, cursor.frame.sequenceId, Ended(E_CLOSED), cursor.hasError)];
        cursor := cursor.next;
        k := k + 1;
      }
    }

    /** mdr_packetconn_free_self, up to giving the memory back. */
    method FreeSelf()
      requires RequestShape()
      modifies this`request, this`requestQueueTail, this`requests, this`state, this`log
      ensures RequestShape() && requests == [] && state == Close(old(state))
    {
      TellAll();
      request, requestQueueTail := null, null;
      requests, state := [], state.(queue := [], log := log);
    }

    // ----- subscriptions ---------------------------------------------------------------

    /** mdr_packetconn_subscribe. */
    method Subscribe(sub: Subscription) returns (handle: Node<Subscription>)
      requires SubscriptionShape()
      modifies this`subscription, this`subscriptionListTail, this`subscriptions, this`state, subscriptions
      ensures SubscriptionShape() && fresh(handle) && handle.value == sub
      ensures subscriptions == old(subscriptions) + [handle]
      ensures state == Perform(old(state), Listen(sub))
    {
      handle := new Node(sub);
      subscription, subscriptionListTail := Append(subscription, subscriptionListTail, handle, subscriptions);
      subscriptions := subscriptions + [handle];
      state := state.(subs := state.subs + [sub]);
    }

    /** What the loop of mdr_packetconn_remove_subscription does at the node it looked for. */
    method UnlinkAt(prev: Node?<Subscription>, node: Node<Subscription>, ghost k: nat)
      requires SubscriptionShape() && k < |subscriptions| && node == subscriptions[k]
      requires prev == if k == 0 then null else subscriptions[k - 1]
      modifies this`subscription, this`subscriptionListTail, this`subscriptions, this`state, subscriptions
      ensures SubscriptionShape() && state == Step(old(state), Unsubscribing(k))
      ensures subscriptions == Without(old(subscriptions), k)
    {
      subscription, subscriptionListTail := Unlink(subscription, subscriptionListTail, prev, node, subscriptions, k);
      subscriptions := Without(subscriptions, k);
      state := state.(subs := Without(state.subs, k));
    }

    /** mdr_packetconn_remove_subscription; k is where the handle stood, or past the end. */
    method RemoveSubscription(handle: Node<Subscription>) returns (ghost k: nat)
      requires SubscriptionShape()
      modifies this`subscription, this`subscriptionListTail, this`subscriptions, this`state, subscriptions
      ensures SubscriptionShape() && state == Step(old(state), Unsubscribing(k))
      ensures k < |old(subscriptions)| ==>
                old(subscriptions)[k] == handle && subscriptions == Without(old(subscriptions), k)
      ensures k >= |old(subscriptions)| ==> handle !in old(subscriptions) && subscriptions == old(subscriptions)
    {
      var prev: Node?<Subscription> := null;
      var cursor := subscription;
      k := 0;
      while cursor != null && cursor != handle
        invariant k <= |subscriptions| && cursor == if k == |subscriptions| then null else subscriptions[k]
        invariant prev == if k == 0 then null else subscriptions[k - 1]
        invariant forall i :: 0 <= i < k ==> subscriptions[i] != handle
        decreases |subscriptions| - k
      {
        prev, cursor := cursor, cursor.next;
        k := k + 1;
      }
      if cursor != null {
        UnlinkAt(prev, cursor, k);
      }
    }
  }

  // ----- what the kinds of frames come to ----------------------------------------------

  /** An ACK frame is never acknowledged; it counts for a head that waits for the opposite bit, and for no other. */
  lemma AckFrameComesTo(h: Host, now: Clock, f: Frame, parse: Frame -> Option<Packet>, reactions: seq<seq<Act>>,
                        end: WriteEnd)
    requires Inv(h) && f.dataType == 0x01
    ensures var m := PacketConn.MessageFrom(Got(f), parse);
            var counts := h.queue != [] && !h.queue[0].acked && f.sequenceId == Not(h.queue[0].frame.sequenceId);
            && TakenAck(m, end) == []
            && (Receive(h, now, m, reactions) != h <==> counts)
            && (counts ==> Receive(h, now, m, reactions) == ReceiveAck(h, now, f.sequenceId, FirstReaction(reactions)))
  {
    AckCountsIff(h, now, f.sequenceId, reactions);
  }

  /** A data frame is acknowledged whether or not it parses; only what parses reaches the engine. */
  lemma DataFrameComesTo(h: Host, now: Clock, f: Frame, parse: Frame -> Option<Packet>, reactions: seq<seq<Act>>,
                         end: WriteEnd)
    requires f.dataType == 0x0c
    ensures var m := PacketConn.MessageFrom(Got(f), parse);
            && TakenAck(m, end) == (if end in {Sent, Buffered} then [AckFor(f.sequenceId)] else [])
            && Receive(h, now, m, reactions) ==
               if parse(f) == None then h else ReceiveData(h, parse(f).value, reactions)
  {
    var m := PacketConn.MessageFrom(Got(f), parse);
    assert m == DataMessage(f.sequenceId, parse(f));
  }

  /** Frames of other types, and calls that give no frame, are not answered and change nothing. */
  lemma OtherFramesComeToNothing(h: Host, now: Clock, found: Received, parse: Frame -> Option<Packet>,
                                 reactions: seq<seq<Act>>, end: WriteEnd)
    requires found.Got? ==> found.frame.dataType !in {0x01, 0x0c}
    ensures var m := PacketConn.MessageFrom(found, parse);
            TakenAck(m, end) == [] && !m.DataMessage? && Receive(h, now, m, reactions) == h
  {
  }
}
