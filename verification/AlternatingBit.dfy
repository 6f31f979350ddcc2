/**
 * Whom an ACK is for: the request engine of src/packetconn.c talking to a device over two
 * FIFO channels that may lose frames.
 *
 * A copy on its way and whatever it causes carry `cause`, the position of the request in the
 * order of submission.  Nobody reads it; it is there to say what an ACK was caused by.
 */
module AlternatingBit {
  import opened Bytes
  import opened Frames
  import opened Deadlines
  import opened Requests
  import opened RequestSafety

  /** A copy of a request on its way to the device. */
  datatype Copy = Copy(id: byte, cause: nat)

  /** A frame on its way to the host; a data frame nobody asked for has no cause. */
  datatype Reply =
    | AckReply(id: byte, cause: nat)
    | DataReply(id: byte, packet: Option<Packet>, about: Option<nat>)

  datatype Net = Net(host: Host, toDevice: seq<Copy>, toHost: seq<Reply>)

  datatype NetStep =
    | HostActs(act: Act)
    | HostSends(now: Clock, writable: bool, end: WriteEnd, reaction: seq<Act>)
    | HostReads(now: Clock, reactions: seq<seq<Act>>)
    | DeviceAnswers(id: byte, packets: seq<Option<Packet>>)
    | DeviceNotifies(id: byte, packet: Option<Packet>)
    | CopyLost(at: nat)
    | ReplyLost(at: nat)

  /** The head is the request behind all finished ones. */
  function HeadNumber(h: Host): nat {
    |h.log|
  }

  function MessageOf(r: Reply): Message {
    match r
    case AckReply(id, _) => AckMessage(id)
    case DataReply(id, p, _) => DataMessage(id, p)
  }

  function DataReplies(id: byte, packets: seq<Option<Packet>>, about: Option<nat>): (r: seq<Reply>)
    ensures |r| == |packets| && forall i :: 0 <= i < |r| ==> r[i] == DataReply(id, packets[i], about)
  {
    seq(|packets|, i requires 0 <= i < |packets| => DataReply(id, packets[i], about))
  }

  function Drop<T>(s: seq<T>, at: nat): seq<T> {
    if at < |s| then s[..at] + s[at + 1..] else s
  }

  /** The device acknowledges every copy with the opposite bit, then may send data frames. */
  function Next(n: Net, step: NetStep): Net {
    match step
    case HostActs(a) => n.(host := Perform(n.host, a))
    case HostSends(now, writable, end, reaction) =>
      var st := HeadStep(n.host, now, writable, end, reaction);
      var copies := if st.sent == [] then [] else [Copy(st.sent[0].sequenceId, HeadNumber(n.host))];
      n.(host := st.host, toDevice := n.toDevice + copies)
    case HostReads(now, reactions) =>
      if n.toHost == [] then n
      else n.(host := Receive(n.host, now, MessageOf(n.toHost[0]), reactions), toHost := n.toHost[1..])
    case DeviceAnswers(id, packets) =>
      if n.toDevice == [] then n
      else
        var c := n.toDevice[0];
        n.(toDevice := n.toDevice[1..],
           toHost := n.toHost + [AckReply(Not(c.id), c.cause)] + DataReplies(id, packets, Some(c.cause)))
    case DeviceNotifies(id, packet) => n.(toHost := n.toHost + [DataReply(id, packet, None)])
    case CopyLost(at) => n.(toDevice := Drop(n.toDevice, at))
    case ReplyLost(at) => n.(toHost := Drop(n.toHost, at))
  }

  const START_OF_NET := Net(FRESH, [], [])

  function RunNet(n: Net, steps: seq<NetStep>): Net
    decreases |steps|
  {
    if steps == [] then n else RunNet(Next(n, steps[0]), steps[1..])
  }

  // ----- what is assumed, and what is claimed ------------------------------------

  /** A copy of request `cause`, or an ACK for it, is on its way. */
  predicate OnItsWay(toDevice: seq<Copy>, toHost: seq<Reply>, cause: nat) {
    || (exists i :: 0 <= i < |toDevice| && toDevice[i].cause == cause)
    || (exists i :: 0 <= i < |toHost| && toHost[i].AckReply? && toHost[i].cause == cause)
  }

  /** This step ends the head with MDR_E_NO_ACK while a copy of it or an ACK for it is on its way. */
  predicate GivesUpTooEarly(n: Net, step: NetStep) {
    && step.HostSends? && GivesUp(n.host, step.now) && !n.host.queue[0].acked
    && OnItsWay(n.toDevice, n.toHost, HeadNumber(n.host))
  }

  /** This step completes the head with a data frame while a copy or ACK of an earlier request is on its way. */
  predicate AnsweredTooEarly(n: Net, step: NetStep) {
    && step.HostReads? && n.toHost != [] && n.toHost[0].DataReply? && n.toHost[0].packet.Some?
    && Answers(n.host, n.toHost[0].packet.value)
    && exists c :: 0 <= c < HeadNumber(n.host) && OnItsWay(n.toDevice, n.toHost[1..], c)
  }

  predicate Fair(n: Net, step: NetStep) {
    !GivesUpTooEarly(n, step) && !AnsweredTooEarly(n, step)
  }

  predicate FairRun(n: Net, steps: seq<NetStep>)
    decreases |steps|
  {
    steps == [] || (Fair(n, steps[0]) && FairRun(Next(n, steps[0]), steps[1..]))
  }

  /** This step accepts an ACK that was not caused by a copy of the head. */
  predicate AcceptsForeignAck(n: Net, step: NetStep) {
    && step.HostReads? && n.toHost != [] && n.toHost[0].AckReply?
    && AcceptsAck(n.host, n.toHost[0].id)
    && n.toHost[0].cause != HeadNumber(n.host)
  }

  // ----- the invariant --------------------------------------------------------------

  /** A copy with this id is the head's and has its bit, or is older and has the other, and the head is not acked. */
  predicate Timely(h: Host, id: byte, cause: nat) {
    && id in {0, 1} && cause <= HeadNumber(h)
    && if cause == HeadNumber(h) then h.queue != [] && id == NextAfter(h.log)
       else id == Not(NextAfter(h.log)) && (h.queue != [] ==> !h.queue[0].acked)
  }

  function CauseOf(r: Reply): Option<nat> {
    match r
    case AckReply(_, cause) => Some(cause)
    case DataReply(_, _, about) => about
  }

  predicate ReplyOk(h: Host, r: Reply) {
    match r
    case AckReply(id, cause) => id in {0, 1} && Timely(h, Not(id), cause)
    case DataReply(_, _, about) => about.Some? ==> about.value <= HeadNumber(h)
  }

  predicate CopyOk(h: Host, c: Copy) {
    Timely(h, c.id, c.cause)
  }

  /** r was caused no later than what caused `later`. */
  predicate NotAfter(r: Reply, later: nat) {
    CauseOf(r).Some? ==> CauseOf(r).value <= later
  }

  /** Read from the host's end, through the device, to the last copy sent: causes never decrease. */
  predicate Ordered(toDevice: seq<Copy>, toHost: seq<Reply>) {
    && (forall i, j :: 0 <= i < j < |toDevice| ==> toDevice[i].cause <= toDevice[j].cause)
    && (forall i, j :: 0 <= i < j < |toHost| && CauseOf(toHost[j]).Some? ==>
          NotAfter(toHost[i], CauseOf(toHost[j]).value))
    && (forall i, j :: 0 <= i < |toHost| && 0 <= j < |toDevice| ==> NotAfter(toHost[i], toDevice[j].cause))
  }

  predicate AllOk(h: Host, toDevice: seq<Copy>, toHost: seq<Reply>) {
    && (forall i :: 0 <= i < |toDevice| ==> CopyOk(h, toDevice[i]))
    && (forall i :: 0 <= i < |toHost| ==> ReplyOk(h, toHost[i]))
  }

  predicate NetInv(n: Net) {
    Inv(n.host) && Ordered(n.toDevice, n.toHost) && AllOk(n.host, n.toDevice, n.toHost)
  }

  // ----- the host's moves ---------------------------------------------------------------

  lemma StaysOk(h: Host, t: Host, toDevice: seq<Copy>, toHost: seq<Reply>)
    requires HeadStays(h, t) && AllOk(h, toDevice, toHost)
    ensures AllOk(t, toDevice, toHost)
  {
  }

  /** Nothing older on its way means that the head's own copies and ACKs are all there is. */
  lemma OnlyTheHeads(h: Host, toDevice: seq<Copy>, toHost: seq<Reply>)
    requires AllOk(h, toDevice, toHost)
    requires forall c :: 0 <= c < HeadNumber(h) ==> !OnItsWay(toDevice, toHost, c)
    ensures forall i :: 0 <= i < |toDevice| ==> toDevice[i].cause == HeadNumber(h)
    ensures forall i :: 0 <= i < |toHost| && toHost[i].AckReply? ==> toHost[i].cause == HeadNumber(h)
  {
    forall i | 0 <= i < |toDevice|
      ensures toDevice[i].cause == HeadNumber(h)
    {
      assert CopyOk(h, toDevice[i]) && OnItsWay(toDevice, toHost, toDevice[i].cause);
    }
    forall i | 0 <= i < |toHost| && toHost[i].AckReply?
      ensures toHost[i].cause == HeadNumber(h)
    {
      assert ReplyOk(h, toHost[i]) && OnItsWay(toDevice, toHost, toHost[i].cause);
    }
  }

  /** Ended without MDR_E_NO_ACK, with only its own copies and ACKs on their way. */
  lemma DoneOk(h: Host, t: Host, outcome: Outcome, toDevice: seq<Copy>, toHost: seq<Reply>)
    requires Inv(h) && h.queue != [] && HeadDone(h, t, outcome) && outcome != Ended(E_NO_ACK)
    requires AllOk(h, toDevice, toHost)
    requires forall c :: 0 <= c < HeadNumber(h) ==> !OnItsWay(toDevice, toHost, c)
    ensures AllOk(t, toDevice, toHost)
  {
    OnlyTheHeads(h, toDevice, toHost);
    NextAfterIsABit(h.log);
    assert t.log[..|h.log|] == h.log;
  }

  /** Ended with MDR_E_NO_ACK, with none of its own copies and ACKs on their way. */
  lemma GivenUpOk(h: Host, t: Host, toDevice: seq<Copy>, toHost: seq<Reply>)
    requires Inv(h) && h.queue != [] && HeadDone(h, t, Ended(E_NO_ACK)) && !h.queue[0].acked
    requires AllOk(h, toDevice, toHost) && !OnItsWay(toDevice, toHost, HeadNumber(h))
    ensures AllOk(t, toDevice, toHost)
  {
    assert t.log[..|h.log|] == h.log;
  }

  /** With an acked head nothing older is about. */
  lemma AckedLeavesNothingOlder(h: Host, toDevice: seq<Copy>, toHost: seq<Reply>, c: nat)
    requires AllOk(h, toDevice, toHost) && h.queue != [] && h.queue[0].acked && c < HeadNumber(h)
    ensures !OnItsWay(toDevice, toHost, c)
  {
    assert forall i :: 0 <= i < |toDevice| ==> CopyOk(h, toDevice[i]);
    assert forall i :: 0 <= i < |toHost| ==> ReplyOk(h, toHost[i]);
  }

  lemma SendKeeps(n: Net, step: NetStep)
    requires NetInv(n) && step.HostSends? && Fair(n, step)
    ensures NetInv(Next(n, step))
  {
    var h := n.host;
    var st := HeadStep(h, step.now, step.writable, step.end, step.reaction);
    HeadStepKeeps(h, step.now, step.writable, step.end, step.reaction);
    HeadStepCases(h, step.now, step.writable, step.end, step.reaction);
    assert n.toDevice + [] == n.toDevice;
    if GivesUp(h, step.now) {
      if h.queue[0].acked {
        forall c | 0 <= c < HeadNumber(h) {
          AckedLeavesNothingOlder(h, n.toDevice, n.toHost, c);
        }
        DoneOk(h, st.host, ExpiryOutcome(h.queue[0]), n.toDevice, n.toHost);
      } else {
        GivenUpOk(h, st.host, n.toDevice, n.toHost);
      }
    } else if st.sent != [] {
      SentOk(h, st.host, n.toDevice, n.toHost);
      AppendKeeps(st.host, n.toDevice, n.toHost, Copy(st.sent[0].sequenceId, HeadNumber(h)));
    }
  }

  /** Counting a send changes nothing that matters here. */
  lemma SentOk(h: Host, t: Host, toDevice: seq<Copy>, toHost: seq<Reply>)
    requires t.log == h.log && h.queue != [] && t.queue != [] && t.queue[0].acked == h.queue[0].acked
    requires AllOk(h, toDevice, toHost)
    ensures AllOk(t, toDevice, toHost)
  {
  }

  /** A copy of the head goes behind everything. */
  lemma AppendKeeps(h: Host, toDevice: seq<Copy>, toHost: seq<Reply>, c: Copy)
    requires Inv(h) && Ordered(toDevice, toHost) && AllOk(h, toDevice, toHost)
    requires h.queue != [] && c == Copy(h.queue[0].frame.sequenceId, HeadNumber(h))
    ensures Ordered(toDevice + [c], toHost) && AllOk(h, toDevice + [c], toHost)
  {
    NextAfterIsABit(h.log);
    assert forall i :: 0 <= i < |toHost| ==> ReplyOk(h, toHost[i]);
    assert forall i :: 0 <= i < |toDevice| ==> CopyOk(h, toDevice[i]);
    assert CopyOk(h, c);
  }

  lemma OrderedTail(toDevice: seq<Copy>, toHost: seq<Reply>)
    requires Ordered(toDevice, toHost) && toHost != []
    ensures Ordered(toDevice, toHost[1..])
    ensures CauseOf(toHost[0]).Some? ==>
              && (forall i :: 0 <= i < |toDevice| ==> CauseOf(toHost[0]).value <= toDevice[i].cause)
              && (forall i :: 0 <= i < |toHost[1..]| && CauseOf(toHost[1..][i]).Some? ==>
                    CauseOf(toHost[0]).value <= CauseOf(toHost[1..][i]).value)
  {
    assert forall i :: 0 <= i < |toDevice| ==> NotAfter(toHost[0], toDevice[i].cause);
  }

  /** Behind a frame the head caused there is nothing older. */
  lemma NothingOlderBehind(n: Net, c: nat)
    requires Ordered(n.toDevice, n.toHost) && c < HeadNumber(n.host)
    requires n.toHost != [] && CauseOf(n.toHost[0]) == Some(HeadNumber(n.host))
    ensures !OnItsWay(n.toDevice, n.toHost[1..], c)
  {
    OrderedTail(n.toDevice, n.toHost);
  }

  /** The claim about one step: what is accepted now was caused by the head. */
  lemma AckIsForHead(n: Net, step: NetStep)
    requires NetInv(n)
    ensures !AcceptsForeignAck(n, step)
  {
    if step.HostReads? && n.toHost != [] && n.toHost[0].AckReply? && AcceptsAck(n.host, n.toHost[0].id) {
      NextAfterIsABit(n.host.log);
      assert ReplyOk(n.host, n.toHost[0]);
    }
  }

  /** The head has just been acked. */
  lemma AckedOk(h: Host, t: Host, toDevice: seq<Copy>, toHost: seq<Reply>)
    requires t.log == h.log && h.queue != [] && t.queue != [] && AllOk(h, toDevice, toHost)
    requires forall c :: 0 <= c < HeadNumber(h) ==> !OnItsWay(toDevice, toHost, c)
    ensures AllOk(t, toDevice, toHost)
  {
    OnlyTheHeads(h, toDevice, toHost);
  }

  lemma ReadKeeps(n: Net, step: NetStep)
    requires NetInv(n) && step.HostReads? && n.toHost != [] && Fair(n, step)
    ensures NetInv(Next(n, step))
  {
    var h, m, rest := n.host, MessageOf(n.toHost[0]), n.toHost[1..];
    var t := Receive(h, step.now, m, step.reactions);
    ReceiveKeeps(h, step.now, m, step.reactions);
    ReceiveCases(h, step.now, m, step.reactions);
    OrderedTail(n.toDevice, n.toHost);
    assert AllOk(h, n.toDevice, rest);
    if m.AckMessage? && AcceptsAck(h, m.id) {
      AckIsForHead(n, step);
      forall c | 0 <= c < HeadNumber(h) {
        NothingOlderBehind(n, c);
      }
    }
    if Completes(h, m) {
      DoneOk(h, t, Replied(if m.AckMessage? then None else m.packet), n.toDevice, rest);
    } else if m.AckMessage? && AcceptsAck(h, m.id) {
      AckedOk(h, t, n.toDevice, rest);
    } else {
      StaysOk(h, t, n.toDevice, rest);
    }
  }

  lemma AnswerOrdered(toDevice: seq<Copy>, toHost: seq<Reply>, replies: seq<Reply>)
    requires Ordered(toDevice, toHost) && toDevice != []
    requires forall i :: 0 <= i < |replies| ==> CauseOf(replies[i]) == Some(toDevice[0].cause)
    ensures Ordered(toDevice[1..], toHost + replies)
  {
    var c := toDevice[0].cause;
    assert forall i :: 0 <= i < |toHost| ==> NotAfter(toHost[i], c);
    assert forall i :: 0 <= i < |toHost + replies| ==> NotAfter((toHost + replies)[i], c);
  }

  lemma AnswerKeeps(n: Net, step: NetStep)
    requires NetInv(n) && step.DeviceAnswers? && n.toDevice != []
    ensures NetInv(Next(n, step))
  {
    var c := n.toDevice[0];
    var replies := [AckReply(Not(c.id), c.cause)] + DataReplies(step.id, step.packets, Some(c.cause));
    assert Next(n, step).toHost == n.toHost + replies;
    AnswerOrdered(n.toDevice, n.toHost, replies);
    assert CopyOk(n.host, c);
    assert forall i :: 0 <= i < |replies| ==> ReplyOk(n.host, replies[i]);
  }

  lemma NotifyKeeps(n: Net, r: Reply)
    requires NetInv(n) && r.DataReply? && r.about == None
    ensures NetInv(n.(toHost := n.toHost + [r]))
  {
    assert ReplyOk(n.host, r);
  }

  lemma LossKeeps(n: Net, at: nat)
    requires NetInv(n)
    ensures NetInv(n.(toDevice := Drop(n.toDevice, at))) && NetInv(n.(toHost := Drop(n.toHost, at)))
  {
  }

  lemma NetStepKeeps(n: Net, step: NetStep)
    requires NetInv(n) && Fair(n, step)
    ensures NetInv(Next(n, step))
  {
    match step
    case HostActs(a) =>
      PerformKeeps(n.host, a);
      StaysOk(n.host, Perform(n.host, a), n.toDevice, n.toHost);
    case HostSends(_, _, _, _) => SendKeeps(n, step);
    case HostReads(_, _) => if n.toHost != [] { ReadKeeps(n, step); }
    case DeviceAnswers(_, _) => if n.toDevice != [] { AnswerKeeps(n, step); }
    case DeviceNotifies(id, packet) => NotifyKeeps(n, DataReply(id, packet, None));
    case CopyLost(at) => LossKeeps(n, at);
    case ReplyLost(at) => LossKeeps(n, at);
  }

  /** One call of process is a send step and a read step. */
  lemma ProcessIsSendThenRead(n: Net, inp: Input)
    requires n.toHost != [] && inp.readable && !(inp.writable && inp.flushFails)
    requires inp.message == MessageOf(n.toHost[0]) && inp.headWrite != Broken
    ensures var sent := Next(n, HostSends(inp.now, inp.writable, inp.headWrite, inp.onExpire));
            Next(sent, HostReads(inp.now, inp.reactions)).host == Process(n.host, inp).host
  {
  }

  // ----- safety over whole runs -------------------------------------------------------------

  lemma {:induction false} RunNetKeeps(n: Net, steps: seq<NetStep>)
    requires NetInv(n) && FairRun(n, steps)
    ensures NetInv(RunNet(n, steps))
    decreases |steps|
  {
    if steps != [] {
      NetStepKeeps(n, steps[0]);
      RunNetKeeps(Next(n, steps[0]), steps[1..]);
    }
  }

  /**
   * In every fair run, over channels that lose anything and a device that answers anything,
   * every ACK the host accepts was caused by a copy of its current head request.
   */
  lemma EveryAckIsForTheHead(steps: seq<NetStep>, step: NetStep)
    requires FairRun(START_OF_NET, steps)
    ensures !AcceptsForeignAck(RunNet(START_OF_NET, steps), step)
  {
    RunNetKeeps(START_OF_NET, steps);
    AckIsForHead(RunNet(START_OF_NET, steps), step);
  }

  /** A device that answers in order is never early with a reply to the head, nor is any frame for an acked head. */
  lemma RepliesInOrderAreFair(n: Net, step: NetStep)
    requires NetInv(n) && AnsweredTooEarly(n, step)
    ensures n.toHost[0].about != Some(HeadNumber(n.host)) && !n.host.queue[0].acked
  {
    var c :| 0 <= c < HeadNumber(n.host) && OnItsWay(n.toDevice, n.toHost[1..], c);
    if n.toHost[0].about == Some(HeadNumber(n.host)) {
      NothingOlderBehind(n, c);
    }
    if n.host.queue[0].acked {
      assert AllOk(n.host, n.toDevice, n.toHost[1..]);
      AckedLeavesNothingOlder(n.host, n.toDevice, n.toHost[1..], c);
    }
  }

  // ----- the condition is exact ----------------------------------------------------------------

  /** Some fair continuation accepts an ACK for the wrong request. */
  ghost predicate Misleads(n: Net) {
    exists steps: seq<NetStep>, last: NetStep ::
      FairRun(n, steps) && AcceptsForeignAck(RunNet(n, steps), last)
  }

  lemma MisleadsLater(n: Net, step: NetStep)
    requires Fair(n, step) && Misleads(Next(n, step))
    ensures Misleads(n)
  {
    var steps: seq<NetStep>, last: NetStep :|
      FairRun(Next(n, step), steps) && AcceptsForeignAck(RunNet(Next(n, step), steps), last);
    assert ([step] + steps)[1..] == steps;
    assert FairRun(n, [step] + steps) && AcceptsForeignAck(RunNet(n, [step] + steps), last);
  }

  lemma NothingMisleads(n: Net)
    requires NetInv(n)
    ensures !Misleads(n)
  {
    forall steps: seq<NetStep>, last: NetStep | FairRun(n, steps)
      ensures !AcceptsForeignAck(RunNet(n, steps), last)
    {
      RunNetKeeps(n, steps);
      AckIsForHead(RunNet(n, steps), last);
    }
  }

  /** The head, if any, waits for an ACK, and this id and cause would pass for it though they are not. */
  predicate Stale(h: Host, id: byte, cause: nat) {
    && Inv(h) && cause < HeadNumber(h) && id == NextAfter(h.log)
    && (h.queue != [] ==> !h.queue[0].acked)
  }

  /** Everything in front of a stale ACK may get lost. */
  lemma {:induction false} StaleAckMisleads(n: Net, i: nat)
    requires i < |n.toHost| && n.toHost[i].AckReply? && n.host.queue != []
    requires n.toHost[i].id in {0, 1} && Stale(n.host, Not(n.toHost[i].id), n.toHost[i].cause)
    ensures Misleads(n)
    decreases i
  {
    if i == 0 {
      NextAfterIsABit(n.host.log);
      var read := HostReads(Timespec(0, 0), []);
      assert FairRun(n, []) && AcceptsForeignAck(RunNet(n, []), read);
    } else {
      assert Next(n, ReplyLost(0)).toHost == n.toHost[1..];
      StaleAckMisleads(Next(n, ReplyLost(0)), i - 1);
      MisleadsLater(n, ReplyLost(0));
    }
  }

  /** So may everything in front of a stale copy; the device then acknowledges that one. */
  lemma {:induction false} StaleCopyMisleads(n: Net, i: nat)
    requires i < |n.toDevice| && n.host.queue != []
    requires n.toDevice[i].id in {0, 1} && Stale(n.host, n.toDevice[i].id, n.toDevice[i].cause)
    ensures Misleads(n)
    decreases i
  {
    if i == 0 {
      var answered := Next(n, DeviceAnswers(0, []));
      assert answered.toHost == n.toHost + [AckReply(Not(n.toDevice[0].id), n.toDevice[0].cause)];
      StaleAckMisleads(answered, |n.toHost|);
      MisleadsLater(n, DeviceAnswers(0, []));
    } else {
      assert Next(n, CopyLost(0)).toDevice == n.toDevice[1..];
      StaleCopyMisleads(Next(n, CopyLost(0)), i - 1);
      MisleadsLater(n, CopyLost(0));
    }
  }

  /** An idle host gets a head by the next submission. */
  lemma StaleMisleads(n: Net, c: nat)
    requires OnItsWay(n.toDevice, n.toHost, c)
    requires forall i :: 0 <= i < |n.toDevice| && n.toDevice[i].cause == c ==>
               n.toDevice[i].id in {0, 1} && Stale(n.host, n.toDevice[i].id, c)
    requires forall i :: 0 <= i < |n.toHost| && n.toHost[i].AckReply? && n.toHost[i].cause == c ==>
               n.toHost[i].id in {0, 1} && Stale(n.host, Not(n.toHost[i].id), c)
    ensures Misleads(n)
  {
    var ask := Ask(Submission(Frame(0, 0, [], 0), ReplySpec(true, 0, 0), false, false, Direct(0)));
    var busy := Next(n, HostActs(ask));
    PerformKeepsWhenStale(n.host, ask);
    if i :| 0 <= i < |n.toDevice| && n.toDevice[i].cause == c {
      StaleCopyMisleads(busy, i);
    } else {
      var i :| 0 <= i < |n.toHost| && n.toHost[i].AckReply? && n.toHost[i].cause == c;
      StaleAckMisleads(busy, i);
    }
    MisleadsLater(n, HostActs(ask));
  }

  lemma PerformKeepsWhenStale(h: Host, a: Act)
    ensures a.Ask? ==> Perform(h, a).queue != []
    ensures forall id: byte, cause: nat :: Stale(h, id, cause) ==> Stale(Perform(h, a), id, cause)
  {
    if Inv(h) {
      PerformKeeps(h, a);
    }
  }

  /** A step misleads exactly if it gives up too early, or is answered too early. */
  lemma MisleadsIff(n: Net, step: NetStep)
    requires NetInv(n)
    ensures Misleads(Next(n, step)) <==> !Fair(n, step)
  {
    if Fair(n, step) {
      NetStepKeeps(n, step);
      NothingMisleads(Next(n, step));
    } else if GivesUpTooEarly(n, step) {
      GivingUpMisleads(n, step);
    } else {
      EarlyAnswerMisleads(n, step);
    }
  }

  /** The next head reuses the bit: a late ACK of the one given up passes for its. */
  lemma GivingUpMisleads(n: Net, step: NetStep)
    requires NetInv(n) && GivesUpTooEarly(n, step)
    ensures Misleads(Next(n, step))
  {
    var h, t := n.host, Next(n, step).host;
    HeadStepKeeps(h, step.now, step.writable, step.end, step.reaction);
    HeadStepCases(h, step.now, step.writable, step.end, step.reaction);
    assert t.log[..|h.log|] == h.log;
    assert n.toDevice + [] == n.toDevice;
    assert forall i :: 0 <= i < |n.toDevice| ==> CopyOk(h, n.toDevice[i]);
    assert forall i :: 0 <= i < |n.toHost| ==> ReplyOk(h, n.toHost[i]);
    StaleMisleads(Next(n, step), HeadNumber(h));
  }

  /** The next head has the bit of the one before the head: a late ACK of an earlier one passes for its. */
  lemma EarlyAnswerMisleads(n: Net, step: NetStep)
    requires NetInv(n) && AnsweredTooEarly(n, step)
    ensures Misleads(Next(n, step))
  {
    var h, t := n.host, Next(n, step).host;
    var m := MessageOf(n.toHost[0]);
    ReceiveKeeps(h, step.now, m, step.reactions);
    ReceiveCases(h, step.now, m, step.reactions);
    NextAfterIsABit(h.log);
    assert t.log[..|h.log|] == h.log;
    var c :| 0 <= c < HeadNumber(h) && OnItsWay(n.toDevice, n.toHost[1..], c);
    assert forall i :: 0 <= i < |n.toDevice| ==> CopyOk(h, n.toDevice[i]);
    assert forall i :: 0 <= i < |n.toHost[1..]| ==> n.toHost[1..][i] == n.toHost[i + 1] && ReplyOk(h, n.toHost[i + 1]);
    StaleMisleads(Next(n, step), c);
  }

  // ----- both can happen ---------------------------------------------------------------------------

  ghost predicate FairlyReached(n: Net) {
    exists steps: seq<NetStep> :: FairRun(START_OF_NET, steps) && RunNet(START_OF_NET, steps) == n
  }

  lemma {:induction false} OneMoreStep(n: Net, steps: seq<NetStep>, step: NetStep)
    requires FairRun(n, steps) && Fair(RunNet(n, steps), step)
    ensures FairRun(n, steps + [step]) && RunNet(n, steps + [step]) == Next(RunNet(n, steps), step)
    decreases |steps|
  {
    if steps == [] {
      assert (steps + [step])[1..] == [];
    } else {
      assert (steps + [step])[1..] == steps[1..] + [step];
      OneMoreStep(Next(n, steps[0]), steps[1..], step);
    }
  }

  lemma ReachedNext(n: Net, step: NetStep)
    requires FairlyReached(n) && Fair(n, step)
    ensures FairlyReached(Next(n, step))
  {
    var steps :| FairRun(START_OF_NET, steps) && RunNet(START_OF_NET, steps) == n;
    OneMoreStep(START_OF_NET, steps, step);
  }

  /** A request that only waits for its ACK, or also for a reply of type 1. */
  function Asking(f: SizedFrame, onlyAck: bool): NetStep {
    HostActs(Ask(Submission(f, ReplySpec(onlyAck, 0x01, 0), true, true, Direct(0))))
  }

  function Sending(sec: int): NetStep {
    HostSends(Timespec(sec, 0), true, Sent, [])
  }

  /** Two requests, and two copies of the first still on their way at instant 2. */
  predicate TwoCopiesOut(n: Net, onlyAck: bool) {
    && n.host.log == [] && |n.host.queue| == 2 && n.host.nextId == 1
    && (forall i :: 0 <= i < 2 ==> n.host.queue[i].expected == ReplySpec(onlyAck, 0x01, 0) && n.host.queue[i].hasResult)
    && n.host.queue[0].frame.sequenceId == 0 && n.host.queue[0].attempts == 2 && !n.host.queue[0].acked
    && n.host.queue[0].timeout == Some(Timespec(3, 0))
    && n.toDevice == [Copy(0, 0), Copy(0, 0)] && n.toHost == []
  }

  lemma TwoCopiesGetOut(f: SizedFrame, onlyAck: bool)
    ensures exists n: Net :: FairlyReached(n) && TwoCopiesOut(n, onlyAck)
  {
    assert FairRun(START_OF_NET, []) && RunNet(START_OF_NET, []) == START_OF_NET;
    var n1 := Next(START_OF_NET, Asking(f, onlyAck));
    ReachedNext(START_OF_NET, Asking(f, onlyAck));
    var n2 := Next(n1, Asking(f, onlyAck));
    ReachedNext(n1, Asking(f, onlyAck));
    var n3 := Next(n2, Sending(0));
    ReachedNext(n2, Sending(0));
    var n4 := Next(n3, Sending(2));
    ReachedNext(n3, Sending(2));
    assert TwoCopiesOut(n4, onlyAck);
  }

  /**
   * A slow device: three copies of the first request sent two seconds apart and all still on
   * their way, then the call that gives up on it.
   */
  lemma GivingUpTooEarlyHappens(f: SizedFrame)
    ensures exists n: Net, step: NetStep :: FairlyReached(n) && GivesUpTooEarly(n, step)
  {
    TwoCopiesGetOut(f, true);
    var n: Net :| FairlyReached(n) && TwoCopiesOut(n, true);
    ReachedNext(n, Sending(4));
    var late := Next(n, Sending(4));
    assert late.host.queue[0].attempts == 3 && late.toDevice[0].cause == 0;
    assert GivesUpTooEarly(late, Sending(6));
  }

  /** The first copy is answered with an ACK and a reply, and the host reads both. */
  lemma FirstCopyIsAnswered(n: Net, p: Packet)
    requires FairlyReached(n) && TwoCopiesOut(n, false) && Matches(ReplySpec(false, 0x01, 0), p)
    ensures exists t: Net ::
              && FairlyReached(t) && HeadNumber(t.host) == 1 && t.host.queue != []
              && t.host.queue[0].expected == ReplySpec(false, 0x01, 0)
              && t.toDevice == [Copy(0, 0)] && t.toHost == []
  {
    var read := HostReads(Timespec(3, 0), []);
    var n1 := Next(n, DeviceAnswers(0, [Some(p)]));
    ReachedNext(n, DeviceAnswers(0, [Some(p)]));
    assert n1.toDevice == [Copy(0, 0)] && n1.toHost == [AckReply(1, 0), DataReply(0, Some(p), Some(0))];
    var n2 := Next(n1, read);
    ReachedNext(n1, read);
    assert n2.toHost == [DataReply(0, Some(p), Some(0))] && HeadNumber(n2.host) == 0;
    ReachedNext(n2, read);
    assert Next(n2, read).toHost == [];
  }

  /**
   * A retransmission overtaken by its own answer: the second copy of request 0 is still on its
   * way when the device, unasked, sends a packet that answers request 1.
   */
  lemma EarlyAnswerHappens(f: SizedFrame)
    ensures exists n: Net, step: NetStep :: FairlyReached(n) && AnsweredTooEarly(n, step)
  {
    var p := Packet(0x01, 0, []);
    TwoCopiesGetOut(f, false);
    var n: Net :| FairlyReached(n) && TwoCopiesOut(n, false);
    FirstCopyIsAnswered(n, p);
    var t: Net :|
      && FairlyReached(t) && HeadNumber(t.host) == 1 && t.host.queue != []
      && t.host.queue[0].expected == ReplySpec(false, 0x01, 0)
      && t.toDevice == [Copy(0, 0)] && t.toHost == [];
    var told := Next(t, DeviceNotifies(1, Some(p)));
    ReachedNext(t, DeviceNotifies(1, Some(p)));
    assert OnItsWay(told.toDevice, told.toHost[1..], told.toDevice[0].cause);
    assert AnsweredTooEarly(told, HostReads(Timespec(3, 0), []));
  }
}
