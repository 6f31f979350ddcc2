/**
 * mdr_device_init (src/device.c): two requests, the second made by the first one's result
 * handler, and one call of the user's callback for both.
 */
module Handshakes {
  import opened Bytes
  import opened Frames
  import opened Deadlines
  import opened Requests
  import opened RequestSafety
  import opened Devices
  import Codec
  import Connect

  const PROTOCOL_REPLY := ReplySpec(false, 0x01, 0)
  const SUPPORT_REPLY := ReplySpec(false, 0x07, 0)

  /** The request mdr_device_init makes. */
  function ProtocolRequest(user: nat): Submission {
    Submission(Frame(DATA_TYPE_DATA_MDR, 0, [0x00, 0x00], 0), PROTOCOL_REPLY, true, true, InitProtocol(user))
  }

  /** The request mdr_device_init_result_protocol_info makes. */
  function SupportRequest(user: nat): Submission {
    Submission(Frame(DATA_TYPE_DATA_MDR, 0, [0x06, 0x00], 0), SUPPORT_REPLY, true, true, InitSupport(user))
  }

  // ----- what the user and the device layer do ---------------------------------------

  /** What a user may do, in a callback as well: plain requests, subscriptions, mdr_device_init. */
  predicate Plain(a: Act) {
    a.Ask? ==> a.s.owner.Direct? || (a.s.owner.InitProtocol? && a.s == ProtocolRequest(a.s.owner.user))
  }

  predicate AllPlain(acts: seq<Act>) {
    forall i :: 0 <= i < |acts| ==> Plain(acts[i])
  }

  predicate AllReactionsPlain(reactions: seq<seq<Act>>) {
    forall i :: 0 <= i < |reactions| ==> AllPlain(reactions[i])
  }

  /**
   * The handler of a first reply makes the second request and calls no one; every other
   * callback, the second handler and error_callback_passthrough included, calls the user.
   */
  function OnMessage(h: Host, m: Message, reactions: seq<seq<Act>>): seq<seq<Act>> {
    if Completes(h, m) && h.queue[0].owner.InitProtocol? then [[Ask(SupportRequest(h.queue[0].owner.user))]]
    else reactions
  }

  datatype DeviceEvent =
    | UserActs(act: Act)
    | UserUnsubscribes(at: nat)
    | HeadRound(now: Clock, writable: bool, end: WriteEnd, reaction: seq<Act>)
    | Reading(now: Clock, m: Message, reactions: seq<seq<Act>>)

  function DeviceStep(h: Host, e: DeviceEvent): Host {
    match e
    case UserActs(a) => Perform(h, a)
    case UserUnsubscribes(at) => Step(h, Unsubscribing(at))
    case HeadRound(now, writable, end, reaction) => HeadStep(h, now, writable, end, reaction).host
    case Reading(now, m, reactions) => Receive(h, now, m, OnMessage(h, m, reactions))
  }

  function DeviceRun(h: Host, events: seq<DeviceEvent>): Host
    decreases |events|
  {
    if events == [] then h else DeviceRun(DeviceStep(h, events[0]), events[1..])
  }

  predicate PlainEvent(e: DeviceEvent) {
    match e
    case UserActs(a) => Plain(a)
    case UserUnsubscribes(_) => true
    case HeadRound(_, _, _, reaction) => AllPlain(reaction)
    case Reading(_, _, reactions) => AllReactionsPlain(reactions)
  }

  predicate PlainRun(events: seq<DeviceEvent>) {
    forall i :: 0 <= i < |events| ==> PlainEvent(events[i])
  }

  // ----- counting ---------------------------------------------------------------------

  predicate IsFor(o: Owner, user: nat) {
    o == InitProtocol(user) || o == InitSupport(user)
  }

  /** The user hears of a finished second stage, and of a failure in either, if a callback is there. */
  predicate CallsUser(c: Completion, user: nat) {
    c.called && (c.owner == InitSupport(user) || (c.owner == InitProtocol(user) && c.outcome.Ended?))
  }

  function Calls(log: seq<Completion>, user: nat): nat {
    if log == [] then 0
    else Calls(log[..|log| - 1], user) + if CallsUser(log[|log| - 1], user) then 1 else 0
  }

  function PendingStages(queue: seq<Request>, user: nat): nat {
    if queue == [] then 0
    else (if IsFor(queue[0].owner, user) then 1 else 0) + PendingStages(queue[1..], user)
  }

  /** Calls of mdr_device_init for this user. */
  function Inits(submitted: seq<Submission>, user: nat): nat {
    if submitted == [] then 0
    else
      Inits(submitted[..|submitted| - 1], user)
      + if submitted[|submitted| - 1].owner == InitProtocol(user) then 1 else 0
  }

  /** Handshakes that neither called the user back nor have a stage pending. */
  function Missing(h: Host, user: nat): int {
    Inits(h.submitted, user) - Calls(h.log, user) - PendingStages(h.queue, user)
  }

  lemma {:induction false} PendingSnoc(queue: seq<Request>, r: Request, user: nat)
    ensures PendingStages(queue + [r], user) == PendingStages(queue, user) + if IsFor(r.owner, user) then 1 else 0
  {
    if queue == [] {
      assert queue + [r] == [r];
    } else {
      assert (queue + [r])[1..] == queue[1..] + [r];
      PendingSnoc(queue[1..], r, user);
    }
  }

  lemma InitsSnoc(submitted: seq<Submission>, s: Submission, user: nat)
    ensures Inits(submitted + [s], user) == Inits(submitted, user) + if s.owner == InitProtocol(user) then 1 else 0
  {
    assert (submitted + [s])[..|submitted|] == submitted;
  }

  lemma SubmitPends(h: Host, s: Submission, user: nat)
    ensures PendingStages(Submit(h, s).queue, user) ==
            PendingStages(h.queue, user) + if IsFor(s.owner, user) then 1 else 0
  {
    if h.queue == [] {
      PendingSnoc([], Start(NewRequest(s), h.nextId), user);
      assert [] + [Start(NewRequest(s), h.nextId)] == Submit(h, s).queue;
    } else {
      PendingSnoc(h.queue, NewRequest(s), user);
    }
  }

  /** Only a second stage that comes from nowhere would unbalance the count. */
  lemma SubmitCounts(h: Host, s: Submission, user: nat)
    ensures Missing(Submit(h, s), user) == Missing(h, user) - if s.owner == InitSupport(user) then 1 else 0
  {
    InitsSnoc(h.submitted, s, user);
    SubmitPends(h, s, user);
  }

  lemma {:induction false} PerformAllCounts(h: Host, acts: seq<Act>, user: nat)
    requires AllPlain(acts)
    ensures Missing(PerformAll(h, acts), user) == Missing(h, user)
    decreases |acts|
  {
    if acts != [] {
      assert Plain(acts[0]);
      if acts[0].Ask? {
        SubmitCounts(h, acts[0].s, user);
      }
      PerformAllCounts(Perform(h, acts[0]), acts[1..], user);
    }
  }

  lemma {:induction false} DispatchCounts(h: Host, subs: seq<Subscription>, p: Packet, reactions: seq<seq<Act>>,
                                          user: nat)
    requires AllReactionsPlain(reactions)
    ensures Missing(Dispatch(h, subs, p, reactions), user) == Missing(h, user)
    decreases |subs| + |AllListened(reactions)|
  {
    if subs != [] {
      if Wants(subs[0], p) {
        var acts := FirstReaction(reactions);
        PerformAllCounts(h.(notices := h.notices + [Notice(subs[0].userData, p)]), acts, user);
        DispatchCounts(Notify(h, subs[0], p, acts), subs[1..] + Listened(acts), p, LaterReactions(reactions), user);
      } else {
        DispatchCounts(h, subs[1..], p, reactions, user);
      }
    }
  }

  // ----- what ending the head does to the count ------------------------------------------

  /** A finished stage is a call of the user, but for the first stage's reply. */
  lemma LogCounts(h: Host, nextId: byte, outcome: Outcome, user: nat)
    requires h.queue != [] && StageOk(h.queue[0])
    ensures var t := Log(h.(nextId := nextId), outcome);
            var owner := h.queue[0].owner;
            && t.submitted == h.submitted && t.queue == h.queue
            && Calls(t.log, user) ==
               Calls(h.log, user)
               + if owner == InitSupport(user) || (owner == InitProtocol(user) && outcome.Ended?) then 1 else 0
  {
    var t := Log(h.(nextId := nextId), outcome);
    assert t.log[..|h.log|] == h.log;
  }

  lemma UnlinkCounts(h: Host, user: nat)
    requires h.queue != []
    ensures PendingStages(Advance(h).queue, user) + (if IsFor(h.queue[0].owner, user) then 1 else 0) ==
            PendingStages(h.queue, user)
  {
    if |h.queue| > 1 {
      assert Advance(h).queue[1..] == h.queue[2..] && h.queue[1..][1..] == h.queue[2..];
    }
  }

  lemma HeadChangeDoesNotCount(h: Host, r: Request, user: nat)
    requires h.queue != [] && r.owner == h.queue[0].owner
    ensures Missing(h.(queue := h.queue[0 := r]), user) == Missing(h, user)
  {
    assert h.queue[0 := r][1..] == h.queue[1..];
  }

  /** An error callback runs in front of the unlinking. */
  lemma ExpireCounts(h: Host, reaction: seq<Act>, user: nat)
    requires h.queue != [] && AllPlain(reaction) && StageOk(h.queue[0])
    ensures Missing(Expire(h, reaction), user) == Missing(h, user)
  {
    var r := h.queue[0];
    var nextId := if r.acked then h.nextId else Not(h.nextId);
    var logged := Log(h.(nextId := nextId), ExpiryOutcome(r));
    LogCounts(h, nextId, ExpiryOutcome(r), user);
    PerformAllCounts(logged, reaction, user);
    PerformAllKeepsHead(logged, reaction);
    UnlinkCounts(if r.hasError then PerformAll(logged, reaction) else logged, user);
  }

  /** A handshake's first reply starts its second stage; its second reply is told to the user. */
  lemma CompleteCounts(h: Host, packet: Option<Packet>, reaction: seq<Act>, user: nat)
    requires h.queue != [] && StageOk(h.queue[0])
    requires if h.queue[0].owner.InitProtocol? then reaction == [Ask(SupportRequest(h.queue[0].owner.user))]
             else AllPlain(reaction)
    ensures Missing(Complete(h, packet, reaction), user) == Missing(h, user)
  {
    var t := Advance(Log(h, Replied(packet)));
    LogCounts(h, h.nextId, Replied(packet), user);
    UnlinkCounts(Log(h, Replied(packet)), user);
    if h.queue[0].owner.InitProtocol? {
      var next := SupportRequest(h.queue[0].owner.user);
      SubmitCounts(t, next, user);
      assert reaction[1..] == [];
      assert PerformAll(t, reaction) == PerformAll(Submit(t, next), reaction[1..]) == Submit(t, next);
    } else {
      PerformAllCounts(t, reaction, user);
    }
  }

  // ----- the handlers' requests ------------------------------------------------------------

  /** A handshake's request is one of the two, has both callbacks, and expects the reply its handler reads. */
  predicate StageOk(r: Request) {
    match r.owner
    case Direct(_) => true
    case InitProtocol(u) => IsStage(r, Connect.GetProtocolInfo, PROTOCOL_REPLY)
    case InitSupport(u) => IsStage(r, Connect.GetSupportFunction, SUPPORT_REPLY)
  }

  /** It carries this query, wants this reply, and calls someone back either way. */
  predicate IsStage(r: Request, q: Connect.Query, reply: ReplySpec) {
    && r.frame.dataType == DATA_TYPE_DATA_MDR
    && Connect.ParseQuery(r.frame.payload, 0) == Codec.Parsed(q, |r.frame.payload|)
    && r.expected == reply && r.hasResult && r.hasError
  }

  predicate StagesOk(queue: seq<Request>) {
    forall i :: 0 <= i < |queue| ==> StageOk(queue[i])
  }

  /** A result handler of the handshake was given a packet, and one of the type it reads. */
  predicate HandedOk(c: Completion) {
    c.outcome.Replied? ==>
      match c.owner
      case Direct(_) => true
      case InitProtocol(_) => c.outcome.packet.Some? && c.outcome.packet.value.packetType == 0x01
      case InitSupport(_) => c.outcome.packet.Some? && c.outcome.packet.value.packetType == 0x07
  }

  predicate StagesInv(h: Host) {
    StagesOk(h.queue) && forall i :: 0 <= i < |h.log| ==> HandedOk(h.log[i])
  }

  /** What may be performed: plain acts, and the second stage. */
  predicate StageAct(a: Act) {
    a.Ask? ==> StageOk(NewRequest(a.s))
  }

  lemma {:induction false} PerformAllStages(h: Host, acts: seq<Act>)
    requires StagesInv(h) && forall i :: 0 <= i < |acts| ==> StageAct(acts[i])
    ensures StagesInv(PerformAll(h, acts))
    decreases |acts|
  {
    if acts != [] {
      assert StageAct(acts[0]);
      PerformAllStages(Perform(h, acts[0]), acts[1..]);
    }
  }

  lemma {:induction false} DispatchStages(h: Host, subs: seq<Subscription>, p: Packet, reactions: seq<seq<Act>>)
    requires StagesInv(h) && AllReactionsPlain(reactions)
    ensures StagesInv(Dispatch(h, subs, p, reactions))
    decreases |subs| + |AllListened(reactions)|
  {
    if subs != [] {
      if Wants(subs[0], p) {
        var acts := FirstReaction(reactions);
        assert forall i :: 0 <= i < |acts| ==> Plain(acts[i]) && StageAct(acts[i]);
        PerformAllStages(h.(notices := h.notices + [Notice(subs[0].userData, p)]), acts);
        DispatchStages(Notify(h, subs[0], p, acts), subs[1..] + Listened(acts), p, LaterReactions(reactions));
      } else {
        DispatchStages(h, subs[1..], p, reactions);
      }
    }
  }

  lemma AdvanceStages(h: Host)
    requires StagesInv(h)
    ensures StagesInv(Advance(h))
  {
    if |h.queue| > 1 {
      assert StageOk(h.queue[1]);
    }
  }

  lemma LogStages(h: Host, nextId: byte, outcome: Outcome)
    requires StagesInv(h) && h.queue != []
    requires outcome.Replied? ==> HandedOk(Completion(h.queue[0].owner, 0, outcome, true))
    ensures StagesInv(Log(h.(nextId := nextId), outcome))
  {
  }

  lemma ExpireStages(h: Host, reaction: seq<Act>)
    requires StagesInv(h) && h.queue != [] && AllPlain(reaction)
    ensures StagesInv(Expire(h, reaction))
  {
    var r := h.queue[0];
    var nextId := if r.acked then h.nextId else Not(h.nextId);
    LogStages(h, nextId, ExpiryOutcome(r));
    var logged := Log(h.(nextId := nextId), ExpiryOutcome(r));
    assert forall i :: 0 <= i < |reaction| ==> Plain(reaction[i]) && StageAct(reaction[i]);
    PerformAllStages(logged, reaction);
    AdvanceStages(if r.hasError then PerformAll(logged, reaction) else logged);
  }

  lemma CompleteStages(h: Host, packet: Option<Packet>, reaction: seq<Act>)
    requires h.queue != [] && StagesInv(h)
    requires h.queue[0].owner.Direct? || (packet.Some? && packet.value.packetType == h.queue[0].expected.packetType)
    requires forall i :: 0 <= i < |reaction| ==> StageAct(reaction[i])
    ensures StagesInv(Complete(h, packet, reaction))
  {
    assert StageOk(h.queue[0]);
    LogStages(h, h.nextId, Replied(packet));
    var logged := Log(h, Replied(packet));
    AdvanceStages(logged);
    PerformAllStages(Advance(logged), reaction);
  }

  // ----- every step ---------------------------------------------------------------------------

  /** Nothing is missing, and every stage pending or finished is as it should be. */
  predicate DeviceInv(h: Host, user: nat) {
    StagesInv(h) && Missing(h, user) == 0
  }

  lemma HeadRoundKeeps(h: Host, now: Clock, writable: bool, end: WriteEnd, reaction: seq<Act>, user: nat)
    requires DeviceInv(h, user) && AllPlain(reaction)
    ensures DeviceInv(HeadStep(h, now, writable, end, reaction).host, user)
  {
    if GivesUp(h, now) {
      ExpireStages(h, reaction);
      ExpireCounts(h, reaction, user);
    } else if h.queue != [] {
      HeadChangeDoesNotCount(h, Resent(h.queue[0], now), user);
    }
  }

  lemma ReadingKeeps(h: Host, now: Clock, m: Message, reactions: seq<seq<Act>>, user: nat)
    requires DeviceInv(h, user) && AllReactionsPlain(reactions)
    ensures DeviceInv(Receive(h, now, m, OnMessage(h, m, reactions)), user)
  {
    if Completes(h, m) {
      var acts, packet := FirstReaction(OnMessage(h, m, reactions)), if m.AckMessage? then None else m.packet;
      assert StageOk(h.queue[0]);
      assert forall i :: 0 <= i < |FirstReaction(reactions)| ==> Plain(FirstReaction(reactions)[i]);
      CompleteStages(h, packet, acts);
      CompleteCounts(h, packet, acts, user);
    } else if m.AckMessage? && AcceptsAck(h, m.id) {
      HeadChangeDoesNotCount(h, Acked(h.queue[0], now), user);
    } else if m.DataMessage? && m.packet.Some? {
      DispatchStages(h, h.subs, m.packet.value, reactions);
      DispatchCounts(h, h.subs, m.packet.value, reactions, user);
    }
  }

  lemma DeviceStepKeeps(h: Host, e: DeviceEvent, user: nat)
    requires DeviceInv(h, user) && PlainEvent(e)
    ensures DeviceInv(DeviceStep(h, e), user)
  {
    match e
    case UserActs(a) =>
      assert PerformAll(h, [a]) == Perform(h, a);
      PerformAllStages(h, [a]);
      PerformAllCounts(h, [a], user);
    case UserUnsubscribes(_) =>
    case HeadRound(now, writable, end, reaction) => HeadRoundKeeps(h, now, writable, end, reaction, user);
    case Reading(now, m, reactions) => ReadingKeeps(h, now, m, reactions, user);
  }

  lemma {:induction false} DeviceRunKeeps(h: Host, events: seq<DeviceEvent>, user: nat)
    requires DeviceInv(h, user) && PlainRun(events)
    ensures DeviceInv(DeviceRun(h, events), user)
    decreases |events|
  {
    if events != [] {
      DeviceStepKeeps(h, events[0], user);
      DeviceRunKeeps(DeviceStep(h, events[0]), events[1..], user);
    }
  }

  /** Tearing down tells the user of every stage still pending. */
  lemma {:induction false} CloseBalances(h: Host, user: nat)
    requires Missing(h, user) == 0 && StagesOk(h.queue)
    ensures Inits(h.submitted, user) == Calls(Close(h).log, user)
    decreases |h.queue|
  {
    if h.queue != [] {
      assert StageOk(h.queue[0]);
      LogCounts(h, h.nextId, Ended(E_CLOSED), user);
      CloseBalances(Log(h, Ended(E_CLOSED)).(queue := h.queue[1..]), user);
    }
  }

  /**
   * In every run, with subscriptions coming and going and callbacks that subscribe, ask or start
   * over: each call of mdr_device_init has led to one call of the user's callbacks or has one
   * stage pending, and tearing down leaves none pending.
   */
  lemma OneCallPerInit(events: seq<DeviceEvent>, user: nat)
    requires PlainRun(events)
    ensures var h := DeviceRun(FRESH, events);
            && Inits(h.submitted, user) == Calls(h.log, user) + PendingStages(h.queue, user)
            && Inits(h.submitted, user) == Calls(Close(h).log, user)
  {
    DeviceRunKeeps(FRESH, events, user);
    CloseBalances(DeviceRun(FRESH, events), user);
  }

  /** In every run, a handshake's result handler gets a packet, of the type it reads. */
  lemma HandlersGetTheirPacket(events: seq<DeviceEvent>, i: nat)
    requires PlainRun(events) && i < |DeviceRun(FRESH, events).log|
    ensures HandedOk(DeviceRun(FRESH, events).log[i])
  {
    DeviceRunKeeps(FRESH, events, 0);
  }

  lemma StageAsks(r: Request, q: Connect.Query, reply: ReplySpec)
    requires IsStage(r, q, reply) && Connect.QueryOk(q)
    ensures r.frame.payload == Connect.PrintQuery(q)
  {
    Connect.QueryFaithful();
    assert Codec.CanonicalAt(Connect.ParseQuery, Connect.PrintQuery, Connect.QueryOk, r.frame.payload, 0);
  }

  /**
   * In every run, whatever stage of a handshake is pending, its frame asks the device what that
   * stage is for, and what it waits for is the reply to just that.
   */
  lemma StagesAskTheirQuestion(events: seq<DeviceEvent>, i: nat)
    requires PlainRun(events) && i < |DeviceRun(FRESH, events).queue|
    ensures AsksItsQuestion(DeviceRun(FRESH, events).queue[i])
  {
    DeviceRunKeeps(FRESH, events, 0);
    AllAskTheirQuestion(DeviceRun(FRESH, events).queue);
  }

  lemma AllAskTheirQuestion(queue: seq<Request>)
    requires StagesOk(queue)
    ensures forall i :: 0 <= i < |queue| ==> AsksItsQuestion(queue[i])
  {
    forall i | 0 <= i < |queue|
      ensures AsksItsQuestion(queue[i])
    {
      StageAsksItsQuestion(queue[i]);
    }
  }

  predicate AsksItsQuestion(r: Request) {
    match r.owner
    case Direct(_) => true
    case InitProtocol(_) =>
      && r.frame.payload == [0x00, 0x00] == Connect.PrintQuery(Connect.GetProtocolInfo)
      && r.expected == ReplySpec(false, 0x01, 0) && r.hasResult && r.hasError
    case InitSupport(_) =>
      && r.frame.payload == [0x06, 0x00] == Connect.PrintQuery(Connect.GetSupportFunction)
      && r.expected == ReplySpec(false, 0x07, 0) && r.hasResult && r.hasError
  }

  lemma StageAsksItsQuestion(r: Request)
    requires StageOk(r)
    ensures AsksItsQuestion(r)
  {
    match r.owner
    case Direct(_) =>
    case InitProtocol(_) => StageAsks(r, Connect.GetProtocolInfo, PROTOCOL_REPLY);
    case InitSupport(_) => StageAsks(r, Connect.GetSupportFunction, SUPPORT_REPLY);
  }

  // ----- the flags -----------------------------------------------------------------------------

  /** The list that a successful second stage was given. */
  predicate Lists(c: Completion, f: Flag) {
    && c.owner.InitSupport? && c.outcome.Replied? && c.outcome.packet.Some?
    && Names(c.outcome.packet.value.types, f)
  }

  predicate Told(log: seq<Completion>, f: Flag) {
    exists i :: 0 <= i < |log| && Lists(log[i], f)
  }

  lemma ToldOneMore(log: seq<Completion>, k: nat, f: Flag)
    requires k < |log|
    ensures Told(log[..k + 1], f) <==> Told(log[..k], f) || Lists(log[k], f)
  {
    if Told(log[..k], f) {
      var i :| 0 <= i < k && Lists(log[..k][i], f);
      assert log[..k + 1][i] == log[..k][i];
    }
    if Lists(log[k], f) {
      assert log[..k + 1][k] == log[k];
    }
    if Told(log[..k + 1], f) {
      var i :| 0 <= i < k + 1 && Lists(log[..k + 1][i], f);
      assert i < k ==> log[..k][i] == log[..k + 1][i];
    }
  }

  /**
   * A fresh device that sees a run through: its handler is called for each successful second
   * stage, and then a flag is set exactly if the list of one of those replies names it.
   */
  method FollowRun(device: Device, events: seq<DeviceEvent>)
    requires PlainRun(events) && device.supported == {}
    modifies device`supported
    ensures forall f :: f in device.supported <==> Told(DeviceRun(FRESH, events).log, f)
  {
    var log := DeviceRun(FRESH, events).log;
    for k := 0 to |log|
      invariant forall f :: f in device.supported <==> Told(log[..k], f)
    {
      HandlersGetTheirPacket(events, k);
      forall f {
        ToldOneMore(log, k, f);
      }
      if log[k].owner.InitSupport? && log[k].outcome.Replied? {
        device.NoteSupported(log[k].outcome.packet.value.types);
      }
    }
    assert log[..|log|] == log;
  }
}
