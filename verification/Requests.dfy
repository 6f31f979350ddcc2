/**
 * The request engine of src/packetconn.c as a state machine: a FIFO of requests, the head of
 * which is on its way, with an alternating sequence bit, retries and deadlines.
 *
 * The clock, the results of socket calls, parsed packets and what callbacks submit are inputs.
 */
module Requests {
  import opened Bytes
  import opened Frames
  import opened Deadlines

  /** PACKET_MAX_TRIES. */
  const MAX_TRIES := 3

  const E_NO_ACK := -4
  const E_NO_REPLY := -5
  const E_CLOSED := -6

  // ----- packets and what a request expects -----------------------------------

  /**
   * A parsed packet: its type, the field reply_specifier_matches looks at, and the function
   * types it lists if it is a RET_SUPPORT_FUNCTION.
   */
  datatype Packet = Packet(packetType: byte, key: byte, types: seq<byte>)

  datatype ReplySpec = ReplySpec(onlyAck: bool, packetType: byte, extra: byte)

  /** Types matched by type alone, and types matched by their key as well. */
  const PLAIN_TYPES: set<byte> :=
    {0x00, 0x01, 0x04, 0x06, 0x07, 0x10, 0x22, 0x24, 0x50, 0x56, 0x66, 0xa6, 0xf0, 0xf6}
  const KEYED_TYPES: set<byte> :=
    {0x05, 0x11, 0x13, 0x25, 0x27, 0x51, 0x57, 0x58, 0x59, 0x67, 0x68, 0x69, 0xa7, 0xa8, 0xa9,
     0xf1, 0xf7, 0xf8, 0xf9}

  /** reply_specifier_matches; it does not look at onlyAck. */
  predicate Matches(spec: ReplySpec, p: Packet) {
    && p.packetType == spec.packetType
    && (spec.packetType in PLAIN_TYPES || (spec.packetType in KEYED_TYPES && spec.extra == p.key))
  }

  // ----- state -----------------------------------------------------------------

  /** Whom a request is for: a plain caller, or one of the two stages of mdr_device_init. */
  datatype Owner = Direct(id: nat) | InitProtocol(user: nat) | InitSupport(user: nat)

  /** The arguments of mdr_packetconn_make_request after the packet became a frame. */
  datatype Submission =
    Submission(frame: SizedFrame, expected: ReplySpec, hasResult: bool, hasError: bool, owner: Owner)

  /** struct request; `timeout` is None until it is first written. */
  datatype Request = Request(
    frame: SizedFrame, timeout: Option<Timespec>, attempts: nat, acked: bool,
    expected: ReplySpec, hasResult: bool, hasError: bool, owner: Owner)

  datatype Outcome = Replied(packet: Option<Packet>) | Ended(error: int)

  /** A request leaving the queue; `called` says whether a callback was there to be called. */
  datatype Completion = Completion(owner: Owner, id: byte, outcome: Outcome, called: bool)

  datatype Subscription = Subscription(spec: ReplySpec, hasResult: bool, userData: nat)

  /** A call of a subscription's callback. */
  datatype Notice = Notice(userData: nat, packet: Packet)

  /** The connection, together with the history of what it took on and finished. */
  datatype Host = Host(
    queue: seq<Request>, nextId: byte, subs: seq<Subscription>,
    submitted: seq<Submission>, log: seq<Completion>, notices: seq<Notice>)

  const FRESH := Host([], 0, [], [], [], [])

  // ----- submitting and advancing -------------------------------------------------

  /** C's ! on a byte. */
  function Not(b: byte): byte {
    if b == 0 then 1 else 0
  }

  function NewRequest(s: Submission): Request {
    Request(s.frame, None, 0, false, s.expected, s.hasResult, s.hasError, s.owner)
  }

  /** What becoming the head does to a request. */
  function Start(r: Request, id: byte): Request {
    r.(frame := WithChecksum(r.frame.(sequenceId := id)))
  }

  /** mdr_packetconn_make_request. */
  function Submit(h: Host, s: Submission): Host {
    var more := h.(submitted := h.submitted + [s]);
    if h.queue == [] then more.(queue := [Start(NewRequest(s), h.nextId)], nextId := Not(h.nextId))
    else more.(queue := h.queue + [NewRequest(s)])
  }

  /** mdr_packetconn_subscribe. */
  function Subscribe(h: Host, sub: Subscription): Host {
    h.(subs := h.subs + [sub])
  }

  /** What the library's user may do, in a callback as well: submit a request or subscribe. */
  datatype Act = Ask(s: Submission) | Listen(sub: Subscription)

  function Perform(h: Host, a: Act): Host {
    match a
    case Ask(s) => Submit(h, s)
    case Listen(sub) => Subscribe(h, sub)
  }

  function PerformAll(h: Host, acts: seq<Act>): Host
    decreases |acts|
  {
    if acts == [] then h else PerformAll(Perform(h, acts[0]), acts[1..])
  }

  /** The requests a callback makes, in order. */
  function Asked(acts: seq<Act>): seq<Submission> {
    if acts == [] then [] else (if acts[0].Ask? then [acts[0].s] else []) + Asked(acts[1..])
  }

  /** The subscriptions it makes, in order. */
  function Listened(acts: seq<Act>): seq<Subscription> {
    if acts == [] then [] else (if acts[0].Listen? then [acts[0].sub] else []) + Listened(acts[1..])
  }

  /** advance_frame_queue. */
  function Advance(h: Host): Host {
    if |h.queue| <= 1 then h.(queue := [])
    else h.(queue := [Start(h.queue[1], h.nextId)] + h.queue[2..], nextId := Not(h.nextId))
  }

  function Log(h: Host, outcome: Outcome): Host
    requires h.queue != []
  {
    var r := h.queue[0];
    var called := if outcome.Replied? then r.hasResult else r.hasError;
    h.(log := h.log + [Completion(r.owner, r.frame.sequenceId, outcome, called)])
  }

  /** The head is done: it leaves the queue, then its result callback runs. */
  function Complete(h: Host, packet: Option<Packet>, reaction: seq<Act>): Host
    requires h.queue != []
  {
    var next := Advance(Log(h, Replied(packet)));
    if h.queue[0].hasResult then PerformAll(next, reaction) else next
  }

  /** The head has failed: without an ACK the bit is taken back. */
  function Failed(h: Host): Host
    requires h.queue != []
  {
    var r := h.queue[0];
    Log(h.(nextId := if r.acked then h.nextId else Not(h.nextId)), Ended(if r.acked then E_NO_REPLY else E_NO_ACK))
  }

  /** ... its error callback runs, then it leaves the queue. */
  function Expire(h: Host, reaction: seq<Act>): Host
    requires h.queue != []
  {
    Advance(if h.queue[0].hasError then PerformAll(Failed(h), reaction) else Failed(h))
  }

  // ----- one call of mdr_packetconn_process_by_availability -------------------------

  /** New state, frames the frame connection took on, and whether -1 is returned. */
  datatype Stepped = Stepped(host: Host, sent: seq<SizedFrame>, failed: bool)

  predicate Overdue(r: Request, now: Clock) {
    r.timeout.Some? && Compare(now, r.timeout.value) > 0
  }

  predicate Due(r: Request, now: Clock) {
    r.attempts == 0 || Overdue(r, now)
  }

  function Transmit(h: Host, now: Clock, end: WriteEnd): Stepped
    requires h.queue != []
  {
    var r := h.queue[0];
    var counted := r.(attempts := r.attempts + 1, timeout := Some(Add(now, ACK_TIMEOUT)));
    match end
    case Sent => Stepped(h.(queue := h.queue[0 := counted]), [r.frame], false)
    case Buffered => Stepped(h, [r.frame], false)
    case Refused => Stepped(h, [], false)
    case Broken => Stepped(h, [], true)
  }

  /** The part of process that looks at the head request. */
  function HeadStep(h: Host, now: Clock, writable: bool, end: WriteEnd, reaction: seq<Act>): Stepped {
    if h.queue == [] then Stepped(h, [], false)
    else
      var r := h.queue[0];
      if r.attempts == 0 then
        if writable then Transmit(h, now, end) else Stepped(h, [], false)
      else if Overdue(r, now) then
        if r.acked || r.attempts >= MAX_TRIES then Stepped(Expire(h, reaction), [], false)
        else Transmit(h, now, end)
      else Stepped(h, [], false)
  }

  /** What mdr_frameconn_read_frame delivered; a data frame comes with its parsed packet. */
  datatype Message =
    Nothing | AckMessage(id: byte) | DataMessage(id: byte, packet: Option<Packet>) | OtherMessage

  predicate AcceptsAck(h: Host, id: byte) {
    h.queue != [] && !h.queue[0].acked && id == 1 - h.queue[0].frame.sequenceId as int
  }

  function ReceiveAck(h: Host, now: Clock, id: byte, reaction: seq<Act>): Host {
    if !AcceptsAck(h, id) then h
    else if h.queue[0].expected.onlyAck then Complete(h, None, reaction)
    else h.(queue := h.queue[0 := h.queue[0].(acked := true, timeout := Some(Add(now, REPLY_TIMEOUT)))])
  }

  function FirstReaction(reactions: seq<seq<Act>>): seq<Act> {
    if reactions == [] then [] else reactions[0]
  }

  function LaterReactions(reactions: seq<seq<Act>>): seq<seq<Act>> {
    if reactions == [] then [] else reactions[1..]
  }

  /** All the subscriptions callbacks still have in them. */
  function AllListened(reactions: seq<seq<Act>>): seq<Subscription> {
    if reactions == [] then [] else Listened(reactions[0]) + AllListened(reactions[1..])
  }

  /** A subscription's callback is called, and acts. */
  function Notify(h: Host, sub: Subscription, p: Packet, reaction: seq<Act>): Host {
    PerformAll(h.(notices := h.notices + [Notice(sub.userData, p)]), reaction)
  }

  predicate Wants(sub: Subscription, p: Packet) {
    Matches(sub.spec, p) && sub.hasResult
  }

  /**
   * The dispatch loop over the subscriptions still to visit: each callback that runs takes the
   * next reaction, and what it subscribes is visited too, behind the others.
   */
  function Dispatch(h: Host, subs: seq<Subscription>, p: Packet, reactions: seq<seq<Act>>): Host
    decreases |subs| + |AllListened(reactions)|
  {
    if subs == [] then h
    else if Wants(subs[0], p) then
      Dispatch(Notify(h, subs[0], p, FirstReaction(reactions)), subs[1..] + Listened(FirstReaction(reactions)), p,
               LaterReactions(reactions))
    else Dispatch(h, subs[1..], p, reactions)
  }

  predicate Answers(h: Host, p: Packet) {
    h.queue != [] && Matches(h.queue[0].expected, p)
  }

  function ReceiveData(h: Host, p: Packet, reactions: seq<seq<Act>>): Host {
    if Answers(h, p) then Complete(h, Some(p), FirstReaction(reactions))
    else Dispatch(h, h.subs, p, reactions)
  }

  /** The host's own ACK for a data frame. */
  function AckFor(id: byte): SizedFrame {
    WithChecksum(Frame(DATA_TYPE_ACK, Not(id), [], 0))
  }

  /** What the connection takes on of it; the code ignores whether it did. */
  function TakenAck(m: Message, end: WriteEnd): seq<SizedFrame> {
    if m.DataMessage? && (end == Sent || end == Buffered) then [AckFor(m.id)] else []
  }

  function Receive(h: Host, now: Clock, m: Message, reactions: seq<seq<Act>>): Host {
    match m
    case AckMessage(id) => ReceiveAck(h, now, id, FirstReaction(reactions))
    case DataMessage(_, Some(p)) => ReceiveData(h, p, reactions)
    case _ => h
  }

  /** What the environment contributes to one call. */
  datatype Input = Input(
    now: Clock, readable: bool, writable: bool, flushFails: bool, headWrite: WriteEnd,
    message: Message, ackWrite: WriteEnd, onExpire: seq<Act>, reactions: seq<seq<Act>>)

  /** Up to the head request; a failed flush ends the call at once. */
  function SendPart(h: Host, inp: Input): Stepped {
    if inp.writable && inp.flushFails then Stepped(h, [], true)
    else HeadStep(h, inp.now, inp.writable, inp.headWrite, inp.onExpire)
  }

  /** A failing read is not reported: line 470 assigns errno where it means to compare. */
  function Process(h: Host, inp: Input): Stepped {
    var head := SendPart(h, inp);
    if head.failed || !inp.readable then head
    else
      Stepped(Receive(head.host, inp.now, inp.message, inp.reactions),
              head.sent + TakenAck(inp.message, inp.ackWrite),
              inp.message.DataMessage? && inp.message.packet == None)
  }

  // ----- tearing down -----------------------------------------------------------

  /** mdr_packetconn_free_self: every pending request ends with MDR_E_CLOSED. */
  function Close(h: Host): Host
    decreases |h.queue|
  {
    if h.queue == [] then h
    else
      var logged := Log(h, Ended(E_CLOSED));
      Close(logged.(queue := h.queue[1..]))
  }

  // ----- polling -----------------------------------------------------------------

  datatype PollInfo = PollInfo(write: bool, timeout: int)

  /** mdr_packetconn_poll_info; `buffered` is mdr_frameconn_waiting_write. */
  function Poll(h: Host, buffered: bool, now: Clock): PollInfo {
    var write := buffered || (h.queue != [] && Due(h.queue[0], now));
    if h.queue != [] && h.queue[0].attempts != 0 && h.queue[0].timeout.Some? then
      var left := Sub(h.queue[0].timeout.value, now);
      PollInfo(write, if left.sec < 0 then 0 else left.sec * 1000 + left.nsec / 1_000_000)
    else PollInfo(write, -1)
  }

  // ----- runs ----------------------------------------------------------------------

  datatype Event =
    | Acting(act: Act)
    | Processing(inp: Input)
    | Unsubscribing(at: nat)

  function Step(h: Host, e: Event): Host {
    match e
    case Acting(a) => Perform(h, a)
    case Processing(inp) => Process(h, inp).host
    case Unsubscribing(at) => if at < |h.subs| then h.(subs := h.subs[..at] + h.subs[at + 1..]) else h
  }

  function Run(h: Host, events: seq<Event>): Host
    decreases |events|
  {
    if events == [] then h else Run(Step(h, events[0]), events[1..])
  }
}
