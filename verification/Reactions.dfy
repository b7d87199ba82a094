/** What a device task does with a CEC message (cecd/src/device.rs, DeviceTask::handle_message). */
module Reactions {
  import opened Wire
  import Operand

  type Address = u16

  /** A message as handle_message tells it apart. */
  datatype Event =
    | PowerRequest                        // GiveDevicePowerStatus
    | Pressed(command: Operand.Value)     // UserControlPressed
    | Released                            // UserControlReleased
    | StreamPath(address: Address)        // SetStreamPath
    | SourceAnnounced(address: Address)   // ActiveSource
    | StandbyRequest                      // Standby
    | RouteChanged(address: Address)      // RoutingChange, the new address
    | SourceRequest                       // RequestActiveSource
    | AudioMode(on: bool)                 // SetSystemAudioMode, SystemAudioModeStatus
    | Aborted                             // FeatureAbort
    | Unhandled                           // everything else, and what cannot be parsed

  const UNRECOGNIZED_OP: u8 := 0
  const INCORRECT_MODE: u8 := 1
  const UNDETERMINED: u8 := 5

  datatype Reply = PowerOn | Source(address: Address) | FeatureAbort(opcode: u8, reason: u8)

  /** What another daemon makes of a reply. */
  function AsReceived(reply: Reply): Event {
    match reply
    case PowerOn => Unhandled
    case Source(a) => SourceAnnounced(a)
    case FeatureAbort(_, _) => Aborted
  }

  function ReplyOpcode(reply: Reply): u8 {
    match reply
    case PowerOn => 0x90
    case Source(_) => 0x82
    case FeatureAbort(_, _) => 0x00
  }

  datatype Target = Initiator | Everyone

  /** What became of asking the external handler registered for the opcode. */
  datatype Handler = Absent | Accepted | Refused(reason: u8) | Errored | TimedOut

  /** What the reaction to a message depends on besides the task's own state. */
  datatype Context =
    Context(own: Address, opcode: u8, direct: bool, allowStandby: bool, suspends: bool, handler: Handler)

  datatype Routing = Routing(active: bool, awaitingWake: bool)

  predicate Selects(e: Event, own: Address) {
    (e.StreamPath? || e.SourceAnnounced? || e.RouteChanged?) && e.address == own
  }

  predicate Deselects(e: Event, own: Address) {
    (e.StreamPath? || e.SourceAnnounced? || e.RouteChanged?) && e.address != own
  }

  /** The routing state after a message; the three routing messages select exactly one address. */
  function Route(r: Routing, e: Event, own: Address): Routing {
    if Selects(e, own) then Routing(true, r.awaitingWake && !e.RouteChanged?)
    else if Deselects(e, own) then r.(active := false)
    else r
  }

  /** MessageHandler::handle, or the refusal when no handler is registered. */
  function HandlerReply(opcode: u8, h: Handler): Option<(Reply, Target)> {
    match h
    case Accepted => None
    case Absent => Some((FeatureAbort(opcode, UNRECOGNIZED_OP), Initiator))
    case Refused(reason) =>
      Some((FeatureAbort(opcode, if reason <= UNDETERMINED then reason else UNDETERMINED), Initiator))
    case Errored => Some((FeatureAbort(opcode, UNDETERMINED), Initiator))
    case TimedOut => Some((FeatureAbort(opcode, UNDETERMINED), Initiator))
  }

  /** The reply, judged in the routing state before the message. */
  function Answer(r: Routing, e: Event, c: Context): Option<(Reply, Target)> {
    if e.PowerRequest? then Some((PowerOn, Initiator))
    else if e.StreamPath? && e.address == c.own then Some((Source(c.own), Everyone))
    else if e.StandbyRequest? && c.allowStandby then
      if c.suspends then None else Some((FeatureAbort(c.opcode, INCORRECT_MODE), Initiator))
    else if e.SourceRequest? && (r.awaitingWake || r.active) then Some((Source(c.own), Everyone))
    else if (e.StandbyRequest? || e.SourceRequest? || e.Unhandled?) && c.direct then HandlerReply(c.opcode, c.handler)
    else None
  }

  function AddressOf(target: Target, initiator: LogicalAddress): LogicalAddress {
    if target.Initiator? then initiator else BROADCAST
  }

  lemma {:induction false} Targets(initiator: LogicalAddress)
    ensures AddressOf(Initiator, initiator) == initiator && AddressOf(Everyone, initiator) == 15
  {}

  /** Everything a task ever answers is its power state, its own address, or a valid abort of that opcode. */
  lemma {:induction false} AnswersAreProper(r: Routing, e: Event, c: Context)
    requires Answer(r, e, c).Some?
    ensures var (reply, target) := Answer(r, e, c).value;
      && (reply.PowerOn? ==> e.PowerRequest? && target.Initiator?)
      && (reply.Source? ==> reply.address == c.own && target.Everyone? && (e.StreamPath? || e.SourceRequest?))
      && (reply.FeatureAbort? ==>
            && reply.opcode == c.opcode && reply.reason <= UNDETERMINED && target.Initiator?
            && (c.direct || (e.StandbyRequest? && c.allowStandby && !c.suspends)))
  {}

  /** Whether handle_message has an arm of its own for the event; the others go to the handlers. */
  predicate Claimed(r: Routing, e: Event, c: Context) {
    match e
    case Unhandled => false
    case StandbyRequest => c.allowStandby
    case SourceRequest => r.awaitingWake || r.active
    case _ => true
  }

  /** What is claimed is answered in exactly these cases, and otherwise met with silence. */
  lemma {:induction false} ClaimedAnswers(r: Routing, e: Event, c: Context)
    requires Claimed(r, e, c)
    ensures var a := Answer(r, e, c);
      && (a == Some((PowerOn, Initiator)) <==> e.PowerRequest?)
      && (a == Some((Source(c.own), Everyone)) <==> e.SourceRequest? || (e.StreamPath? && e.address == c.own))
      && (a == Some((FeatureAbort(c.opcode, 1), Initiator)) <==> e.StandbyRequest? && !c.suspends)
      && (a.None? <==>
            || e.Pressed? || e.Released? || e.SourceAnnounced? || e.RouteChanged? || e.AudioMode? || e.Aborted?
            || (e.StreamPath? && e.address != c.own) || (e.StandbyRequest? && c.suspends))
  {}

  /**
   * What is not claimed is refused as unknown exactly if it was sent to this device and nobody has registered for its
   * opcode. A registered handler is believed if it accepts, or refuses with a reason there is; anything else it does
   * is an undetermined refusal. What was sent to everyone is never refused.
   */
  lemma {:induction false} UnclaimedAnswers(r: Routing, e: Event, c: Context)
    requires !Claimed(r, e, c)
    ensures var a := Answer(r, e, c);
      && (a.None? <==> !c.direct || c.handler.Accepted?)
      && (a == Some((FeatureAbort(c.opcode, 0), Initiator)) <==>
            c.direct && (c.handler.Absent? || c.handler == Refused(0)))
      && (forall reason: u8 :: 1 <= reason <= 4 ==>
            (a == Some((FeatureAbort(c.opcode, reason), Initiator)) <==> c.direct && c.handler == Refused(reason)))
      && (a == Some((FeatureAbort(c.opcode, 5), Initiator)) <==>
            c.direct && (c.handler.Errored? || c.handler.TimedOut? || (c.handler.Refused? && c.handler.reason >= 5)))
  {}

  /** The flag follows the last address named; only a routing change to this device ends the wait of a wake. */
  lemma {:induction false} RouteFollowsAddress(r: Routing, e: Event, own: Address)
    ensures Route(r, e, own).active <==>
      if e.StreamPath? || e.SourceAnnounced? || e.RouteChanged? then e.address == own else r.active
    ensures Route(r, e, own).awaitingWake <==> r.awaitingWake && e != RouteChanged(own)
  {}
}
