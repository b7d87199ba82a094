/** The task behind one CEC device: its routing state, its keyboard and its deferred callbacks (cecd/src/device.rs). */
module DeviceTask {
  import opened Wire
  import opened Reactions
  import opened Keyboard

  const TV: LogicalAddress := 0
  const LOG_ADDR_RETRIES := 20
  const WAKE_TRIES := 2
  const REPLY_RETRIES := 4
  const NO_PHYSICAL_ADDRESS: Address := 0xFFFF

  // ---------------------------------------------------------------- history of the active flag

  /** What can change who is the active source: a message, heard under the address held then, or a local activation. */
  datatype Happening = Heard(event: Event, own: Address) | Activated

  function ActiveAfter(history: seq<Happening>): bool {
    if history == [] then false
    else
      match history[|history| - 1]
      case Activated => true
      case Heard(event, own) => Route(Routing(ActiveAfter(history[..|history| - 1]), false), event, own).active
  }

  /** The changes the history makes to the flag, in order. */
  function Changes(history: seq<Happening>): seq<bool> {
    if history == [] then []
    else
      var before := history[..|history| - 1];
      Changes(before) + if ActiveAfter(history) == ActiveAfter(before) then [] else [ActiveAfter(history)]
  }

  /** The published changes alternate, starting with active, and their number gives the flag. */
  lemma {:induction false} ChangesAlternate(history: seq<Happening>)
    ensures forall i :: 0 <= i < |Changes(history)| ==> (Changes(history)[i] <==> i % 2 == 0)
    ensures ActiveAfter(history) <==> |Changes(history)| % 2 == 1
  {
    if history == [] {
    } else {
      ChangesAlternate(history[..|history| - 1]);
    }
  }

  /** Only the messages that name an address, and local activations, matter to the flag. */
  lemma {:induction false} LastSelectionDecides(history: seq<Happening>, k: nat)
    requires k < |history| && (history[k].Heard? ==> Names(history[k].event))
    requires forall i :: k < i < |history| ==> history[i].Heard? && !Names(history[i].event)
    ensures ActiveAfter(history) <==> history[k].Activated? || history[k].event.address == history[k].own
  {
    if |history| - 1 == k {
    } else {
      LastSelectionDecides(history[..|history| - 1], k);
    }
  }

  predicate Names(e: Event) { e.StreamPath? || e.SourceAnnounced? || e.RouteChanged? }

  // ---------------------------------------------------------------- transmit results

  datatype TxError =
    | TimedOut | Aborted | ArbLost | Nack | LowDrive | MaxRetries | Unknown
    | TxUnknown | TxAborted  // TxError::UnknownError, TxError::Aborted
    | System

  datatype TxStatus =
    TxStatus(timeout: bool, aborted: bool, arbLost: bool, nack: bool, lowDrive: bool, maxRetries: bool)

  datatype TxResult = Sent | Failed(error: TxError)

  /** The failures a reply is tried again for. */
  predicate Retryable(r: TxResult) { r == Failed(TxUnknown) || r == Failed(TxAborted) }

  /** From<CEC_TX_STATUS>: no status the kernel reports becomes one of the two errors a reply is retried for. */
  function FromStatus(status: TxStatus): (e: TxError)
    ensures !Retryable(Failed(e))
    // The first flag that is set tells the error.
    ensures e == TxError.TimedOut <==> status.timeout
    ensures e == TxError.Aborted <==> status.aborted && !status.timeout
    ensures e == ArbLost <==> status.arbLost && !status.timeout && !status.aborted
    ensures e == Nack <==> status.nack && !(status.timeout || status.aborted || status.arbLost)
    ensures e == LowDrive <==> status.lowDrive && !(status.timeout || status.aborted || status.arbLost || status.nack)
    ensures e == MaxRetries <==> status == TxStatus(false, false, false, false, false, true)
    ensures e == Unknown <==> status == TxStatus(false, false, false, false, false, false)
  {
    if status.timeout then TxError.TimedOut
    else if status.aborted then TxError.Aborted
    else if status.arbLost then ArbLost
    else if status.nack then Nack
    else if status.lowDrive then LowDrive
    else if status.maxRetries then MaxRetries
    else Unknown
  }

  /** What a transmission can come to: success, a failed system call or unreadable frame, or a status that says why. */
  ghost predicate FromKernel(r: TxResult) {
    r.Sent? || r == Failed(System) || exists status :: r == Failed(FromStatus(status))
  }

  ghost predicate KernelResults(results: nat -> TxResult) { forall k: nat :: FromKernel(results(k)) }

  lemma {:induction false} KernelResultsAreFinal(r: TxResult)
    requires FromKernel(r)
    ensures !Retryable(r)
  {}

  /** As often as the loop may try: with the results the kernel gives, only once. */
  ghost function MostTries(results: nat -> TxResult): nat {
    if KernelResults(results) then 1 else REPLY_RETRIES
  }

  /** The reply loop of handle_message, over the results its transmissions get. */
  method Transmit(results: nat -> TxResult) returns (ok: bool, tries: nat)
    ensures 1 <= tries <= MostTries(results) <= 4
    ensures ok <==> results(tries - 1).Sent?
    ensures forall k :: 0 <= k < tries - 1 ==> results(k) in {Failed(TxUnknown), Failed(TxAborted)}
    ensures !ok ==> tries == 4 || results(tries - 1) !in {Failed(TxUnknown), Failed(TxAborted)}
  {
    tries := 0;
    if KernelResults(results) { KernelResultsAreFinal(results(0)); }
    hide FromKernel;
    for i := 0 to REPLY_RETRIES
      invariant tries == i < REPLY_RETRIES
      invariant forall k :: 0 <= k < i ==> Retryable(results(k))
    {
      var result := results(i);
      tries := i + 1;
      if result.Sent? { break; }
      if i == REPLY_RETRIES - 1 || !Retryable(result) { return false, tries; }
    }
    ok := true;
  }

  // ---------------------------------------------------------------- deferred callbacks

  datatype Callback = Activating | Waking | AnnouncingPower

  /** A queued callback and its place in the order of submission. */
  datatype Deferred = Deferred(id: nat, callback: Callback)

  function Ids(queue: seq<Deferred>): (ids: seq<nat>)
    ensures |ids| == |queue|
  {
    seq(|queue|, i requires 0 <= i < |queue| => queue[i].id)
  }

  function UpTo(n: nat): (s: seq<nat>)
    ensures |s| == n
  {
    seq(n, i => i)
  }

  predicate Ascending(ids: seq<nat>) {
    forall i, j :: 0 <= i < j < |ids| ==> ids[i] < ids[j]
  }

  datatype ActivateResult = Announced | NoAddress(reconfigured: bool, lost: bool) | Disconnected | OtherFailure

  /** What the outside world does to a callback: the active signal, the device's answers. */
  datatype Outcome = Outcome(signalled: bool, sent: bool, woken: bool, activations: nat -> ActivateResult)

  /** What the outside world does to a message. */
  datatype World = World(
    received: bool,             // received_message was signalled
    notified: bool,             // the signal of the message's own branch
    signalled: bool,            // active_changed, if it comes to that
    address: Option<Address>,   // get_physical_address
    downWritten: bool, upWritten: bool,
    allowStandby: bool, suspends: bool, handler: Handler,
    results: nat -> TxResult)

  /** Which of the three property signals of a state change get through. */
  datatype Signals = Signals(physical: bool, vendor: bool, logical: bool)

  /** What a state change finds: the device's report, and how the outside world takes what is done about it. */
  datatype Change = Change(
    physAddr: Address, vendorId: int, logAddrs: seq<LogicalAddress>,
    signals: Signals,
    configured: bool,           // configure_dev, if it comes to a retry
    requestActive: bool,        // the configuration asks for an activation
    noAddress: bool,            // the device holds no address when that is submitted
    outcomes: nat -> Outcome, later: Outcome)

  /** What the interface has published of an earlier report. */
  datatype Cache = Cache(physAddr: Address, vendorId: int, logAddrs: seq<LogicalAddress>)

  /** Whether a state change gets past the physical address and the vendor. */
  predicate Reached(cache: Cache, c: Change) {
    (c.signals.physical || c.physAddr == cache.physAddr) && (c.signals.vendor || c.vendorId == cache.vendorId)
  }

  /** Whether a state change gets as far as installing a new, non-empty list and telling D-Bus about it. */
  predicate Drains(cache: Cache, c: Change) {
    Reached(cache, c) && c.signals.logical && c.logAddrs != cache.logAddrs && c.logAddrs != []
  }

  predicate Retries(cache: Cache, tries: int, c: Change) {
    Reached(cache, c) && c.logAddrs == cache.logAddrs == [] && c.physAddr != NO_PHYSICAL_ADDRESS && tries > 0
  }

  /** A value is cached before it is published, so a signal that fails leaves the new value behind. */
  function CacheAfter(cache: Cache, c: Change): Cache {
    if c.physAddr != cache.physAddr && !c.signals.physical then cache.(physAddr := c.physAddr)
    else if !Reached(cache, c) then cache.(physAddr := c.physAddr, vendorId := c.vendorId)
    else Cache(c.physAddr, c.vendorId, c.logAddrs)
  }

  function CacheAfterAll(cache: Cache, changes: seq<Change>): Cache {
    if changes == [] then cache
    else CacheAfter(CacheAfterAll(cache, changes[..|changes| - 1]), changes[|changes| - 1])
  }

  /** One of the changes runs the queue. */
  predicate AnyDrains(cache: Cache, changes: seq<Change>) {
    changes != [] &&
    var before, last := changes[..|changes| - 1], changes[|changes| - 1];
    AnyDrains(cache, before) || Drains(CacheAfterAll(cache, before), last)
  }

  /**
   * A change that reports a list in vain, because its signal fails or because the list is cached already, and
   * changes after it that report the same list run nothing, however well they go. Had the list been new and the
   * signal got through, the first would have run the queue.
   */
  lemma {:induction false} InVainNeverDrains(cache: Cache, first: Change, later: seq<Change>)
    requires Reached(cache, first) && (!first.signals.logical || first.logAddrs == cache.logAddrs)
    requires forall k :: 0 <= k < |later| ==> later[k].logAddrs == first.logAddrs
    ensures !AnyDrains(cache, [first] + later)
    ensures CacheAfterAll(cache, [first] + later).logAddrs == first.logAddrs
    ensures first.logAddrs != [] && first.logAddrs != cache.logAddrs ==>
      Drains(cache, first.(signals := first.signals.(logical := true)))
  {
    var all := [first] + later;
    if later == [] {
      assert all[..0] == [];
    } else {
      assert all[..|all| - 1] == [first] + later[..|later| - 1];
      InVainNeverDrains(cache, first, later[..|later| - 1]);
    }
  }

  /** Each callback submitted is queued or has run, exactly once; the queue is in order of submission. */
  ghost predicate Balanced(ran: seq<nat>, queue: seq<Deferred>, submitted: seq<Callback>) {
    && multiset(ran) + multiset(Ids(queue)) == multiset(UpTo(|submitted|))
    && Ascending(Ids(queue))
    && (forall i :: 0 <= i < |queue| ==> queue[i].id < |submitted| && queue[i].callback == submitted[queue[i].id])
  }

  /** One more callback, queued or run at once. */
  lemma {:induction false} OneMore(ran: seq<nat>, queue: seq<Deferred>, submitted: seq<Callback>, callback: Callback)
    requires Balanced(ran, queue, submitted)
    ensures Balanced(ran, queue + [Deferred(|submitted|, callback)], submitted + [callback])
    ensures Balanced(ran + [|submitted|], queue, submitted + [callback])
  {
    var n := |submitted|;
    var longer := queue + [Deferred(n, callback)];
    assert UpTo(n + 1) == UpTo(n) + [n];
    assert Ids(longer) == Ids(queue) + [n];
    forall i | 0 <= i < |queue| ensures Ids(queue)[i] == queue[i].id < n {}
  }

  lemma {:induction false} AllRun(ran: seq<nat>, queue: seq<Deferred>, submitted: seq<Callback>)
    requires Balanced(ran, queue, submitted)
    ensures Balanced(ran + Ids(queue), [], submitted)
  {
    assert Ids([]) == [];
  }

  /** No callback runs twice, and none is queued that has run. */
  lemma {:induction false} RunsOnce(ran: seq<nat>, queue: seq<Deferred>, submitted: seq<Callback>, id: nat)
    requires Balanced(ran, queue, submitted)
    ensures multiset(ran)[id] + multiset(Ids(queue))[id] == if id < |submitted| then 1 else 0
  {
    UpToOnce(|submitted|, id);
    assert (multiset(ran) + multiset(Ids(queue)))[id] == multiset(UpTo(|submitted|))[id];
  }

  lemma {:induction false} UpToOnce(n: nat, id: nat)
    ensures multiset(UpTo(n))[id] == if id < n then 1 else 0
  {
    if n == 0 {
    } else {
      UpToOnce(n - 1, id);
      assert UpTo(n) == UpTo(n - 1) + [n - 1];
    }
  }

  lemma {:induction false} HaveRun(before: seq<nat>, queue: seq<Deferred>, after: seq<nat>)
    ensures before + Ids(queue) <= after ==> forall i :: 0 <= i < |queue| ==> queue[i].id in after
  {
    if before + Ids(queue) <= after {
      forall i | 0 <= i < |queue| ensures queue[i].id in after {
        assert after[|before| + i] == Ids(queue)[i];
      }
    }
  }

  /** The log of replies has grown by one to most copies of the answer, or not at all if there is none. */
  ghost predicate Sends(before: seq<(Reply, LogicalAddress)>, after: seq<(Reply, LogicalAddress)>,
                        answer: Option<(Reply, Target)>, initiator: LogicalAddress, most: nat) {
    if answer.None? then after == before
    else
      exists n: nat :: 1 <= n <= most &&
        after == before + Copies(answer.value.0, AddressOf(answer.value.1, initiator), n)
  }

  lemma {:induction false} SendsCopies(before: seq<(Reply, LogicalAddress)>, answer: Option<(Reply, Target)>,
                                       initiator: LogicalAddress, n: nat, most: nat)
    requires answer.Some? ==> 1 <= n <= most
    ensures answer.Some? ==>
      Sends(before, before + Copies(answer.value.0, AddressOf(answer.value.1, initiator), n), answer, initiator, most)
    ensures answer.None? ==> Sends(before, before, answer, initiator, most)
  {}

  /** What is left of the counter and the retries spent never exceed one full counter more than the list was emptied. */
  ghost predicate Bounded(left: int, retries: nat, emptied: nat) {
    0 <= left <= LOG_ADDR_RETRIES && left + retries <= LOG_ADDR_RETRIES * (1 + emptied)
  }

  lemma {:induction false} StaysBounded(left: int, retries: nat, emptied: nat)
    requires Bounded(left, retries, emptied)
    ensures left > 0 ==> Bounded(left - 1, retries + 1, emptied)
    ensures Bounded(LOG_ADDR_RETRIES, retries, emptied + 1)
  {}

  lemma {:induction false} IdsTake(queue: seq<Deferred>, i: nat)
    requires i < |queue|
    ensures Ids(queue)[..i + 1] == Ids(queue)[..i] + [queue[i].id]
  {}

  /** Messages that name no address leave the routing state alone; keys and audio get no reply. */
  lemma {:induction false} Indifferent(r: Routing, e: Event, c: Context)
    ensures !Names(e) ==> Route(r, e, c.own) == r
    ensures e.Pressed? || e.Released? || e.AudioMode? ==> !Names(e) && Answer(r, e, c).None?
  {}

  class DeviceTask {
    var active: bool
    var cachedActive: bool
    var awaitingWake: bool
    var activeKey: Option<Command>
    var uinput: UInputDevice?
    var audioLogAddr: LogicalAddress
    var cachedAudioLogAddr: LogicalAddress
    var logAddrTry: int
    var cachedLogAddrs: seq<LogicalAddress>
    var cachedPhysAddr: Address
    var cachedVendorId: int
    var queue: seq<Deferred>

    var emitted: seq<bool>                     // attempted Active-changed signals
    var transmitted: seq<(Reply, LogicalAddress)>      // replies handed to the device, each attempt
    var requests: nat                          // RequestActiveSource tasks spawned
    ghost var history: seq<Happening>
    var submitted: seq<Callback>               // every callback handed to with_logical_address
    ghost var ran: seq<nat>                    // the callbacks run, by order of submission
    ghost var retries: nat
    ghost var emptied: nat

    /** The published flag is the protocol's flag, and both follow from what happened. */
    ghost predicate Published()
      reads this`active, this`cachedActive, this`history, this`emitted
    {
      active == cachedActive == ActiveAfter(history) && emitted == Changes(history)
    }

    /** Nothing is held on the keyboard but the key of the command in force. */
    ghost predicate NoStuckKeys()
      reads this`uinput, this`activeKey, uinput
    {
      uinput != null ==> uinput.isOpen && Held(uinput.events) <= Mapped(uinput.mappings, activeKey)
    }

    /** Each callback submitted is queued or has run, exactly once; the queue is in order of submission. */
    ghost predicate Conserved()
      reads this`queue, this`ran, this`submitted
    {
      Balanced(ran, queue, submitted)
    }

    ghost predicate BoundedRetries()
      reads this`logAddrTry, this`retries, this`emptied
    {
      Bounded(logAddrTry, retries, emptied)
    }

    ghost predicate Valid()
      reads this, uinput
    {
      Published() && NoStuckKeys() && Conserved() && BoundedRetries()
    }

    function Events(): seq<KeyEvent>
      reads this`uinput, uinput
    {
      if uinput == null then [] else uinput.events
    }

    function CurrentRouting(): Routing
      reads this`active, this`awaitingWake
    {
      Routing(active, awaitingWake)
    }

    constructor (logAddrs: seq<LogicalAddress>, physAddr: Address, vendorId: int)
      ensures Valid() && uinput == null && queue == [] && history == [] && submitted == [] && ran == []
      ensures cachedLogAddrs == logAddrs && cachedPhysAddr == physAddr && cachedVendorId == vendorId
      ensures !active && !awaitingWake && activeKey == None && audioLogAddr == cachedAudioLogAddr == 0
      ensures logAddrTry == 20 && emitted == [] && transmitted == [] && requests == 0
    {
      active, cachedActive, awaitingWake, activeKey, uinput := false, false, false, None, null;
      audioLogAddr, cachedAudioLogAddr, logAddrTry := TV, TV, LOG_ADDR_RETRIES;
      cachedLogAddrs, cachedPhysAddr, cachedVendorId := logAddrs, physAddr, vendorId;
      queue, emitted, transmitted, requests := [], [], [], 0;
      history, submitted, ran, retries, emptied := [], [], [], 0, 0;
    }

    /** set_active for a message that names an address, heard while the device holds own. */
    method Select(e: Event, own: Address, signalled: bool) returns (ok: bool)
      requires Published() && Names(e)
      modifies this`active, this`cachedActive, this`emitted, this`history
      ensures Published() && active == Route(old(CurrentRouting()), e, own).active
      ensures history == old(history) + [Heard(e, own)]
      ensures ok <==> signalled || old(active) == active
    {
      ghost var cause := Heard(e, own);
      assert (history + [cause])[..|history|] == history;
      ok := SetActive(e.address == own, signalled, cause);
    }

    method SetActive(newActive: bool, signalled: bool, ghost cause: Happening) returns (ok: bool)
      requires Published() && ActiveAfter(history + [cause]) == newActive
      modifies this`active, this`cachedActive, this`emitted, this`history
      ensures Published() && active == newActive && history == old(history) + [cause]
      ensures ok <==> signalled || old(active) == newActive
    {
      history := history + [cause];
      assert history[..|history| - 1] == old(history);
      if active == newActive { return true; }
      active := newActive;
      ok := true;
      if cachedActive != newActive {
        cachedActive := newActive;
        emitted := emitted + [newActive];
        ok := signalled;
      }
    }

    /** pending_activate: the request is left to a spawned task. */
    method PendingActivate(signalled: bool) returns (ok: bool)
      requires Published()
      modifies this`active, this`cachedActive, this`emitted, this`history, this`requests
      ensures Published() && active && requests == old(requests) + 1 && history == old(history) + [Activated]
      ensures ok <==> signalled || old(active)
    {
      requests := requests + 1;
      ok := SetActive(true, signalled, Activated);
    }

    // -------------------------------------------------------------- messages

    function ContextOf(opcode: u8, destination: LogicalAddress, w: World): Context {
      Context(if w.address.Some? then w.address.value else 0, opcode, destination != BROADCAST,
              w.allowStandby, w.suspends, w.handler)
    }

    /** What an answer depends on is what the message and the world say; logical address 15 is everyone. */
    lemma {:induction false} ContextSpelledOut(opcode: u8, destination: LogicalAddress, w: World)
      ensures var c := ContextOf(opcode, destination, w);
        && c.opcode == opcode && (c.direct <==> destination != 15) && c.handler == w.handler
        && c.allowStandby == w.allowStandby && c.suspends == w.suspends
        && (w.address.Some? ==> c.own == w.address.value)
    {}

    /** A message is understood once its arrival is announced and, if it names an address, the device's own is known. */
    lemma {:induction false} UnderstoodSpelledOut(e: Event, w: World)
      ensures Understood(e, w) <==>
        w.received && (w.address.Some? || !(e.StreamPath? || e.SourceAnnounced? || e.RouteChanged?))
    {}

    /** The keyboard part of a press. */
    method Press(command: Command, w: World) returns (ok: bool)
      requires NoStuckKeys()
      modifies this`activeKey, uinput
      ensures NoStuckKeys() && SameMappings(old(uinput), uinput)
      ensures activeKey == if ok then Some(command) else old(activeKey)
      ensures ok && uinput != null ==> Held(uinput.events) == Mapped(uinput.mappings, Some(command))
      ensures w.upWritten && w.downWritten ==> ok
    {
      if uinput != null {
        if activeKey.Some? {
          var up := uinput.KeyUp(activeKey.value, w.upWritten);
          if !up { return false; }
        }
        assert Held(uinput.events) == {};
        var down := uinput.KeyDown(command, w.downWritten);
        if !down { return false; }
      }
      activeKey := Some(command);
      ok := true;
    }

    method Release(w: World) returns (ok: bool)
      requires NoStuckKeys()
      modifies this`activeKey, uinput
      ensures NoStuckKeys() && SameMappings(old(uinput), uinput)
      ensures activeKey == if ok then None else old(activeKey)
      ensures ok && uinput != null ==> Held(uinput.events) == {}
      ensures w.upWritten ==> ok
    {
      if activeKey.Some? {
        if uinput != null {
          var up := uinput.KeyUp(activeKey.value, w.upWritten);
          if !up { return false; }
        }
        activeKey := None;
      }
      ok := true;
    }

    /** The arms for SetStreamPath, ActiveSource and RoutingChange. */
    method HearRouting(e: Event, opcode: u8, destination: LogicalAddress, w: World)
      returns (ok: bool, reply: Option<(Reply, Target)>)
      requires Published() && Names(e)
      modifies this`active, this`cachedActive, this`emitted, this`history, this`awaitingWake
      ensures Published()
      ensures CurrentRouting() ==
        if w.address.Some? then Route(old(CurrentRouting()), e, ContextOf(opcode, destination, w).own)
        else old(CurrentRouting())
      ensures history == old(history) + if w.address.Some? then [Heard(e, w.address.value)] else []
      ensures ok <==> w.address.Some? && (w.signalled || active == old(active))
      ensures reply == if ok then Answer(old(CurrentRouting()), e, ContextOf(opcode, destination, w)) else None
    {
      hide Published;
      reply := None;
      if w.address.None? { return false, None; }
      var own := w.address.value;
      if e.RouteChanged? && e.address == own { awaitingWake := false; }
      ok := Select(e, own, w.signalled);
      if ok && e.StreamPath? && e.address == own { reply := Some((Source(own), Everyone)); }
    }

    /** The arm for the two system audio mode messages. */
    method HearAudio(on: bool, initiator: LogicalAddress, notified: bool) returns (ok: bool)
      modifies this`audioLogAddr, this`cachedAudioLogAddr
      ensures audioLogAddr == cachedAudioLogAddr == if on then initiator else 0
      ensures ok <==> notified || cachedAudioLogAddr == old(cachedAudioLogAddr)
    {
      audioLogAddr := if on then initiator else TV;
      if cachedAudioLogAddr == audioLogAddr { return true; }
      cachedAudioLogAddr := audioLogAddr;
      ok := notified;
    }

    /** The arms that only decide on a reply. */
    method Query(e: Event, opcode: u8, destination: LogicalAddress, w: World)
      returns (ok: bool, reply: Option<(Reply, Target)>)
      requires !Names(e) && !e.Pressed? && !e.Released? && !e.AudioMode?
      ensures ok <==> w.address.Some? || !(e.SourceRequest? && (awaitingWake || active))
      ensures reply == if ok then Answer(CurrentRouting(), e, ContextOf(opcode, destination, w)) else None
    {
      reply := None;
      match e {
        case PowerRequest =>
          reply := Some((PowerOn, Initiator));
        case StandbyRequest =>
          if w.allowStandby {
            if !w.suspends { reply := Some((FeatureAbort(opcode, INCORRECT_MODE), Initiator)); }
          } else {
            reply := Unclaimed(opcode, destination, w.handler);
          }
        case SourceRequest =>
          if awaitingWake || active {
            if w.address.None? { return false, None; }
            reply := Some((Source(w.address.value), Everyone));
          } else {
            reply := Unclaimed(opcode, destination, w.handler);
          }
        case Unhandled =>
          reply := Unclaimed(opcode, destination, w.handler);
        case _ =>
      }
      ok := true;
    }

    /** The arms for the two key messages; they never reply. */
    method HearKey(e: Event, w: World) returns (ok: bool)
      requires Valid() && (e.Pressed? || e.Released?)
      modifies this`activeKey, uinput
      ensures Valid() && KeyboardFollows(e, ok, old(activeKey), old(Events()))
      ensures !w.received ==> !ok && activeKey == old(activeKey) && Events() == old(Events())
      ensures Smooth(w) ==> ok
    {
      hide Published, NoStuckKeys, Conserved, BoundedRetries, Held, Mapped;
      ok := w.received && w.notified;
      if !ok { return; }
      if e.Pressed? { ok := Press(e.command, w); } else { ok := Release(w); }
    }

    /** The other arms. */
    method React(e: Event, opcode: u8, initiator: LogicalAddress, destination: LogicalAddress, w: World)
      returns (ok: bool, reply: Option<(Reply, Target)>)
      requires Valid() && !e.Pressed? && !e.Released?
      modifies this`active, this`cachedActive, this`emitted, this`history, this`awaitingWake
      modifies this`audioLogAddr, this`cachedAudioLogAddr
      ensures Valid()
      ensures CurrentRouting() ==
        if Understood(e, w) then Route(old(CurrentRouting()), e, ContextOf(opcode, destination, w).own)
        else old(CurrentRouting())
      ensures history == old(history) + if Names(e) && Understood(e, w) then [Heard(e, w.address.value)] else []
      ensures reply == if ok then Answer(old(CurrentRouting()), e, ContextOf(opcode, destination, w)) else None
      ensures Smooth(w) ==> ok
      ensures AudioFollows(e, w.received, initiator, old(audioLogAddr), old(cachedAudioLogAddr))
    {
      hide Published, NoStuckKeys, Conserved, BoundedRetries, Names, Route, Answer, ContextOf;
      reply := None;
      Indifferent(CurrentRouting(), e, ContextOf(opcode, destination, w));
      if !w.received { return false, None; }
      if Names(e) {
        ok, reply := HearRouting(e, opcode, destination, w);
      } else if e.AudioMode? {
        ok := HearAudio(e.on, initiator, w.notified);
      } else {
        ok, reply := Query(e, opcode, destination, w);
      }
    }

    /** The end of handle_message. */
    method SendReply(reply: Option<(Reply, Target)>, initiator: LogicalAddress, results: nat -> TxResult)
      returns (ok: bool)
      modifies this`transmitted
      ensures Sends(old(transmitted), transmitted, reply, initiator, MostTries(results))
      ensures reply.None? || results(0).Sent? ==> ok
    {
      hide Sends, Copies, AddressOf, KernelResults;
      SendsCopies(transmitted, reply, initiator, 1, MostTries(results));
      if reply.None? { return true; }
      var tries;
      ok, tries := Transmit(results);
      SendsCopies(transmitted, reply, initiator, tries, MostTries(results));
      transmitted := transmitted + Copies(reply.value.0, AddressOf(reply.value.1, initiator), tries);
    }

    method HandleMessage(e: Event, opcode: u8, initiator: LogicalAddress, destination: LogicalAddress, w: World)
      returns (ok: bool)
      requires Valid()
      modifies this`active, this`cachedActive, this`emitted, this`history, this`awaitingWake, this`activeKey
      modifies this`audioLogAddr, this`cachedAudioLogAddr, this`transmitted, uinput
      // The routing state follows the protocol whether or not the reply goes out.
      ensures Valid()
      ensures CurrentRouting() ==
        if Understood(e, w) then Route(old(CurrentRouting()), e, ContextOf(opcode, destination, w).own)
        else old(CurrentRouting())
      ensures history == old(history) + if Names(e) && Understood(e, w) then [Heard(e, w.address.value)] else []
      // The protocol's answer goes to its target, and with the kernel's results only once; nothing else is ever sent.
      ensures ok || Smooth(w) || transmitted != old(transmitted) ==>
        Sends(old(transmitted), transmitted, Answer(old(CurrentRouting()), e, ContextOf(opcode, destination, w)),
              initiator, MostTries(w.results))
      ensures Smooth(w) && w.results(0).Sent? ==> ok
      ensures ok || !(e.Pressed? || e.Released?) ==> KeyboardFollows(e, ok, old(activeKey), old(Events()))
      ensures AudioFollows(e, w.received, initiator, old(audioLogAddr), old(cachedAudioLogAddr))
    {
      hide Published, NoStuckKeys, Conserved, BoundedRetries, Names, Route, Answer, ContextOf, Held, Mapped;
      hide Understood, Sends, KeyboardFollows, Events, MostTries;
      Indifferent(CurrentRouting(), e, ContextOf(opcode, destination, w));
      var reply := None;
      if e.Pressed? || e.Released? {
        ok := HearKey(e, w);
      } else {
        ok, reply := React(e, opcode, initiator, destination, w);
        KeysUntouched(e);
      }
      if ok { ok := SendReply(reply, initiator, w.results); }
    }

    // -------------------------------------------------------------- waking and deferred callbacks

    /**
     * wake: the loop stops early only when awaiting_wake has been cleared, which nothing does while the task
     * is busy here, so short of losing the device it always makes WAKE_TRIES attempts to announce itself.
     */
    method Wake(woken: bool, activations: nat -> ActivateResult) returns (ok: bool, tries: nat)
      modifies this`awaitingWake
      ensures !woken ==> !ok && tries == 0 && awaitingWake == old(awaitingWake)
      ensures woken && ok ==> awaitingWake && tries == 2
      ensures woken && !ok ==> !awaitingWake && 1 <= tries <= 2
      // Only the loss of the device, by itself or while it is configured again, ends the attempts.
      ensures woken && !ok ==>
        activations(tries - 1) == Disconnected || activations(tries - 1) == NoAddress(false, true)
      ensures forall k :: 0 <= k < (if ok then tries else tries - 1) ==>
        activations(k) != Disconnected && activations(k) != NoAddress(false, true)
    {
      tries := 0;
      if !woken { return false, 0; }
      awaitingWake := true;
      for t := 0 to WAKE_TRIES
        invariant awaitingWake && tries == t
        invariant forall k :: 0 <= k < t ==> !Lost(activations(k))
      {
        var result := activations(t);
        tries := t + 1;
        if result.Announced? && !awaitingWake { break; }
        if Lost(result) {
          awaitingWake := false;
          return false, tries;
        }
      }
      ok := true;
    }

    /** A callback's own failure is reported to the log only. */
    method RunCallback(callback: Callback, o: Outcome)
      requires Published()
      modifies this`active, this`cachedActive, this`emitted, this`history, this`requests, this`awaitingWake
      ensures Published()
      ensures history == old(history) + if callback.Activating? then [Activated] else []
      ensures callback.Activating? ==> active
      ensures requests == old(requests) + if callback.Activating? then 1 else 0
      ensures awaitingWake == AwaitingAfter(old(awaitingWake), callback, o)
    {
      match callback {
        case Activating => var _ := PendingActivate(o.signalled);
        case Waking => var _, _ := Wake(o.woken, o.activations);
        case AnnouncingPower =>
      }
    }

    method WithLogicalAddress(callback: Callback, noAddress: bool, o: Outcome)
      requires Valid()
      modifies this`active, this`cachedActive, this`emitted, this`history, this`requests, this`awaitingWake
      modifies this`queue, this`submitted, this`ran
      ensures Valid() && submitted == old(submitted) + [callback]
      ensures queue == old(queue) + if noAddress then [Deferred(|old(submitted)|, callback)] else []
      ensures ran == old(ran) + if noAddress then [] else [|old(submitted)|]
      ensures history == old(history) + if callback.Activating? && !noAddress then [Activated] else []
      ensures requests == old(requests) + if callback.Activating? && !noAddress then 1 else 0
      ensures awaitingWake == if noAddress then old(awaitingWake) else AwaitingAfter(old(awaitingWake), callback, o)
    {
      hide Published, NoStuckKeys, BoundedRetries, Balanced;
      var id := |submitted|;
      OneMore(ran, queue, submitted, callback);
      submitted := submitted + [callback];
      if noAddress {
        queue := queue + [Deferred(id, callback)];
      } else {
        RunCallback(callback, o);
        ran := ran + [id];
      }
    }

    function CurrentCache(): Cache
      reads this`cachedPhysAddr, this`cachedVendorId, this`cachedLogAddrs
    {
      Cache(cachedPhysAddr, cachedVendorId, cachedLogAddrs)
    }

    /** handle_poll_result on a state change. */
    method HandleStateChange(c: Change) returns (ok: bool)
      requires Valid()
      modifies this`cachedPhysAddr, this`cachedVendorId, this`cachedLogAddrs
      modifies this`logAddrTry, this`retries, this`emptied
      modifies this`active, this`cachedActive, this`emitted, this`history, this`requests, this`awaitingWake
      modifies this`queue, this`submitted, this`ran
      ensures Valid() && CurrentCache() == CacheAfter(old(CurrentCache()), c)
      // What is reported is cached even if its own signal fails, and what comes after a failed signal is not.
      ensures cachedPhysAddr == c.physAddr
      ensures cachedVendorId ==
        if c.signals.physical || c.physAddr == old(cachedPhysAddr) then c.vendorId else old(cachedVendorId)
      ensures cachedLogAddrs ==
        if (c.signals.physical || c.physAddr == old(cachedPhysAddr))
          && (c.signals.vendor || c.vendorId == old(cachedVendorId)) then c.logAddrs
        else old(cachedLogAddrs)
      // A drain runs everything queued before, in order of submission, whatever fails; nothing else runs any.
      ensures Drains(old(CurrentCache()), c) ==>
        && ok
        && submitted == old(submitted) + (if c.requestActive then [Activating] else [])
        && ran == old(ran) + Ids(old(queue)) + (if c.requestActive && !c.noAddress then [|old(submitted)|] else [])
        && queue == if c.requestActive && c.noAddress then [Deferred(|old(submitted)|, Activating)] else []
      ensures Drains(old(CurrentCache()), c) ==>
        && history == old(history) + Activations(old(queue))
             + (if c.requestActive && !c.noAddress then [Activated] else [])
        && requests - old(requests) == |history| - |old(history)|
        && awaitingWake == AwaitingAfterAll(old(awaitingWake), old(queue), c.outcomes)
      ensures !Drains(old(CurrentCache()), c) ==>
        && submitted == old(submitted) && ran == old(ran) && queue == old(queue)
        && CurrentRouting() == old(CurrentRouting()) && history == old(history) && requests == old(requests)
      ensures Drains(old(CurrentCache()), c) <==>
        && (c.signals.physical || c.physAddr == old(cachedPhysAddr))
        && (c.signals.vendor || c.vendorId == old(cachedVendorId))
        && c.signals.logical && |c.logAddrs| > 0 && c.logAddrs != old(cachedLogAddrs)
      // The retry counter: one more registration if there was and is no address, but a place on the bus to have one.
      ensures retries > old(retries) <==>
        && (c.signals.physical || c.physAddr == old(cachedPhysAddr))
        && (c.signals.vendor || c.vendorId == old(cachedVendorId))
        && |c.logAddrs| == 0 && |old(cachedLogAddrs)| == 0 && c.physAddr != 0xFFFF && old(logAddrTry) > 0
      ensures retries == old(retries) + if Retries(old(CurrentCache()), old(logAddrTry), c) then 1 else 0
      ensures emptied == old(emptied) + if old(cachedLogAddrs) != [] && cachedLogAddrs == [] then 1 else 0
      ensures logAddrTry ==
        if emptied > old(emptied) then 20 else old(logAddrTry) - (retries - old(retries))
    {
      hide Published, NoStuckKeys, Conserved, BoundedRetries, CurrentRouting, Ids, Activations, AwaitingAfterAll;
      ok := CacheIdentity(c);
      if !ok { return; }
      if cachedLogAddrs != c.logAddrs {
        ok := InstallLogAddrs(c.logAddrs, c.signals.logical, c.requestActive, c.noAddress, c.outcomes, c.later);
      } else if c.logAddrs == [] && c.physAddr != NO_PHYSICAL_ADDRESS && logAddrTry > 0 {
        ok := RetryLogAddr(c.configured);
      }
    }

    /** Its first two parts, the physical address and the vendor. */
    method CacheIdentity(c: Change) returns (ok: bool)
      modifies this`cachedPhysAddr, this`cachedVendorId
      ensures ok == Reached(old(CurrentCache()), c)
      ensures cachedPhysAddr == CacheAfter(old(CurrentCache()), c).physAddr
      ensures cachedVendorId == CacheAfter(old(CurrentCache()), c).vendorId
    {
      if cachedPhysAddr != c.physAddr {
        cachedPhysAddr := c.physAddr;
        if !c.signals.physical { return false; }
      }
      if cachedVendorId != c.vendorId {
        cachedVendorId := c.vendorId;
        if !c.signals.vendor { return false; }
      }
      ok := true;
    }

    /** One state change after the other: what was queued before them has run exactly if one of them drains. */
    method HandleStateChanges(changes: seq<Change>)
      requires Valid()
      modifies this`cachedPhysAddr, this`cachedVendorId, this`cachedLogAddrs
      modifies this`logAddrTry, this`retries, this`emptied
      modifies this`active, this`cachedActive, this`emitted, this`history, this`requests, this`awaitingWake
      modifies this`queue, this`submitted, this`ran
      ensures Valid() && CurrentCache() == CacheAfterAll(old(CurrentCache()), changes)
      ensures forall i :: 0 <= i < |old(queue)| ==>
        (old(queue)[i].id in ran <==> AnyDrains(old(CurrentCache()), changes))
      ensures AnyDrains(old(CurrentCache()), changes) ==> old(ran) + Ids(old(queue)) <= ran
      ensures !AnyDrains(old(CurrentCache()), changes) ==> ran == old(ran) && queue == old(queue)
    {
      ghost var cache := CurrentCache();
      QueuedHasNotRun();
      hide Published, NoStuckKeys, Conserved, BoundedRetries, CurrentCache, CurrentRouting, Ids, Drains, CacheAfter;
      hide Activations, AwaitingAfterAll;
      for k := 0 to |changes|
        invariant Valid() && CurrentCache() == CacheAfterAll(cache, changes[..k])
        invariant AnyDrains(cache, changes[..k]) ==> old(ran) + Ids(old(queue)) <= ran
        invariant !AnyDrains(cache, changes[..k]) ==> ran == old(ran) && queue == old(queue)
      {
        assert changes[..k + 1][..k] == changes[..k];
        var _ := HandleStateChange(changes[k]);
      }
      assert changes[..|changes|] == changes;
      HaveRun(old(ran), old(queue), ran);
    }

    lemma {:induction false} QueuedHasNotRun()
      requires Valid()
      ensures forall i :: 0 <= i < |queue| ==> queue[i].id !in ran
    {
      hide Published, NoStuckKeys, BoundedRetries;
      forall i | 0 <= i < |queue| ensures queue[i].id !in ran {
        RunsOnce(ran, queue, submitted, queue[i].id);
        assert Ids(queue)[i] == queue[i].id;
      }
    }

    /**
     * Not every deferred callback runs. One that is deferred stays queued if the next state change that gets as far as
     * the list reports it in vain, because the signal fails or because that list was cached all along (deferring asks
     * the device, draining asks the cache), and all later ones report the same list.
     */
    method StrandedCallback(callback: Callback, o: Outcome, first: Change, later: seq<Change>)
      requires Valid() && first.logAddrs != [] && Reached(CurrentCache(), first)
      requires !first.signals.logical || first.logAddrs == cachedLogAddrs
      requires forall k :: 0 <= k < |later| ==> later[k].logAddrs == first.logAddrs
      modifies this`cachedPhysAddr, this`cachedVendorId, this`cachedLogAddrs
      modifies this`logAddrTry, this`retries, this`emptied
      modifies this`active, this`cachedActive, this`emitted, this`history, this`requests, this`awaitingWake
      modifies this`queue, this`submitted, this`ran
      ensures Valid() && cachedLogAddrs == first.logAddrs
      ensures queue == old(queue) + [Deferred(|old(submitted)|, callback)] && ran == old(ran)
    {
      hide Published, NoStuckKeys, Conserved, BoundedRetries, AnyDrains;
      InVainNeverDrains(CurrentCache(), first, later);
      WithLogicalAddress(callback, true, o);
      HandleStateChanges([first] + later);
    }

    /** The branch that registers again because there is no logical address. */
    method RetryLogAddr(configured: bool) returns (ok: bool)
      requires Valid() && logAddrTry > 0
      modifies this`logAddrTry, this`retries
      ensures Valid() && logAddrTry == old(logAddrTry) - 1 && retries == old(retries) + 1 && ok == configured
    {
      hide Published, NoStuckKeys, Conserved, Bounded;
      StaysBounded(logAddrTry, retries, emptied);
      logAddrTry, retries := logAddrTry - 1, retries + 1;
      ok := configured;
    }

    /** The branch for a list of logical addresses that differs from the cached one. */
    method InstallLogAddrs(logAddrs: seq<LogicalAddress>, signalled: bool, requestActive: bool, noAddress: bool,
                           outcomes: nat -> Outcome, later: Outcome)
      returns (ok: bool)
      requires Valid() && logAddrs != cachedLogAddrs
      modifies this`cachedLogAddrs, this`logAddrTry, this`emptied
      modifies this`active, this`cachedActive, this`emitted, this`history, this`requests, this`awaitingWake
      modifies this`queue, this`submitted, this`ran
      ensures Valid() && cachedLogAddrs == logAddrs && ok == signalled
      ensures signalled && logAddrs != [] ==>
        && submitted == old(submitted) + (if requestActive then [Activating] else [])
        && ran == old(ran) + Ids(old(queue)) + (if requestActive && !noAddress then [|old(submitted)|] else [])
        && queue == if requestActive && noAddress then [Deferred(|old(submitted)|, Activating)] else []
      ensures signalled && logAddrs != [] ==>
        && history == old(history) + Activations(old(queue)) + (if requestActive && !noAddress then [Activated] else [])
        && requests - old(requests) == |history| - |old(history)|
        && awaitingWake == AwaitingAfterAll(old(awaitingWake), old(queue), outcomes)
      ensures !signalled || logAddrs == [] ==>
        && submitted == old(submitted) && ran == old(ran) && queue == old(queue)
        && CurrentRouting() == old(CurrentRouting()) && history == old(history) && requests == old(requests)
      ensures emptied == old(emptied) + if logAddrs == [] then 1 else 0
      ensures logAddrTry == if logAddrs == [] then LOG_ADDR_RETRIES else old(logAddrTry)
    {
      hide Published, NoStuckKeys, Conserved, Bounded, CurrentRouting, Ids, Activations, AwaitingAfterAll;
      cachedLogAddrs := logAddrs;
      if cachedLogAddrs == [] {
        StaysBounded(logAddrTry, retries, emptied);
        logAddrTry, emptied := LOG_ADDR_RETRIES, emptied + 1;
      }
      if !signalled { return false; }
      if cachedLogAddrs != [] {
        Drain(outcomes);
        if requestActive { WithLogicalAddress(Activating, noAddress, later); }
      }
      ok := true;
    }

    /** The loop that runs what was queued. */
    method Drain(outcomes: nat -> Outcome)
      requires Valid()
      modifies this`active, this`cachedActive, this`emitted, this`history, this`requests, this`awaitingWake
      modifies this`queue, this`ran
      ensures Valid() && queue == [] && ran == old(ran) + Ids(old(queue))
      // What was queued has had its effect, one callback after the other.
      ensures history == old(history) + Activations(old(queue))
      ensures requests == old(requests) + |Activations(old(queue))|
      ensures awaitingWake == AwaitingAfterAll(old(awaitingWake), old(queue), outcomes)
    {
      hide Published, NoStuckKeys, BoundedRetries, Balanced, Ids, AwaitingAfter;
      AllRun(ran, queue, submitted);
      var pending := queue;
      queue := [];
      for i := 0 to |pending|
        invariant Published() && NoStuckKeys() && BoundedRetries()
        invariant queue == [] && ran == old(ran) + Ids(pending)[..i]
        invariant history == old(history) + Activations(pending[..i])
        invariant requests == old(requests) + |Activations(pending[..i])|
        invariant awaitingWake == AwaitingAfterAll(old(awaitingWake), pending[..i], outcomes)
      {
        assert pending[..i + 1][..i] == pending[..i];
        RunCallback(pending[i].callback, outcomes(i));
        ran := ran + [pending[i].id];
        IdsTake(pending, i);
      }
      assert Ids(pending)[..|pending|] == Ids(pending) && pending[..|pending|] == pending;
    }

    // -------------------------------------------------------------- configuration

    /** configure_uinput: the old keyboard goes first, so no key survives a reload. */
    method ConfigureUinput(mappings: map<Command, Key>, enabled: bool, named: bool, opens: bool, created: bool)
      returns (ok: bool)
      requires Valid()
      modifies this`uinput
      ensures Valid() && Events() == []
      ensures ok <==> (mappings == map[] || !enabled || (named && opens && created))
      ensures uinput != null <==> ok && mappings != map[] && enabled
      ensures uinput != null ==> fresh(uinput) && uinput.mappings == mappings
    {
      hide Published, Conserved, BoundedRetries;
      uinput := null;
      if mappings == map[] || !enabled { return true; }
      if !named || !opens { return false; }
      var device := new UInputDevice();
      ok := device.SetMappings(mappings);
      if !ok { return; }
      ok := device.Open(created);
      if !ok { return; }
      uinput := device;
    }

    /** After a handled press only that command's key is held, after a release none; nothing else touches keys. */
    ghost predicate KeyboardFollows(e: Event, ok: bool, oldKey: Option<Command>, oldEvents: seq<KeyEvent>)
      reads this`activeKey, this`uinput, uinput
    {
      && (e.Pressed? && ok ==>
            && activeKey == Some(e.command)
            && (uinput != null ==> Held(uinput.events) == Mapped(uinput.mappings, activeKey)))
      && (e.Released? && ok ==> activeKey == None && (uinput != null ==> Held(uinput.events) == {}))
      && (!e.Pressed? && !e.Released? ==> activeKey == oldKey && Events() == oldEvents)
    }

    lemma {:induction false} KeysUntouched(e: Event)
      requires !e.Pressed? && !e.Released?
      ensures KeyboardFollows(e, false, activeKey, Events()) && KeyboardFollows(e, true, activeKey, Events())
    {}

    ghost predicate AudioFollows(e: Event, received: bool, initiator: LogicalAddress,
                                 oldAddr: LogicalAddress, oldCached: LogicalAddress)
      reads this`audioLogAddr, this`cachedAudioLogAddr
    {
      if e.AudioMode? && received then audioLogAddr == cachedAudioLogAddr == if e.on then initiator else 0
      else audioLogAddr == oldAddr && cachedAudioLogAddr == oldCached
    }
  }

  twostate predicate SameMappings(a: UInputDevice?, b: UInputDevice?)
    reads b
  {
    a == b && (b != null ==> b.mappings == old(b.mappings) && b.isOpen == old(b.isOpen))
  }

  /** set_active_source failed because the device went away, possibly while being configured again. */
  predicate Lost(r: ActivateResult) { r.Disconnected? || (r.NoAddress? && !r.reconfigured && r.lost) }

  /** A wake that reaches the device leaves the task waiting, unless one of its two attempts loses the device. */
  function AwaitingAfter(awaiting: bool, callback: Callback, o: Outcome): bool {
    if callback.Waking? && o.woken then !Lost(o.activations(0)) && !Lost(o.activations(1)) else awaiting
  }

  function AwaitingAfterAll(awaiting: bool, queue: seq<Deferred>, outcomes: nat -> Outcome): bool {
    if queue == [] then awaiting
    else
      var n := |queue| - 1;
      AwaitingAfter(AwaitingAfterAll(awaiting, queue[..n], outcomes), queue[n].callback, outcomes(n))
  }

  /** What the callbacks do to the active flag, in order. */
  function Activations(queue: seq<Deferred>): seq<Happening> {
    if queue == [] then []
    else
      var n := |queue| - 1;
      Activations(queue[..n]) + if queue[n].callback.Activating? then [Activated] else []
  }

  /** The last arms of the match: a handler or a refusal for a direct message, nothing for a broadcast. */
  function Unclaimed(opcode: u8, destination: LogicalAddress, handler: Handler): Option<(Reply, Target)> {
    if destination != BROADCAST then HandlerReply(opcode, handler) else None
  }

  function Copies(reply: Reply, to: LogicalAddress, n: nat): (copies: seq<(Reply, LogicalAddress)>)
    ensures |copies| == n && forall i :: 0 <= i < n ==> copies[i].0 == reply && copies[i].1 == to
  {
    seq(n, i => (reply, to))
  }

  /** Whether handling gets as far as the routing state. */
  predicate Understood(e: Event, w: World) { w.received && (Names(e) ==> w.address.Some?) }

  /** A world in which nothing but transmission can fail. */
  predicate Smooth(w: World) {
    w.received && w.notified && w.signalled && w.address.Some? && w.upWritten && w.downWritten
  }
}
