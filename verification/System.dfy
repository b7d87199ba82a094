/**
 * The state all device tasks share: the standby flag, and the table of external message handlers with the
 * task that watches each handler's owner (cecd/src/system.rs, cecd/src/message_handler.rs).
 */
module System {
  import opened Wire

  // ---------------------------------------------------------------- standby

  /** What happens to the standby flag; each act is atomic under the system lock. */
  datatype Act =
    | SuspendAsked                     // a CEC Standby that may put the machine to sleep
    | RequestIssued(granted: bool)     // a suspend decided on earlier reaches logind, which grants or refuses it
    | SleepSignal(suspendTv: bool)     // PrepareForSleep(true), with the configuration in force
    | WakeSignal                       // PrepareForSleep(false)

  /** The flag, and the suspends decided on whose request has not reached logind yet. */
  datatype Power = Power(standby: bool, pending: nat)

  function Step(p: Power, a: Act): Power {
    match a
    case SuspendAsked => if p.standby then p else Power(true, p.pending + 1)
    case RequestIssued(_) => if p.pending == 0 then p else p.(pending := p.pending - 1)
    case SleepSignal(_) => p.(standby := true)
    case WakeSignal => p.(standby := false)
  }

  /** A suspend is decided on. */
  predicate Decides(p: Power, a: Act) { a.SuspendAsked? && !p.standby }

  /** What suspend reports to the Standby that asked: done if nothing was decided, else what logind says. */
  predicate Reports(p: Power, granted: bool) { Decides(p, SuspendAsked) ==> granted }

  /** The devices are told to put the television to sleep. */
  predicate SleepsTv(p: Power, a: Act) { a.SleepSignal? && a.suspendTv && !p.standby }

  predicate ReachesLogind(p: Power, a: Act) { a.RequestIssued? && p.pending > 0 }

  function After(p: Power, acts: seq<Act>): Power {
    if acts == [] then p else Step(After(p, acts[..|acts| - 1]), acts[|acts| - 1])
  }

  /** How often the acts of a run satisfy a predicate of the state they happen in. */
  function Count(p: Power, acts: seq<Act>, what: (Power, Act) -> bool): nat {
    if acts == [] then 0
    else
      var before := acts[..|acts| - 1];
      Count(p, before, what) + if what(After(p, before), acts[|acts| - 1]) then 1 else 0
  }

  function Decisions(p: Power, acts: seq<Act>): nat { Count(p, acts, Decides) + Count(p, acts, SleepsTv) }

  function Effects(p: Power, acts: seq<Act>): nat { Count(p, acts, ReachesLogind) + Count(p, acts, SleepsTv) }

  /** A stretch of a run in which the machine does not wake. */
  predicate OneCycle(acts: seq<Act>) { WakeSignal !in acts }

  lemma {:induction false} Budget(p: Power, acts: seq<Act>)
    requires OneCycle(acts)
    ensures Decisions(p, acts) + (if After(p, acts).standby then 0 else 1) <= if p.standby then 0 else 1
    ensures Effects(p, acts) + After(p, acts).pending + (if After(p, acts).standby then 0 else 1)
      <= p.pending + if p.standby then 0 else 1
  {
    if acts == [] {
    } else {
      var before := acts[..|acts| - 1];
      assert acts[|acts| - 1] != WakeSignal;
      Budget(p, before);
    }
  }

  /**
   * Between two wakes, whatever the tasks and the sleep listener do, at most one decision is taken: to suspend
   * for a CEC Standby, or to put the television to sleep. So the television is never put to sleep in a cycle
   * a CEC Standby began.
   */
  lemma {:induction false} OneDecisionPerCycle(p: Power, acts: seq<Act>, i: nat, j: nat)
    requires OneCycle(acts)
    ensures Decisions(p, acts) <= 1
    ensures i < j < |acts| && Decides(After(p, acts[..i]), acts[i]) ==> !SleepsTv(After(p, acts[..j]), acts[j])
  {
    Budget(p, acts);
    if i < j < |acts| && Decides(After(p, acts[..i]), acts[i]) {
      assert acts[..i + 1][..i] == acts[..i];
      StaysInStandby(p, acts, i + 1, j);
    }
  }

  lemma {:induction false} StaysInStandby(p: Power, acts: seq<Act>, i: nat, j: nat)
    requires OneCycle(acts) && i <= j <= |acts| && After(p, acts[..i]).standby
    ensures After(p, acts[..j]).standby
  {
    if i == j {
    } else {
      StaysInStandby(p, acts, i, j - 1);
      assert acts[..j][..j - 1] == acts[..j - 1];
      assert acts[j - 1] != WakeSignal;
    }
  }

  /**
   * The requests themselves can overlap: one decided on before a wake may reach logind after it. A cycle is sure to
   * have at most one effect exactly when the requests on their way, and the decision it may still take, are at most
   * one together.
   */
  lemma {:induction false} OneEffectExactlyWhenNothingStale(p: Power)
    ensures (forall acts :: OneCycle(acts) ==> Effects(p, acts) <= 1) <==>
      p.pending + (if p.standby then 0 else 1) <= 1
  {
    if p.pending + (if p.standby then 0 else 1) <= 1 {
      forall acts | OneCycle(acts) ensures Effects(p, acts) <= 1 { Budget(p, acts); }
    } else {
      var acts := [RequestIssued(true), if p.standby then RequestIssued(true) else SleepSignal(true)];
      TwoActs(p, acts[0], acts[1], ReachesLogind);
      TwoActs(p, acts[0], acts[1], SleepsTv);
      assert acts == [acts[0], acts[1]];
      assert Effects(p, acts) == 2 && OneCycle(acts);
    }
  }

  /** Two of those effects can be requests to logind: the one on its way, and one that the cycle decides on. */
  lemma {:induction false} TwoRequestsInACycle(p: Power)
    requires !p.standby && p.pending > 0
    ensures Count(p, [RequestIssued(true), SuspendAsked, RequestIssued(true)], ReachesLogind) == 2
  {
    var acts := [RequestIssued(true), SuspendAsked, RequestIssued(true)];
    assert acts[..2] == [RequestIssued(true), SuspendAsked];
    TwoActs(p, RequestIssued(true), SuspendAsked, ReachesLogind);
  }

  lemma {:induction false} TwoActs(p: Power, a: Act, b: Act, what: (Power, Act) -> bool)
    ensures After(p, [a, b]) == Step(Step(p, a), b)
    ensures Count(p, [a, b], what) == (if what(p, a) then 1 else 0) + if what(Step(p, a), b) then 1 else 0
  {
    assert [a, b][..1] == [a] && [a][..0] == [];
    assert After(p, []) == p && Count(p, [], what) == 0;
    assert After(p, [a]) == Step(p, a);
    assert Count(p, [a], what) == if what(p, a) then 1 else 0;
  }

  /** Such a start can be reached: the machine sleeps and wakes between a decision and its request. */
  lemma {:induction false} StaleRequestReachable()
    ensures After(Power(false, 0), [SuspendAsked, SleepSignal(true), WakeSignal]) == Power(false, 1)
  {
    var acts := [SuspendAsked, SleepSignal(true), WakeSignal];
    assert acts[..2][..1] == [SuspendAsked] && acts[..1][..0] == [];
    assert After(Power(false, 0), [SuspendAsked]) == Power(true, 1);
    assert After(Power(false, 0), acts[..2]) == Power(true, 1);
  }

  predicate SetsFlag(a: Act) { a.SuspendAsked? || a.SleepSignal? }

  predicate SetAt(acts: seq<Act>, i: nat) {
    i < |acts| && SetsFlag(acts[i]) && OneCycle(acts[i + 1..])
  }

  /** Since the last wake a suspend was asked for or the machine was sent to sleep. */
  ghost predicate SetSinceWake(acts: seq<Act>) {
    exists i: nat :: SetAt(acts, i)
  }

  lemma {:induction false} FlagAfter(p: Power, acts: seq<Act>)
    ensures After(p, acts).standby <==> SetSinceWake(acts) || (p.standby && OneCycle(acts))
  {
    if acts == [] {
    } else {
      var before, last := acts[..|acts| - 1], acts[|acts| - 1];
      FlagAfter(p, before);
      if i: nat :| SetAt(before, i) {
        assert acts[i + 1..] == before[i + 1..] + [last];
        assert last != WakeSignal ==> SetAt(acts, i);
      }
      if i: nat :| SetAt(acts, i) {
        assert acts[i + 1..] == if i < |before| then before[i + 1..] + [last] else [];
        assert i < |before| ==> SetAt(before, i) && last in acts[i + 1..];
      }
      assert SetsFlag(last) ==> SetAt(acts, |before|);
      assert OneCycle(acts) <==> OneCycle(before) && last != WakeSignal;
    }
  }

  /**
   * A Standby is passed on to logind exactly when, since the last wake, no other was and the machine was not
   * sent to sleep. What logind answered to an earlier one makes no difference.
   */
  lemma {:induction false} PassedOnExactlyOncePerWake(p: Power, acts: seq<Act>)
    ensures Decides(After(p, acts), SuspendAsked) <==> !SetSinceWake(acts) && (p.standby ==> WakeSignal in acts)
  {
    FlagAfter(p, acts);
  }

  /**
   * The machine going to sleep puts the television to sleep exactly when the configuration in force asks for it and,
   * since the last wake, it neither went to sleep already nor was asked to by a Standby.
   */
  lemma {:induction false} TvSleepsExactlyIfAsked(p: Power, acts: seq<Act>, suspendTv: bool)
    ensures SleepsTv(After(p, acts), SleepSignal(suspendTv)) <==>
      suspendTv && !SetSinceWake(acts) && (p.standby ==> WakeSignal in acts)
  {
    FlagAfter(p, acts);
  }

  /** After a suspend that logind refused, every Standby until the next wake is reported as done and not passed on. */
  lemma {:induction false} RefusedSuspendSilencesStandby(p: Power, acts: seq<Act>)
    requires !p.standby && OneCycle(acts)
    ensures
      var refused := After(p, [SuspendAsked, RequestIssued(false)]);
      && !Reports(p, false)
      && Count(refused, acts, Decides) == 0
      && !Decides(After(refused, acts), SuspendAsked) && Reports(After(refused, acts), false)
      && Decides(After(refused, acts + [WakeSignal]), SuspendAsked)
  {
    var first := [SuspendAsked, RequestIssued(false)];
    assert first[..1] == [SuspendAsked] && first[..1][..0] == [];
    assert After(p, first[..1]).standby;
    var refused := After(p, first);
    assert refused.standby;
    Budget(refused, acts);
    FlagAfter(refused, acts);
    assert (acts + [WakeSignal])[..|acts|] == acts;
  }

  // ---------------------------------------------------------------- message handlers

  type Name = nat  // a unique bus name; the bus never gives one out twice

  datatype Place = Watching | Leaving | Gone

  /** A MessageHandlerTask: it waits for its owner to leave the bus and then unregisters. */
  datatype Watcher = Watcher(opcode: u8, owner: Name, place: Place)

  datatype Entry = Entry(owner: Name, watcher: nat)

  class SystemState {
    var standby: bool
    var pending: nat
    var handlers: map<u8, Entry>
    var watchers: seq<Watcher>
    var connected: set<Name>
    ghost var left: set<Name>

    /** Every entry has a live watcher for the same opcode and owner; a watcher only acts once its owner has left. */
    ghost predicate Valid()
      reads this
    {
      && connected !! left
      && (forall opcode :: opcode in handlers ==> Watched(opcode))
      && (forall id :: 0 <= id < |watchers| ==>
            && watchers[id].owner in connected + left
            && (watchers[id].place.Leaving? ==> watchers[id].owner in left))
    }

    ghost predicate Watched(opcode: u8)
      requires opcode in handlers
      reads this
    {
      && handlers[opcode].watcher < |watchers|
      && watchers[handlers[opcode].watcher].opcode == opcode
      && watchers[handlers[opcode].watcher].owner == handlers[opcode].owner
      && !watchers[handlers[opcode].watcher].place.Gone?
    }

    function CurrentPower(): Power
      reads this
    {
      Power(standby, pending)
    }

    constructor ()
      ensures Valid() && handlers == map[] && connected == {} && CurrentPower() == Power(false, 0)
    {
      standby, pending, handlers, watchers, connected, left := false, 0, map[], [], {}, {};
    }

    // -------------------------------------------------------------- standby

    /** The locked part of suspend. */
    method Suspend() returns (decided: bool)
      modifies this`standby, this`pending
      ensures decided == Decides(old(CurrentPower()), SuspendAsked)
      ensures CurrentPower() == Step(old(CurrentPower()), SuspendAsked)
      ensures decided <==> !old(standby)
      ensures standby && pending == old(pending) + if decided then 1 else 0
    {
      if standby { return false; }
      standby := true;
      pending := pending + 1;
      decided := true;
    }

    /** The request to logind. Its answer is passed on, but the flag stays as it is, also when logind refuses. */
    method Issue(granted: bool) returns (reached: bool, done: bool)
      modifies this`pending
      ensures reached == ReachesLogind(old(CurrentPower()), RequestIssued(granted))
      ensures done <==> reached && granted
      ensures CurrentPower() == Step(old(CurrentPower()), RequestIssued(granted))
      ensures reached <==> old(pending) > 0
      ensures pending == old(pending) - if reached then 1 else 0
    {
      reached := pending > 0;
      if reached { pending := pending - 1; }
      done := reached && granted;
    }

    /** The two arms of the sleep listener. */
    method PrepareForSleep(sleep: bool, suspendTv: bool) returns (standbyTv: bool)
      modifies this`standby
      ensures standbyTv == (sleep && SleepsTv(old(CurrentPower()), SleepSignal(suspendTv)))
      ensures CurrentPower() == Step(old(CurrentPower()), if sleep then SleepSignal(suspendTv) else WakeSignal)
      ensures standbyTv <==> sleep && suspendTv && !old(standby)
      ensures standby == sleep
    {
      if !sleep {
        standby := false;
        return false;
      }
      standbyTv := suspendTv && !standby;
      standby := true;
    }

    // -------------------------------------------------------------- handlers

    method Join(owner: Name)
      requires Valid() && owner !in left
      modifies this`connected
      ensures Valid() && connected == old(connected) + {owner}
    {
      connected := connected + {owner};
    }

    /** The owner disconnects for good. */
    method Leave(owner: Name)
      requires Valid() && owner in connected
      modifies this`connected, this`left
      ensures Valid() && connected == old(connected) - {owner} && left == old(left) + {owner}
    {
      connected, left := connected - {owner}, left + {owner};
    }

    /**
     * register_message_handler, all of it under the system lock. The watcher has subscribed before the call
     * returns; if the proxy cannot be built it is left behind without an entry.
     */
    method Register(opcode: u8, owner: Name, proxied: bool) returns (registered: bool)
      requires Valid() && owner in connected
      modifies this`handlers, this`watchers
      ensures Valid()
      ensures registered <==> opcode !in old(handlers) && proxied
      ensures handlers == if registered then old(handlers)[opcode := Entry(owner, |old(watchers)|)] else old(handlers)
      ensures watchers == old(watchers) + if opcode in old(handlers) then [] else [Watcher(opcode, owner, Watching)]
    {
      if opcode in handlers { return false; }
      watchers := watchers + [Watcher(opcode, owner, Watching)];
      if proxied { handlers := handlers[opcode := Entry(owner, |watchers| - 1)]; }
      registered := proxied;
      assert forall o :: o in handlers && o in old(handlers) ==> old(Watched(o));
    }

    /** unregister_message_handler: only the owner's own entry goes, and its watcher with it. */
    method Unregister(opcode: u8, owner: Name) returns (removed: bool)
      requires Valid()
      modifies this`handlers, this`watchers
      ensures Valid()
      ensures removed <==> opcode in old(handlers) && old(handlers)[opcode].owner == owner
      ensures handlers == if removed then old(handlers) - {opcode} else old(handlers)
      ensures |watchers| == |old(watchers)| && forall id :: 0 <= id < |watchers| ==>
        watchers[id] ==
          if removed && id == old(handlers)[opcode].watcher then old(watchers)[id].(place := Gone)
          else old(watchers)[id]
    {
      if opcode !in handlers || handlers[opcode].owner != owner { return false; }
      var id := handlers[opcode].watcher;
      assert Watched(opcode);
      handlers := handlers - {opcode};
      watchers := watchers[id := watchers[id].(place := Gone)];
      removed := true;
      assert forall o :: o in handlers ==> old(Watched(o)) && handlers[o] == old(handlers)[o];
    }

    /** A watcher sees the signal that its owner has lost its name. */
    method Notice(id: nat)
      requires Valid() && id < |watchers| && watchers[id].place.Watching? && watchers[id].owner in left
      modifies this`watchers
      ensures Valid() && watchers == old(watchers)[id := old(watchers)[id].(place := Leaving)]
    {
      watchers := watchers[id := watchers[id].(place := Leaving)];
      assert forall o :: o in handlers ==> old(Watched(o));
    }

    /** The end of MessageHandlerTask::run: whatever entry is removed belonged to an owner that has left. */
    method Expire(id: nat)
      requires Valid() && id < |watchers| && watchers[id].place.Leaving?
      modifies this`handlers, this`watchers
      ensures Valid() && |watchers| == |old(watchers)| && watchers[id].place.Gone?
      ensures handlers ==
        var w := old(watchers[id]);
        if w.opcode in old(handlers) && old(handlers)[w.opcode].owner == w.owner then old(handlers) - {w.opcode}
        else old(handlers)
      ensures forall opcode :: opcode in old(handlers) && old(handlers)[opcode].owner in connected ==>
        opcode in handlers && handlers[opcode] == old(handlers)[opcode]
    {
      var watcher := watchers[id];
      var _ := Unregister(watcher.opcode, watcher.owner);
      watchers := watchers[id := watchers[id].(place := Gone)];
      assert forall o :: o in handlers ==> Watched(o) by {
        forall o | o in handlers ensures Watched(o) {
          assert old(Watched(o));
          assert handlers[o].watcher != id;
        }
      }
    }

    /** Once an owner has left and all its watchers have run, nothing in the table names it. */
    lemma {:induction false} NothingLeftBehind(owner: Name)
      requires Valid() && owner in left
      requires forall id :: 0 <= id < |watchers| && watchers[id].owner == owner ==> watchers[id].place.Gone?
      ensures forall opcode :: opcode in handlers ==> handlers[opcode].owner != owner
    {
      forall opcode | opcode in handlers ensures handlers[opcode].owner != owner {
        assert Watched(opcode);
      }
    }
  }
}
