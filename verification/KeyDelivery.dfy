/**
 * What the user-control methods deliver: which frames each puts on the bus, which repeat task it leaves behind, and
 * what becomes of the task it finds (cecd/src/dbus.rs, cecd/src/device.rs).
 */
module KeyDelivery {
  import opened Wire
  import opened KeyRepeat

  /** A press and its release, or as much of them as could be sent. */
  function Sent(target: LogicalAddress, key: Key, reach: Reach): seq<Frame> {
    var both := [Frame(target, Press(key)), Frame(target, Release)];
    both[..if reach.Both? then 2 else if reach.PressOnly? then 1 else 0]
  }

  /** The method that step i left waiting goes on at step j. */
  ghost predicate GoesOn(run: seq<State>, i: nat, j: nat) {
    && 0 < i < j < |run| && run[i].call.Some? && run[j].call.None?
    && forall m :: i <= m < j ==> run[m].call == run[i].call
  }

  /** A new task for the key is running, the map holds it, and nothing else has changed in either. */
  predicate Started(s: State, s': State, target: LogicalAddress, key: Key) {
    && s'.tasks == s.tasks + [Task(target, key, Pressing, false)]
    && s'.repeats == s.repeats[target := |s.tasks|]
  }

  /** Nothing is started, and the map is as it was. */
  predicate NothingStarted(s: State, s': State) { s'.tasks == s.tasks && s'.repeats == s.repeats }

  /** The map held the task for the target; now it is out of the map, told to stop, and waited for. */
  predicate Stopping(s: State, s': State, target: LogicalAddress, id: nat) {
    && target in s.repeats && s.repeats[target] == id < |s.tasks| == |s'.tasks|
    && s'.repeats == s.repeats - {target} && s'.frames == s.frames
    && s'.tasks[id].cancelled && s'.call.Some? && s'.call.value.task == id
    && forall k :: 0 <= k < |s.tasks| && k != id ==> s'.tasks[k] == s.tasks[k]
  }

  lemma {:induction false} TasksStay(s: State, s': State, id: nat)
    requires Next(s, s') && id < |s.tasks|
    ensures id < |s'.tasks| && s'.tasks[id].target == s.tasks[id].target && s'.tasks[id].key == s.tasks[id].key
  {
    hide Tap, Sees;
  }

  lemma {:induction false} StepOf(run: seq<State>, j: nat)
    requires Run(run) && 0 < j < |run|
    ensures Next(run[j - 1], run[j])
  {
    hide Next;
  }

  lemma {:induction false} TaskStays(run: seq<State>, i: nat, j: nat, id: nat)
    requires Run(run) && i <= j < |run| && id < |run[i].tasks|
    ensures id < |run[j].tasks|
    ensures run[j].tasks[id].target == run[i].tasks[id].target && run[j].tasks[id].key == run[i].tasks[id].key
    decreases j
  {
    hide *;
    if i == j {
    } else {
      TaskStays(run, i, j - 1, id);
      StepOf(run, j);
      TasksStay(run[j - 1], run[j], id);
    }
  }

  ghost predicate JoinsAt(run: seq<State>, j: nat, reach: Reach) {
    0 < j < |run| && Join(run[j - 1], run[j], reach)
  }

  lemma {:induction false} OnlyTheJoinGoesOn(s: State, s': State)
    requires Next(s, s') && s.call.Some? && s'.call.None?
    ensures exists reach :: Join(s, s', reach)
  {
    hide Join, Cancelled, Tap;
  }

  /** What the join of a waiting method finds. */
  lemma {:induction false} WhatIsJoined(run: seq<State>, i: nat, j: nat)
    requires Run(run) && GoesOn(run, i, j)
    ensures var joining := run[i].call.value;
      && run[j - 1].call == run[i].call && joining.task < |run[i].tasks| && joining.task < |run[j - 1].tasks|
      && !Alive(run[j - 1], joining.task)
      && run[j - 1].tasks[joining.task].target == run[i].tasks[joining.task].target
      && run[i].tasks[joining.task].target !in run[j - 1].repeats
    ensures exists reach :: JoinsAt(run, j, reach)
  {
    RunAccounted(run, i);
    RunAccounted(run, j - 1);
    assert Next(run[j - 1], run[j]);
    TaskStays(run, i, j - 1, run[i].call.value.task);
    assert run[j - 1].call == run[i].call;
    hide Next, Run, Tap, Spawned;
    OnlyTheJoinGoesOn(run[j - 1], run[j]);
    var reach :| Join(run[j - 1], run[j], reach);
    assert JoinsAt(run, j, reach);
  }

  /**
   * press_user_control sends nothing itself. It starts a task for the key if none is mapped, does nothing if the
   * mapped one has that key, and otherwise stops that one and, if it ended well, starts one for the new key.
   */
  lemma {:induction false} PressDelivers(run: seq<State>, i: nat, j: nat, target: LogicalAddress, key: Key)
    requires Run(run) && 0 < i < |run| && CallPress(run[i - 1], run[i], target, key)
    ensures run[i].frames == run[i - 1].frames
    ensures target !in run[i - 1].repeats ==>
      Started(run[i - 1], run[i], target, key) && run[i].call.None?
    ensures target in run[i - 1].repeats ==>
      var id := run[i - 1].repeats[target];
      && id < |run[i - 1].tasks| && run[i - 1].tasks[id].target == target
      && (run[i - 1].tasks[id].key == key ==> run[i] == run[i - 1])
      && (run[i - 1].tasks[id].key != key ==> Stopping(run[i - 1], run[i], target, id))
      && (run[i - 1].tasks[id].key != key && GoesOn(run, i, j) ==>
            && run[j].frames == run[j - 1].frames
            && if At(run[j - 1], id, Done) then Started(run[j - 1], run[j], target, key)
               else At(run[j - 1], id, Failed) && NothingStarted(run[j - 1], run[j]))
  {
    RunAccounted(run, i - 1);
    if target in run[i - 1].repeats && GoesOn(run, i, j) {
      WhatIsJoined(run, i, j);
      hide Run, Next, Known;
      var reach :| JoinsAt(run, j, reach);
    }
  }

  /** release_user_control stops the mapped task and sends nothing itself; without one it sends a lone release. */
  lemma {:induction false} ReleaseDelivers(run: seq<State>, i: nat, j: nat, target: LogicalAddress)
    requires Run(run) && 0 < i < |run| && CallRelease(run[i - 1], run[i], target)
    ensures target !in run[i - 1].repeats ==>
      && run[i].frames == run[i - 1].frames + [Frame(target, Release)]
      && NothingStarted(run[i - 1], run[i]) && run[i].call.None?
    ensures target in run[i - 1].repeats ==>
      && Stopping(run[i - 1], run[i], target, run[i - 1].repeats[target])
      && (GoesOn(run, i, j) ==> run[j].frames == run[j - 1].frames && NothingStarted(run[j - 1], run[j]))
  {
    RunAccounted(run, i - 1);
    if target in run[i - 1].repeats && GoesOn(run, i, j) {
      WhatIsJoined(run, i, j);
      hide Run, Next, Known;
      var reach :| JoinsAt(run, j, reach);
    }
  }

  /**
   * press_once_user_control sends a press and its release, unless a task is mapped. That one it stops, and sends them
   * only if the task ended well and had another key: the stopped task of the same key has pressed it already.
   */
  lemma {:induction false} OnceDelivers(run: seq<State>, i: nat, j: nat, target: LogicalAddress, key: Key, reach: Reach)
    requires Run(run) && 0 < i < |run| && CallOnce(run[i - 1], run[i], target, key, reach)
    ensures target !in run[i - 1].repeats ==>
      && run[i].frames == run[i - 1].frames + Sent(target, key, reach)
      && NothingStarted(run[i - 1], run[i]) && run[i].call.None?
    ensures target in run[i - 1].repeats ==>
      var id := run[i - 1].repeats[target];
      && Stopping(run[i - 1], run[i], target, id)
      && (GoesOn(run, i, j) ==>
            && (At(run[j - 1], id, Done) || At(run[j - 1], id, Failed)) && NothingStarted(run[j - 1], run[j])
            && (exists r :: JoinsAt(run, j, r))
            && forall r :: JoinsAt(run, j, r) ==>
                 run[j].frames == run[j - 1].frames +
                   if At(run[j - 1], id, Done) && run[i - 1].tasks[id].key != key then Sent(target, key, r) else [])
  {
    RunAccounted(run, i - 1);
    if target in run[i - 1].repeats && GoesOn(run, i, j) {
      WhatIsJoined(run, i, j);
      hide Run, Next, Known, Sees;
    }
  }

  /** The volume methods and raw messages put on the bus what they say and change nothing else. */
  lemma {:induction false} PastTheMethods(s: State, s': State, target: LogicalAddress, key: Key, reach: Reach,
                                          signal: Signal)
    ensures Volume(s, s', target, key, reach) <==>
      s.call.None? && s' == s.(frames := s.frames + Sent(target, key, reach))
    ensures Raw(s, s', target, signal) <==> s.call.None? && s' == s.(frames := s.frames + [Frame(target, signal)])
  {
    assert Tap(target, key, reach) == Sent(target, key, reach);
  }

  /**
   * A repeat task that waits may always press again, told to stop or not, and may turn to its release exactly when it
   * or the whole device was told to stop. One about to send may fail.
   */
  lemma {:induction false} TaskChoices(s: State, id: nat)
    requires id < |s.tasks|
    ensures At(s, id, Selecting) ==> Next(s, Moved(s, id, Pressing))
    ensures At(s, id, Selecting) ==>
      (TaskStep(s, Moved(s, id, Releasing), id) <==> s.tasks[id].cancelled || s.cancelled)
    ensures At(s, id, Pressing) || At(s, id, Releasing) ==> Next(s, Moved(s, id, Failed))
  {
    if At(s, id, Selecting) {
      assert TaskStep(s, Moved(s, id, Pressing), id);
      assert Moved(s, id, Releasing).tasks[id].place == Releasing;
    } else if At(s, id, Pressing) || At(s, id, Releasing) {
      assert TaskStep(s, Moved(s, id, Failed), id);
    }
  }

  // ---------------------------------------------------------------- a held key

  function PressFrames(target: LogicalAddress, key: Key, n: nat): seq<Frame> {
    seq(n, i => Frame(target, Press(key)))
  }

  lemma {:induction false} SoloPressesAgain(target: LogicalAddress, key: Key, frames: seq<Frame>)
    ensures Next(Solo(target, key, Pressing, frames),
                 Solo(target, key, Selecting, frames + [Frame(target, Press(key))]))
  {
    var before := Solo(target, key, Pressing, frames);
    var after := Solo(target, key, Selecting, frames + [Frame(target, Press(key))]);
    assert TaskPress(before, after, 0) && TaskStep(before, after, 0);
  }

  /** A key that is held is pressed any number of times. */
  lemma {:induction false} Holding(target: LogicalAddress, key: Key, n: nat) returns (run: seq<State>)
    ensures Run(run) && |run| > 1 && CallPress(run[0], run[1], target, key)
    ensures run[|run| - 1] == Solo(target, key, Selecting, PressFrames(target, key, n + 1))
  {
    hide *;
    if n == 0 {
      run := FirstStep(target, key);
    } else {
      run := Holding(target, key, n - 1);
      SoloFails(target, key, PressFrames(target, key, n));
      run := Longer(run, Solo(target, key, Pressing, PressFrames(target, key, n)), target, key);
    }
    PressesAgain(target, key, n);
    run := Longer(run, Solo(target, key, Selecting, PressFrames(target, key, n + 1)), target, key);
  }

  lemma {:induction false} FirstStep(target: LogicalAddress, key: Key) returns (run: seq<State>)
    ensures Run(run) && |run| > 1 && CallPress(run[0], run[1], target, key)
    ensures run[|run| - 1] == Solo(target, key, Pressing, PressFrames(target, key, 0))
  {
    var first := Solo(target, key, Pressing, []);
    SoloFails(target, key, []);
    assert CallPress(START, first, target, key);
    assert PressFrames(target, key, 0) == [];
    assert Run([START]);
    hide CallPress, Next, Run;
    run := ExtendRun([START], first);
  }

  lemma {:induction false} PressesAgain(target: LogicalAddress, key: Key, n: nat)
    ensures Next(Solo(target, key, Pressing, PressFrames(target, key, n)),
                 Solo(target, key, Selecting, PressFrames(target, key, n + 1)))
  {
    SoloPressesAgain(target, key, PressFrames(target, key, n));
    assert PressFrames(target, key, n) + [Frame(target, Press(key))] == PressFrames(target, key, n + 1);
  }

  lemma {:induction false} Longer(run: seq<State>, s: State, target: LogicalAddress, key: Key)
    returns (longer: seq<State>)
    requires Run(run) && |run| > 1 && Next(run[|run| - 1], s) && CallPress(run[0], run[1], target, key)
    ensures Run(longer) && longer == run + [s] && longer[|longer| - 1] == s
    ensures CallPress(longer[0], longer[1], target, key)
  {
    hide *;
    longer := ExtendRun(run, s);
  }

  /** The steps from a release to its end: the task notices, sends the release, and is joined. */
  lemma {:induction false} Releases(target: LogicalAddress, key: Key, frames: seq<Frame>)
    returns (stopped: State, noticed: State, sent: State, joined: State)
    ensures CallRelease(Solo(target, key, Selecting, frames), stopped, target)
    ensures Next(stopped, noticed) && Next(noticed, sent) && Next(sent, joined)
    ensures joined.frames == frames + [Frame(target, Release)] && joined.call.None? && joined.repeats == map[]
  {
    var held := Solo(target, key, Selecting, frames);
    stopped := Cancelled(held, target, Finish);
    noticed := Moved(stopped, 0, Releasing);
    sent := Moved(noticed, 0, Done).(frames := frames + [Frame(target, Release)]);
    joined := sent.(call := None);
    assert TaskSelect(stopped, noticed, 0, false) && TaskStep(stopped, noticed, 0);
    assert TaskRelease(noticed, sent, 0) && TaskStep(noticed, sent, 0);
    assert Join(sent, joined, Both);
  }

  /** A key held and released is on the bus as any number of presses from one on, and then one release. */
  lemma {:induction false} HeldKeyRepeats(target: LogicalAddress, key: Key, n: nat) returns (run: seq<State>, i: nat)
    ensures Run(run) && 0 < i < |run| && CallPress(run[0], run[1], target, key)
    ensures CallRelease(run[i - 1], run[i], target)
    ensures run[|run| - 1].frames == PressFrames(target, key, n + 1) + [Frame(target, Release)]
    ensures run[|run| - 1].call.None? && run[|run| - 1].repeats == map[]
  {
    run := Holding(target, key, n);
    i := |run|;
    var stopped, noticed, sent, joined := Releases(target, key, PressFrames(target, key, n + 1));
    assert Next(run[|run| - 1], stopped);
    hide *;
    run := ExtendRun(run, stopped);
    run := ExtendRun(run, noticed);
    run := ExtendRun(run, sent);
    run := ExtendRun(run, joined);
  }
}
