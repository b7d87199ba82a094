/**
 * Repeating key presses: the three user-control methods of the D-Bus object, the repeat tasks they spawn,
 * cancel and join, and the volume methods and raw messages that go past them (cecd/src/dbus.rs, cecd/src/device.rs).
 * Every transmission may fail.
 */
module KeyRepeat {
  import opened Wire
  import Operand

  type Key = Operand.Value

  datatype Signal = Press(key: Key) | Release

  datatype Frame = Frame(target: LogicalAddress, signal: Signal)

  // ---------------------------------------------------------------- the language of one target

  /** A key held for one or more presses and then released, or a release on its own. */
  datatype Block = Repeated(key: Key, presses: nat) | Lone

  function Presses(key: Key, n: nat): seq<Signal> { seq(n, i => Press(key)) }

  function Spell(block: Block): seq<Signal> {
    if block.Lone? then [Release] else Presses(block.key, block.presses + 1) + [Release]
  }

  /** What follows the finished blocks: nothing, or the presses of a block that is still open. */
  datatype Rest = Nothing | Pressed(key: Key, presses: nat)

  function SpellRest(rest: Rest): seq<Signal> {
    if rest.Nothing? then [] else Presses(rest.key, rest.presses + 1)
  }

  function SpellAll(blocks: seq<Block>, rest: Rest): seq<Signal> {
    if blocks == [] then SpellRest(rest) else Spell(blocks[0]) + SpellAll(blocks[1..], rest)
  }

  ghost predicate InBlocks(w: seq<Signal>) {
    exists blocks, rest :: w == SpellAll(blocks, rest)
  }

  datatype Mode = Closed | Open(key: Key) | Clash

  function After(mode: Mode, signal: Signal): Mode {
    match mode
    case Clash => Clash
    case Closed => if signal.Press? then Open(signal.key) else Closed
    case Open(key) => if signal.Release? then Closed else if signal.key == key then mode else Clash
  }

  function ModeFrom(mode: Mode, w: seq<Signal>): Mode {
    if w == [] then mode else After(ModeFrom(mode, w[..|w| - 1]), w[|w| - 1])
  }

  function ModeOf(w: seq<Signal>): Mode { ModeFrom(Closed, w) }

  lemma {:induction false} ModeSplits(mode: Mode, a: seq<Signal>, b: seq<Signal>)
    ensures ModeFrom(mode, a + b) == ModeFrom(ModeFrom(mode, a), b)
  {
    if b == [] {
      assert a + b == a;
    } else {
      assert (a + b)[..|a + b| - 1] == a + b[..|b| - 1];
      ModeSplits(mode, a, b[..|b| - 1]);
    }
  }

  lemma {:induction false} PressesOpen(mode: Mode, key: Key, n: nat)
    requires mode == Closed || mode == Open(key)
    ensures ModeFrom(mode, Presses(key, n)) == if n == 0 then mode else Open(key)
  {
    if n == 0 {
    } else {
      assert Presses(key, n)[..n - 1] == Presses(key, n - 1);
      PressesOpen(mode, key, n - 1);
    }
  }

  lemma {:induction false} BlocksDoNotClash(blocks: seq<Block>, rest: Rest)
    ensures ModeOf(SpellAll(blocks, rest)) == if rest.Nothing? then Closed else Open(rest.key)
  {
    if blocks == [] {
      if rest.Pressed? { PressesOpen(Closed, rest.key, rest.presses + 1); }
    } else {
      var block := blocks[0];
      BlocksDoNotClash(blocks[1..], rest);
      ModeSplits(Closed, Spell(block), SpellAll(blocks[1..], rest));
      assert ModeOf(Spell(block)) == Closed by {
        if block.Repeated? {
          PressesOpen(Closed, block.key, block.presses + 1);
          ModeSplits(Closed, Presses(block.key, block.presses + 1), [Release]);
        }
        assert [Release][..0] == [];
      }
    }
  }

  /** The block that a release makes of what is still open. */
  function Closing(rest: Rest): Block { if rest.Nothing? then Lone else Repeated(rest.key, rest.presses) }

  /** What one more press makes of it. */
  function Extended(rest: Rest, key: Key): Rest {
    Pressed(key, if rest.Nothing? then 0 else rest.presses + 1)
  }

  lemma {:induction false} CloseBlock(blocks: seq<Block>, rest: Rest)
    ensures SpellAll(blocks, rest) + [Release] == SpellAll(blocks + [Closing(rest)], Nothing)
  {
    var last := Closing(rest);
    if blocks == [] {
      assert [last][1..] == [];
      assert blocks + [last] == [last];
    } else {
      CloseBlock(blocks[1..], rest);
      assert (blocks + [last])[1..] == blocks[1..] + [last];
      hide Spell, Closing;
      var first, others := Spell(blocks[0]), SpellAll(blocks[1..], rest);
      assert (first + others) + [Release] == first + (others + [Release]);
    }
  }

  lemma {:induction false} ExtendOpen(blocks: seq<Block>, rest: Rest, key: Key)
    requires rest.Pressed? ==> rest.key == key
    ensures SpellAll(blocks, rest) + [Press(key)] == SpellAll(blocks, Extended(rest, key))
  {
    if blocks == [] {
    } else {
      ExtendOpen(blocks[1..], rest, key);
    }
  }

  lemma {:induction false} ClashFreeIsSpelled(w: seq<Signal>) returns (blocks: seq<Block>, rest: Rest)
    requires ModeOf(w) != Clash
    ensures w == SpellAll(blocks, rest)
  {
    if w == [] {
      blocks, rest := [], Nothing;
    } else {
      var last := w[|w| - 1];
      blocks, rest := ClashFreeIsSpelled(w[..|w| - 1]);
      BlocksDoNotClash(blocks, rest);
      assert w == w[..|w| - 1] + [last];
      if last.Release? {
        CloseBlock(blocks, rest);
        blocks, rest := blocks + [Closing(rest)], Nothing;
      } else {
        ExtendOpen(blocks, rest, last.key);
        rest := Extended(rest, last.key);
      }
    }
  }

  /** The automaton accepts exactly the block language, the last block possibly unfinished. */
  lemma {:induction false} ClashFreeExactlyBlocks(w: seq<Signal>)
    ensures ModeOf(w) != Clash <==> InBlocks(w)
  {
    if ModeOf(w) != Clash {
      var blocks, rest := ClashFreeIsSpelled(w);
    } else if InBlocks(w) {
      var blocks, rest :| w == SpellAll(blocks, rest);
      BlocksDoNotClash(blocks, rest);
    }
  }

  /** Between presses of two different keys there is a release. */
  lemma {:induction false} ReleasedBetween(w: seq<Signal>, i: nat, j: nat)
    requires ModeOf(w) != Clash && i < j < |w| && w[i].Press? && w[j].Press? && w[i].key != w[j].key
    ensures exists m :: i < m < j && w[m].Release?
  {
    if forall m :: i < m < j ==> w[m] != Release {
      StaysOpen(w, i, j);
    }
  }

  lemma {:induction false} StaysOpen(w: seq<Signal>, i: nat, j: nat)
    requires ModeOf(w) != Clash && i < j <= |w| && w[i].Press?
    requires forall m :: i < m < j ==> w[m].Press?
    ensures ModeOf(w[..j]) == Open(w[i].key) && ModeOf(w[..j]) != Clash
    ensures j < |w| && w[j].Press? ==> w[j].key == w[i].key
    decreases j
  {
    NoClashBefore(w, j);
    assert w[..j][..j - 1] == w[..j - 1];
    if j > i + 1 { StaysOpen(w, i, j - 1); }
    if j < |w| {
      NoClashBefore(w, j + 1);
      assert w[..j + 1][..j] == w[..j];
    }
  }

  lemma {:induction false} NoClashBefore(w: seq<Signal>, n: nat)
    requires ModeOf(w) != Clash && n <= |w|
    ensures ModeOf(w[..n]) != Clash
  {
    assert w == w[..n] + w[n..];
    ModeSplits(Closed, w[..n], w[n..]);
    if ModeOf(w[..n]) == Clash { ClashStays(w[n..]); }
  }

  lemma {:induction false} ClashStays(w: seq<Signal>)
    ensures ModeFrom(Clash, w) == Clash
  {
    if w == [] {
    } else {
      ClashStays(w[..|w| - 1]);
    }
  }

  // ---------------------------------------------------------------- the tasks

  /** Where KeyRepeat::run stands: about to press, in its select, about to release, or how it ended. */
  datatype Place = Pressing | Selecting | Releasing | Done | Failed

  datatype Task = Task(target: LogicalAddress, key: Key, place: Place, cancelled: bool)

  /** What a method goes on to do once the task it cancelled has been joined. */
  datatype Then = Spawn(key: Key) | Once(key: Key) | Finish

  datatype Joining = Joining(task: nat, next: Then)

  datatype State = State(
    tasks: seq<Task>,                      // every task ever spawned
    repeats: map<LogicalAddress, nat>,     // the key_repeat map
    call: Option<Joining>,                 // the &mut self method in progress, waiting for a task
    cancelled: bool,                       // the device's own token, parent of every task's
    frames: seq<Frame>)                    // what has been put on the bus

  const START := State([], map[], None, false, [])

  /** How far a press and its release, sent one after the other, get: the first failure ends the method. */
  datatype Reach = Neither | PressOnly | Both

  function Tap(target: LogicalAddress, key: Key, reach: Reach): seq<Frame> {
    match reach
    case Neither => []
    case PressOnly => [Frame(target, Press(key))]
    case Both => [Frame(target, Press(key)), Frame(target, Release)]
  }

  function Spawned(s: State, target: LogicalAddress, key: Key): State {
    s.(tasks := s.tasks + [Task(target, key, Pressing, false)], repeats := s.repeats[target := |s.tasks|], call := None)
  }

  /** Cancel the task the map holds for a target, take it out, and wait for it. */
  function Cancelled(s: State, target: LogicalAddress, next: Then): State
    requires target in s.repeats && s.repeats[target] < |s.tasks|
  {
    var id := s.repeats[target];
    s.(tasks := s.tasks[id := s.tasks[id].(cancelled := true)], repeats := s.repeats - {target},
       call := Some(Joining(id, next)))
  }

  ghost predicate Mapped(s: State, target: LogicalAddress, id: nat) {
    target in s.repeats && s.repeats[target] == id && id < |s.tasks|
  }

  /** press_user_control, up to its first wait. */
  ghost predicate CallPress(s: State, s': State, target: LogicalAddress, key: Key) {
    s.call.None? &&
    if target !in s.repeats then s' == Spawned(s, target, key)
    else
      && Mapped(s, target, s.repeats[target])
      && s' == if s.tasks[s.repeats[target]].key == key then s else Cancelled(s, target, Spawn(key))
  }

  /** release_user_control */
  ghost predicate CallRelease(s: State, s': State, target: LogicalAddress) {
    s.call.None? &&
    if target !in s.repeats then s' == s.(frames := s.frames + [Frame(target, Release)])
    else Mapped(s, target, s.repeats[target]) && s' == Cancelled(s, target, Finish)
  }

  /** press_once_user_control */
  ghost predicate CallOnce(s: State, s': State, target: LogicalAddress, key: Key, reach: Reach) {
    s.call.None? &&
    if target !in s.repeats then s' == s.(frames := s.frames + Tap(target, key, reach))
    else
      && Mapped(s, target, s.repeats[target])
      && s' == Cancelled(s, target, if s.tasks[s.repeats[target]].key == key then Finish else Once(key))
  }

  /** The joined task has ended, and the method goes on; if the task failed, the method fails with it. */
  ghost predicate Join(s: State, s': State, reach: Reach) {
    s.call.Some? && s.call.value.task < |s.tasks| && !Alive(s, s.call.value.task) &&
    var task := s.tasks[s.call.value.task];
    if task.place.Failed? then s' == s.(call := None)
    else
      match s.call.value.next
      case Spawn(key) => s' == Spawned(s, task.target, key)
      case Once(key) => s' == s.(call := None, frames := s.frames + Tap(task.target, key, reach))
      case Finish => s' == s.(call := None)
  }

  /** volume_up, volume_down and mute: under the device lock, without a look at the map. */
  ghost predicate Volume(s: State, s': State, target: LogicalAddress, key: Key, reach: Reach) {
    s.call.None? && s' == s.(frames := s.frames + Tap(target, key, reach))
  }

  /** send_raw_message and send_receive_raw_message: any frame to any target, without a look at the map. */
  ghost predicate Raw(s: State, s': State, target: LogicalAddress, signal: Signal) {
    s.call.None? && s' == s.(frames := s.frames + [Frame(target, signal)])
  }

  ghost predicate At(s: State, id: nat, place: Place) { id < |s.tasks| && s.tasks[id].place == place }

  predicate Alive(s: State, id: nat) { id < |s.tasks| && !s.tasks[id].place.Done? && !s.tasks[id].place.Failed? }

  function Moved(s: State, id: nat, place: Place): State
    requires id < |s.tasks|
  {
    s.(tasks := s.tasks[id := s.tasks[id].(place := place)])
  }

  /** The press at the top of the loop. */
  ghost predicate TaskPress(s: State, s': State, id: nat) {
    && At(s, id, Pressing)
    && s' == Moved(s, id, Selecting).(frames := s.frames + [Frame(s.tasks[id].target, Press(s.tasks[id].key))])
  }

  /** The select: the delay may win even if the token is cancelled. */
  ghost predicate TaskSelect(s: State, s': State, id: nat, delay: bool) {
    && At(s, id, Selecting)
    && (!delay ==> s.tasks[id].cancelled || s.cancelled)
    && s' == Moved(s, id, if delay then Pressing else Releasing)
  }

  ghost predicate TaskRelease(s: State, s': State, id: nat) {
    && At(s, id, Releasing)
    && s' == Moved(s, id, Done).(frames := s.frames + [Frame(s.tasks[id].target, Release)])
  }

  /** A press or the release cannot be sent: the task ends there, and the map keeps its entry. */
  ghost predicate TaskFails(s: State, s': State, id: nat) {
    (At(s, id, Pressing) || At(s, id, Releasing)) && s' == Moved(s, id, Failed)
  }

  ghost predicate TaskStep(s: State, s': State, id: nat) {
    || TaskPress(s, s', id) || TaskRelease(s, s', id) || TaskFails(s, s', id)
    || TaskSelect(s, s', id, true) || TaskSelect(s, s', id, false)
  }

  /** The last alternative but one is a lone release or a raw message that cannot be sent. */
  ghost predicate Next(s: State, s': State) {
    || (exists target, key :: CallPress(s, s', target, key))
    || (exists target, key, reach :: CallOnce(s, s', target, key, reach) || Volume(s, s', target, key, reach))
    || (exists target :: CallRelease(s, s', target))
    || (exists target, signal :: Raw(s, s', target, signal))
    || (exists reach :: Join(s, s', reach))
    || (exists id: nat :: TaskStep(s, s', id))
    || s' == s
    || s' == s.(cancelled := true)
  }

  ghost predicate Run(run: seq<State>) {
    run != [] && run[0] == START && forall k :: 0 < k < |run| ==> Next(run[k - 1], run[k])
  }

  // ---------------------------------------------------------------- what one target sees

  function ToTarget(frames: seq<Frame>, target: LogicalAddress): seq<Signal> {
    if frames == [] then []
    else
      var last := frames[|frames| - 1];
      ToTarget(frames[..|frames| - 1], target) + if last.target == target then [last.signal] else []
  }

  function Sees(s: State, target: LogicalAddress): Mode { ModeOf(ToTarget(s.frames, target)) }

  lemma {:induction false} SameFrames(s: State, s': State, target: LogicalAddress)
    requires s'.frames == s.frames
    ensures Sees(s', target) == Sees(s, target)
  {}

  lemma {:induction false} OneFrame(s: State, s': State, frame: Frame, target: LogicalAddress)
    requires s'.frames == s.frames + [frame]
    ensures Sees(s', target) == if frame.target == target then After(Sees(s, target), frame.signal) else Sees(s, target)
  {
    assert s'.frames[..|s'.frames| - 1] == s.frames;
    var w, w' := ToTarget(s.frames, target), ToTarget(s'.frames, target);
    if frame.target == target {
      assert w'[..|w'| - 1] == w;
    } else {
      assert w' == w;
    }
  }

  function AfterTap(mode: Mode, key: Key, reach: Reach): Mode {
    match reach
    case Neither => mode
    case PressOnly => After(mode, Press(key))
    case Both => After(After(mode, Press(key)), Release)
  }

  lemma {:induction false} TapSeen(s: State, s': State, to: LogicalAddress, key: Key, reach: Reach,
                                   target: LogicalAddress)
    requires s'.frames == s.frames + Tap(to, key, reach)
    ensures Sees(s', target) == if to == target then AfterTap(Sees(s, target), key, reach) else Sees(s, target)
  {
    hide Sees, After;
    match reach {
      case Neither => SameFrames(s, s', target);
      case PressOnly => OneFrame(s, s', Frame(to, Press(key)), target);
      case Both =>
        var middle := s.(frames := s.frames + [Frame(to, Press(key))]);
        OneFrame(s, middle, Frame(to, Press(key)), target);
        assert s'.frames == middle.frames + [Frame(to, Release)];
        OneFrame(middle, s', Frame(to, Release), target);
    }
  }

  // ---------------------------------------------------------------- kinds of steps

  /** Tasks that run go on running, with the same target and key. */
  ghost predicate Keeps(s: State, s': State) {
    |s.tasks| <= |s'.tasks| &&
    forall id :: 0 <= id < |s.tasks| && Alive(s, id) ==>
      Alive(s', id) && s'.tasks[id].target == s.tasks[id].target && s'.tasks[id].key == s.tasks[id].key
  }

  ghost predicate Quiet(s: State, s': State) { s'.frames == s.frames && Keeps(s, s') }

  /** A method sends a press and its release, as far as it gets. */
  ghost predicate Taps(s: State, s': State, target: LogicalAddress, key: Key, reach: Reach) {
    Volume(s, s', target, key, reach) || MethodTaps(s, s', target, key, reach)
  }

  ghost predicate MethodTaps(s: State, s': State, target: LogicalAddress, key: Key, reach: Reach) {
    || (CallOnce(s, s', target, key, reach) && target !in s.repeats)
    || (Join(s, s', reach) && s.call.value.next == Once(key) && At(s, s.call.value.task, Done)
        && s.tasks[s.call.value.task].target == target)
  }

  ghost predicate LoneRelease(s: State, s': State, target: LogicalAddress) {
    CallRelease(s, s', target) && target !in s.repeats
  }

  lemma {:induction false} TapFrames(s: State, s': State, target: LogicalAddress, key: Key, reach: Reach)
    requires Taps(s, s', target, key, reach)
    ensures s'.frames == s.frames + Tap(target, key, reach) && s'.tasks == s.tasks
  {}

  lemma {:induction false} TaskFrames(s: State, s': State, id: nat)
    requires TaskStep(s, s', id)
    ensures id < |s.tasks|
    ensures s'.frames == s.frames +
      if TaskPress(s, s', id) then [Frame(s.tasks[id].target, Press(s.tasks[id].key))]
      else if TaskRelease(s, s', id) then [Frame(s.tasks[id].target, Release)] else []
  {}

  lemma {:induction false} CallKinds(s: State, s': State, to: LogicalAddress, key: Key, reach: Reach)
    ensures CallPress(s, s', to, key) ==> Quiet(s, s')
    ensures CallOnce(s, s', to, key, reach) ==> Quiet(s, s') || Taps(s, s', to, key, reach)
  {}

  lemma {:induction false} ReleaseKinds(s: State, s': State, to: LogicalAddress)
    requires CallRelease(s, s', to)
    ensures Quiet(s, s') || LoneRelease(s, s', to)
  {}

  lemma {:induction false} JoinKinds(s: State, s': State, reach: Reach)
    requires Join(s, s', reach)
    ensures Quiet(s, s') || exists to, key :: Taps(s, s', to, key, reach)
  {
    var task := s.tasks[s.call.value.task];
    if s.call.value.next.Once? && task.place.Done? {
      assert Taps(s, s', task.target, s.call.value.next.key, reach);
    } else {
      assert s'.frames == s.frames && |s.tasks| <= |s'.tasks|;
    }
  }

  /** What a step can be, as far as frames and running tasks are concerned. */
  lemma {:induction false} Kinds(s: State, s': State)
    requires Next(s, s')
    ensures
      || Quiet(s, s')
      || (exists to, key, reach :: Taps(s, s', to, key, reach))
      || (exists to, signal :: Raw(s, s', to, signal))
      || (exists to :: LoneRelease(s, s', to))
      || (exists id: nat :: TaskStep(s, s', id))
  {
    hide CallPress, CallOnce, CallRelease, Join, TaskStep, MethodTaps, Volume, LoneRelease;
    if to, key :| CallPress(s, s', to, key) {
      CallKinds(s, s', to, key, Neither);
    } else if to, key, reach :| CallOnce(s, s', to, key, reach) || Volume(s, s', to, key, reach) {
      CallKinds(s, s', to, key, reach);
      assert Volume(s, s', to, key, reach) ==> Taps(s, s', to, key, reach);
    } else if to :| CallRelease(s, s', to) {
      ReleaseKinds(s, s', to);
    } else if reach :| Join(s, s', reach) {
      JoinKinds(s, s', reach);
    }
  }

  // ---------------------------------------------------------------- invariant

  /** The map, or the method in progress, knows every task that is still running. */
  ghost predicate Accounted(s: State) {
    && (forall target :: target in s.repeats ==>
          s.repeats[target] < |s.tasks| && s.tasks[s.repeats[target]].target == target)
    && (s.call.Some? ==> s.call.value.task < |s.tasks| && s.tasks[s.call.value.task].target !in s.repeats)
    && (forall id :: 0 <= id < |s.tasks| && Alive(s, id) ==> Known(s, id))
  }

  ghost predicate Known(s: State, id: nat)
    requires id < |s.tasks|
  {
    Mapped(s, s.tasks[id].target, id) || (s.call.Some? && s.call.value.task == id)
  }

  ghost predicate Holds(s: State, id: nat, target: LogicalAddress, key: Key) {
    Alive(s, id) && s.tasks[id].target == target && s.tasks[id].key == key
  }

  /** A target that sees an open press has a running task that will press the same key or release it. */
  ghost predicate Attended(s: State, target: LogicalAddress) {
    Sees(s, target).Open? ==> exists id :: Holds(s, id, target, Sees(s, target).key)
  }

  /** An open press of the key that no running task will press again or release. */
  ghost predicate Loose(s: State, target: LogicalAddress, key: Key) {
    Sees(s, target) == Open(key) && !Attended(s, target)
  }

  /** At most one repeat task per target is running, and it is the one in the map or the one being joined. */
  lemma {:induction false} OneTaskPerTarget(s: State, a: nat, b: nat)
    requires Accounted(s) && Alive(s, a) && Alive(s, b) && s.tasks[a].target == s.tasks[b].target
    ensures a == b && (Mapped(s, s.tasks[a].target, a) || (s.call.Some? && s.call.value.task == a))
  {}

  // ---------------------------------------------------------------- what breaks the blocks

  ghost predicate VolumePresses(s: State, s': State, target: LogicalAddress, key: Key) {
    Volume(s, s', target, key, PressOnly) || Volume(s, s', target, key, Both)
  }

  /** A client goes past the user-control methods: a volume method, or a press sent raw. */
  ghost predicate ClientPresses(s: State, s': State, target: LogicalAddress, key: Key) {
    VolumePresses(s, s', target, key) || Raw(s, s', target, Press(key))
  }

  /** A user-control method that presses once, or a repeat task. */
  ghost predicate RepeatPresses(s: State, s': State, target: LogicalAddress, key: Key) {
    || MethodTaps(s, s', target, key, PressOnly) || MethodTaps(s, s', target, key, Both)
    || (exists id: nat :: TaskPresses(s, s', id, target, key))
  }

  ghost predicate TaskPresses(s: State, s': State, id: nat, target: LogicalAddress, key: Key) {
    TaskPress(s, s', id) && s.tasks[id].target == target && s.tasks[id].key == key
  }

  predicate OtherOpen(s: State, target: LogicalAddress, key: Key) {
    Sees(s, target).Open? && Sees(s, target).key != key
  }

  /** A client presses past the methods while another key is open on the target. */
  ghost predicate Intrudes(s: State, s': State, target: LogicalAddress) {
    exists key :: ClientPresses(s, s', target, key) && OtherOpen(s, target, key)
  }

  ghost predicate VolumeIntrudes(s: State, s': State, target: LogicalAddress) {
    exists key :: VolumePresses(s, s', target, key) && OtherOpen(s, target, key)
  }

  /** A method or a repeat task presses while another key is still open on the target. */
  ghost predicate Overruns(s: State, s': State, target: LogicalAddress) {
    exists key :: RepeatPresses(s, s', target, key) && OtherOpen(s, target, key)
  }

  /** The first new frame is a press of the key on the target. */
  predicate NewPress(s: State, s': State, target: LogicalAddress, key: Key) {
    |s.frames| < |s'.frames| && s'.frames[|s.frames|] == Frame(target, Press(key))
  }

  lemma {:induction false} PressesAreNew(s: State, s': State, target: LogicalAddress, key: Key)
    requires ClientPresses(s, s', target, key) || RepeatPresses(s, s', target, key)
    ensures NewPress(s, s', target, key)
  {
    hide MethodTaps, Volume;
    if id: nat :| TaskPresses(s, s', id, target, key) {
      assert s'.frames == s.frames + [Frame(target, Press(key))];
    } else if Raw(s, s', target, Press(key)) {
    } else if Taps(s, s', target, key, Both) {
      TapFrames(s, s', target, key, Both);
    } else {
      TapFrames(s, s', target, key, PressOnly);
    }
  }

  /** Every new press is a client's or the repeat machinery's. */
  lemma {:induction false} NewPressesAreMade(s: State, s': State, target: LogicalAddress, key: Key)
    requires Next(s, s') && NewPress(s, s', target, key)
    ensures ClientPresses(s, s', target, key) || RepeatPresses(s, s', target, key)
  {
    Kinds(s, s');
    hide Next, Sees, Moved, MethodTaps, Volume;
    if to, k, reach :| Taps(s, s', to, k, reach) {
      TapFrames(s, s', to, k, reach);
      assert reach != Neither && to == target && k == key;
    } else if to, signal :| Raw(s, s', to, signal) {
      assert s'.frames[|s.frames|] == Frame(to, signal);
    } else if id: nat :| TaskStep(s, s', id) {
      TaskFrames(s, s', id);
      assert TaskPresses(s, s', id, target, key);
    }
  }

  /** What a step adds: nothing, one frame, or a press and its release. */
  ghost predicate Grows(s: State, s': State) {
    || s'.frames == s.frames
    || (exists frame :: s'.frames == s.frames + [frame])
    || (exists to, key :: s'.frames == s.frames + Tap(to, key, Both))
  }

  lemma {:induction false} TapGrows(s: State, s': State, to: LogicalAddress, key: Key, reach: Reach)
    requires s'.frames == s.frames + Tap(to, key, reach)
    ensures Grows(s, s')
  {}

  lemma {:induction false} StepGrows(s: State, s': State)
    requires Next(s, s')
    ensures Grows(s, s')
  {
    Kinds(s, s');
    hide Next, Moved, Taps, TaskStep, Keeps, Cancelled;
    if to, key, reach :| Taps(s, s', to, key, reach) {
      TapFrames(s, s', to, key, reach);
      TapGrows(s, s', to, key, reach);
    } else if to :| LoneRelease(s, s', to) {
    } else if id: nat :| TaskStep(s, s', id) {
      TaskFrames(s, s', id);
    }
  }

  /** A target's trace breaks exactly when a new press meets an open press of another key. */
  lemma {:induction false} StepBreaks(s: State, s': State, target: LogicalAddress)
    requires Next(s, s')
    ensures Sees(s', target) == Clash <==>
      Sees(s, target) == Clash || Intrudes(s, s', target) || Overruns(s, s', target)
  {
    hide Next, ClientPresses, RepeatPresses, Sees, Grows;
    StepGrows(s, s');
    FramesBreak(s, s', target);
    if key :| NewPress(s, s', target, key) && OtherOpen(s, target, key) {
      NewPressesAreMade(s, s', target, key);
    }
    if key :| (ClientPresses(s, s', target, key) || RepeatPresses(s, s', target, key)) && OtherOpen(s, target, key) {
      PressesAreNew(s, s', target, key);
    }
  }

  /** Besides, an open press that is still open, or open again, after a step is one of the same key. */
  lemma {:induction false} FramesBreak(s: State, s': State, target: LogicalAddress)
    requires Grows(s, s')
    ensures Sees(s', target) == Clash <==>
      Sees(s, target) == Clash || exists key :: NewPress(s, s', target, key) && OtherOpen(s, target, key)
    ensures Sees(s, target).Open? && Sees(s', target).Open? ==> Sees(s', target) == Sees(s, target)
  {
    hide Sees;
    if s'.frames == s.frames {
      SameFrames(s, s', target);
    } else if frame :| s'.frames == s.frames + [frame] {
      OneFrame(s, s', frame, target);
      assert s'.frames[|s.frames|] == frame;
      if frame.signal.Press? { assert frame.target == target ==> NewPress(s, s', target, frame.signal.key); }
    } else {
      var to, key :| s'.frames == s.frames + Tap(to, key, Both);
      TapSeen(s, s', to, key, Both, target);
      assert s'.frames[|s.frames|] == Frame(to, Press(key));
      assert to == target ==> NewPress(s, s', target, key);
    }
  }

  // ---------------------------------------------------------------- the account of tasks

  lemma {:induction false} CancelledAccounted(s: State, target: LogicalAddress, next: Then)
    requires Accounted(s) && s.call.None? && target in s.repeats && Mapped(s, target, s.repeats[target])
    ensures Accounted(Cancelled(s, target, next))
  {
    var s' := Cancelled(s, target, next);
    forall id | 0 <= id < |s'.tasks| && Alive(s', id) ensures Known(s', id) {
      assert Alive(s, id) && Known(s, id);
    }
  }

  lemma {:induction false} SpawnedAccounted(s: State, target: LogicalAddress, key: Key)
    requires Accounted(s) && target !in s.repeats && (s.call.None? || !Alive(s, s.call.value.task))
    ensures Accounted(Spawned(s, target, key))
  {
    var s' := Spawned(s, target, key);
    forall id | 0 <= id < |s'.tasks| && Alive(s', id) ensures Known(s', id) {
      if id < |s.tasks| { assert Alive(s, id) && Known(s, id); }
    }
  }

  /** Steps of methods that spawn and cancel nothing. */
  lemma {:induction false} ResumedAccounted(s: State, s': State)
    requires Accounted(s) && s'.tasks == s.tasks && s'.repeats == s.repeats
    requires s'.call == s.call || (s'.call.None? && !Alive(s, s.call.value.task))
    ensures Accounted(s')
  {
    forall id | 0 <= id < |s'.tasks| && Alive(s', id) ensures Known(s', id) {
      assert Alive(s, id) && Known(s, id);
    }
  }

  lemma {:induction false} TaskAccounted(s: State, s': State, id: nat)
    requires Accounted(s) && TaskStep(s, s', id)
    ensures Accounted(s')
  {
    forall other | 0 <= other < |s'.tasks| && Alive(s', other) ensures Known(s', other) {
      assert Alive(s, other) && Known(s, other);
    }
  }

  /** The methods that press, up to their wait. */
  lemma {:induction false} PressAccounted(s: State, s': State, to: LogicalAddress, key: Key, reach: Reach)
    requires Accounted(s) && (CallPress(s, s', to, key) || CallOnce(s, s', to, key, reach))
    ensures Accounted(s')
  {
    hide Accounted, Spawned, Cancelled, Alive;
    if to in s.repeats {
      CancelledAccounted(s, to, Spawn(key));
      CancelledAccounted(s, to, Once(key));
      CancelledAccounted(s, to, Finish);
    } else if CallPress(s, s', to, key) {
      SpawnedAccounted(s, to, key);
    } else {
      ResumedAccounted(s, s');
    }
  }

  lemma {:induction false} ReleaseAccounted(s: State, s': State, to: LogicalAddress)
    requires Accounted(s) && CallRelease(s, s', to)
    ensures Accounted(s')
  {
    hide Accounted, Cancelled, Alive;
    if to in s.repeats { CancelledAccounted(s, to, Finish); } else { ResumedAccounted(s, s'); }
  }

  lemma {:induction false} JoinAccounted(s: State, s': State, reach: Reach)
    requires Accounted(s) && Join(s, s', reach)
    ensures Accounted(s')
  {
    hide Spawned, Known;
    if s.call.value.next.Spawn? && !s.tasks[s.call.value.task].place.Failed? {
      SpawnedAccounted(s, s.tasks[s.call.value.task].target, s.call.value.next.key);
    } else {
      ResumedAccounted(s, s');
    }
  }

  lemma {:induction false} StepAccounted(s: State, s': State)
    requires Accounted(s) && Next(s, s')
    ensures Accounted(s')
  {
    hide Accounted, CallPress, CallOnce, CallRelease, Join, TaskStep;
    if to, key :| CallPress(s, s', to, key) {
      PressAccounted(s, s', to, key, Neither);
    } else if to, key, reach :| CallOnce(s, s', to, key, reach) {
      PressAccounted(s, s', to, key, reach);
    } else if to :| CallRelease(s, s', to) {
      ReleaseAccounted(s, s', to);
    } else if reach :| Join(s, s', reach) {
      JoinAccounted(s, s', reach);
    } else if id: nat :| TaskStep(s, s', id) {
      TaskAccounted(s, s', id);
    } else {
      ResumedAccounted(s, s');
    }
  }

  // ---------------------------------------------------------------- attended presses

  lemma {:induction false} OneTarget(s: State, id: nat, target: LogicalAddress)
    requires Accounted(s) && Attended(s, target) && Alive(s, id) && s.tasks[id].target == target
    ensures Sees(s, target).Open? ==> Sees(s, target).key == s.tasks[id].key
  {
    if Sees(s, target).Open? {
      var other: nat :| Holds(s, other, target, Sees(s, target).key);
      OneTaskPerTarget(s, id, other);
    }
  }

  ghost predicate Idle(s: State, to: LogicalAddress) {
    forall id :: 0 <= id < |s.tasks| && s.tasks[id].target == to ==> !Alive(s, id)
  }

  /** No task runs for a target the map does not hold, once the method in progress has joined its own. */
  lemma {:induction false} UnmappedIsIdle(s: State, to: LogicalAddress)
    requires Accounted(s) && to !in s.repeats && (s.call.None? || !Alive(s, s.call.value.task))
    ensures Idle(s, to)
  {
    forall id | 0 <= id < |s.tasks| && s.tasks[id].target == to ensures !Alive(s, id) {
      assert Alive(s, id) ==> Known(s, id);
    }
  }

  /** Methods and tasks never press another key on a target whose open press is attended. */
  lemma {:induction false} AttendedIsNotOverrun(s: State, s': State, target: LogicalAddress)
    requires Accounted(s) && Attended(s, target)
    ensures !Overruns(s, s', target)
  {
    hide Sees;
    if key :| RepeatPresses(s, s', target, key) && OtherOpen(s, target, key) {
      if id: nat :| TaskPresses(s, s', id, target, key) {
        OneTarget(s, id, target);
        assert false;
      } else {
        UnmappedIsIdle(s, target);
        assert false;
      }
    }
  }

  /** The target's tasks that were running still are, and it sees what it saw. */
  lemma {:induction false} UntouchedStaysAttended(s: State, s': State, target: LogicalAddress)
    requires Attended(s, target) && Sees(s', target) == Sees(s, target) && |s.tasks| <= |s'.tasks|
    requires forall id :: 0 <= id < |s.tasks| && Alive(s, id) && s.tasks[id].target == target ==>
      Alive(s', id) && s'.tasks[id].target == target && s'.tasks[id].key == s.tasks[id].key
    ensures Attended(s', target)
  {
    if Sees(s, target).Open? {
      var id: nat :| Holds(s, id, target, Sees(s, target).key);
      assert Holds(s', id, target, Sees(s', target).key);
    }
  }

  // ---------------------------------------------------------------- presses left open

  /** A press that the sender will not release: sent raw, or by a method whose release then failed. */
  ghost predicate LoosePress(s: State, s': State, target: LogicalAddress, key: Key) {
    Raw(s, s', target, Press(key)) || Taps(s, s', target, key, PressOnly)
  }

  ghost predicate Drops(s: State, s': State, id: nat, target: LogicalAddress, key: Key) {
    TaskFails(s, s', id) && s.tasks[id].target == target && s.tasks[id].key == key
  }

  /**
   * A step leaves a press open that nobody attends to: a press without a release reaches a target that sees none
   * and for which no task repeats that key, or the task that repeats the open key fails.
   */
  ghost predicate Leaves(s: State, s': State, target: LogicalAddress, key: Key) {
    || (LoosePress(s, s', target, key) && Sees(s, target).Closed? && forall id :: !Holds(s, id, target, key))
    || (Sees(s, target) == Open(key) && exists id: nat :: Drops(s, s', id, target, key))
  }

  lemma {:induction false} LoosePressFrames(s: State, s': State, target: LogicalAddress, key: Key)
    requires LoosePress(s, s', target, key)
    ensures s'.frames == s.frames + [Frame(target, Press(key))] && s'.tasks == s.tasks
  {
    hide MethodTaps, Volume;
    if Taps(s, s', target, key, PressOnly) { TapFrames(s, s', target, key, PressOnly); }
  }

  lemma {:induction false} LeftIsLoose(s: State, s': State, target: LogicalAddress, key: Key)
    requires Accounted(s) && Leaves(s, s', target, key)
    ensures Loose(s', target, key)
  {
    hide Sees, LoosePress;
    if id: nat :| Sees(s, target) == Open(key) && Drops(s, s', id, target, key) {
      SameFrames(s, s', target);
      if other: nat :| Holds(s', other, target, key) {
        OneTaskPerTarget(s, id, other);
      }
    } else {
      LoosePressFrames(s, s', target, key);
      OneFrame(s, s', Frame(target, Press(key)), target);
      assert forall id: nat :: Holds(s', id, target, key) ==> Holds(s, id, target, key);
    }
  }

  lemma {:induction false} LoosePressAttends(s: State, s': State, target: LogicalAddress, key: Key)
    requires Attended(s, target) && LoosePress(s, s', target, key)
    ensures Attended(s', target) || Leaves(s, s', target, key)
  {
    hide Sees, LoosePress;
    LoosePressFrames(s, s', target, key);
    OneFrame(s, s', Frame(target, Press(key)), target);
    if id: nat :| Holds(s, id, target, key) {
      assert Holds(s', id, target, key);
    }
  }

  lemma {:induction false} FailureAttends(s: State, s': State, id: nat, target: LogicalAddress)
    requires Accounted(s) && Attended(s, target) && TaskFails(s, s', id)
    ensures Attended(s', target) || exists key :: Leaves(s, s', target, key)
  {
    SameFrames(s, s', target);
    hide Sees;
    if s.tasks[id].target != target {
      UntouchedStaysAttended(s, s', target);
    } else {
      OneTarget(s, id, target);
      assert Sees(s, target).Open? ==> Drops(s, s', id, target, Sees(s, target).key);
      assert Sees(s, target).Open? ==> Leaves(s, s', target, Sees(s, target).key);
    }
  }

  lemma {:induction false} OwnPressAttends(s: State, s': State, id: nat)
    requires Accounted(s) && TaskPress(s, s', id) && Attended(s, s.tasks[id].target)
    ensures Attended(s', s.tasks[id].target)
  {
    var target, key := s.tasks[id].target, s.tasks[id].key;
    OneTarget(s, id, target);
    assert Holds(s', id, target, key);
    hide Sees, Accounted, Holds, Moved;
    OneFrame(s, s', Frame(target, Press(key)), target);
  }

  lemma {:induction false} OwnReleaseAttends(s: State, s': State, id: nat)
    requires TaskRelease(s, s', id)
    ensures Attended(s', s.tasks[id].target)
  {
    hide Sees;
    OneFrame(s, s', Frame(s.tasks[id].target, Release), s.tasks[id].target);
  }

  lemma {:induction false} TaskAttends(s: State, s': State, id: nat, target: LogicalAddress)
    requires Accounted(s) && Attended(s, target) && TaskStep(s, s', id) && !TaskFails(s, s', id)
    ensures Attended(s', target)
  {
    hide Sees, Accounted, Attended;
    var task := s.tasks[id];
    if TaskSelect(s, s', id, true) || TaskSelect(s, s', id, false) {
      SameFrames(s, s', target);
      UntouchedStaysAttended(s, s', target);
    } else if task.target == target {
      if TaskPress(s, s', id) { OwnPressAttends(s, s', id); } else { OwnReleaseAttends(s, s', id); }
    } else {
      OneFrame(s, s', Frame(task.target, if TaskPress(s, s', id) then Press(task.key) else Release), target);
      UntouchedStaysAttended(s, s', target);
    }
  }

  lemma {:induction false} TapAttends(s: State, s': State, to: LogicalAddress, key: Key, reach: Reach,
                                      target: LogicalAddress)
    requires Attended(s, target) && Taps(s, s', to, key, reach)
    ensures Attended(s', target) || Leaves(s, s', target, key)
  {
    hide Sees, Leaves;
    TapFrames(s, s', to, key, reach);
    TapSeen(s, s', to, key, reach, target);
    if to != target || reach.Neither? {
      UntouchedStaysAttended(s, s', target);
    } else if reach.PressOnly? {
      LoosePressAttends(s, s', target, key);
    }
  }

  lemma {:induction false} RawAttends(s: State, s': State, to: LogicalAddress, signal: Signal, target: LogicalAddress)
    requires Attended(s, target) && Raw(s, s', to, signal)
    ensures Attended(s', target) || exists key :: Leaves(s, s', target, key)
  {
    hide Sees, Leaves;
    OneFrame(s, s', Frame(to, signal), target);
    if to != target {
      UntouchedStaysAttended(s, s', target);
    } else if signal.Press? {
      LoosePressAttends(s, s', target, signal.key);
    }
  }

  /** A step leaves a press open exactly if it is one of those that Leaves lists. */
  lemma {:induction false} StepAttends(s: State, s': State, target: LogicalAddress)
    requires Accounted(s) && Attended(s, target) && Next(s, s')
    ensures Attended(s', target) <==> !exists key :: Leaves(s, s', target, key)
  {
    Kinds(s, s');
    hide Next, Attended, TaskStep, Sees, Accounted, Leaves, Taps, Raw;
    if key :| Leaves(s, s', target, key) {
      LeftIsLoose(s, s', target, key);
    }
    if to, key, reach :| Taps(s, s', to, key, reach) {
      TapAttends(s, s', to, key, reach, target);
    } else if to, signal :| Raw(s, s', to, signal) {
      RawAttends(s, s', to, signal, target);
    } else if to :| LoneRelease(s, s', to) {
      ReleaseAttends(s, s', to, target);
    } else if id: nat :| TaskStep(s, s', id) {
      if TaskFails(s, s', id) { FailureAttends(s, s', id, target); } else { TaskAttends(s, s', id, target); }
    } else {
      SameFrames(s, s', target);
      UntouchedStaysAttended(s, s', target);
    }
  }

  lemma {:induction false} ReleaseAttends(s: State, s': State, to: LogicalAddress, target: LogicalAddress)
    requires Attended(s, target) && LoneRelease(s, s', to)
    ensures Attended(s', target)
  {
    hide Sees;
    OneFrame(s, s', Frame(to, Release), target);
    if to != target { UntouchedStaysAttended(s, s', target); }
  }

  /** An open press that is unattended after a step was left by it, or was unattended before. */
  lemma {:induction false} LeftOrStillLoose(s: State, s': State, target: LogicalAddress) returns (open: Key)
    requires Accounted(s) && Next(s, s') && !Attended(s', target)
    ensures Loose(s', target, open)
    ensures if Attended(s, target) then Leaves(s, s', target, open) else Loose(s, target, open)
  {
    StepGrows(s, s');
    FramesBreak(s, s', target);
    assert Sees(s', target).Open?;
    assert !Attended(s, target) ==> Sees(s, target).Open?;
    open := Sees(s', target).key;
    hide Next, Sees, Grows, Accounted, Leaves, Attended;
    if Attended(s, target) {
      StepAttends(s, s', target);
      var key :| Leaves(s, s', target, key);
      LeftIsLoose(s, s', target, key);
    }
  }

  lemma {:induction false} OverrunIsLoose(s: State, s': State, target: LogicalAddress) returns (left: Key, key: Key)
    requires Accounted(s) && Overruns(s, s', target)
    ensures Loose(s, target, left) && RepeatPresses(s, s', target, key) && key != left
  {
    if Attended(s, target) { AttendedIsNotOverrun(s, s', target); }
    hide Accounted, Attended, RepeatPresses, Sees;
    key :| RepeatPresses(s, s', target, key) && OtherOpen(s, target, key);
    left := Sees(s, target).key;
  }

  // ---------------------------------------------------------------- repeats that failed

  /** The map still holds a task that has failed. */
  ghost predicate Stale(s: State, target: LogicalAddress, id: nat) {
    Mapped(s, target, id) && At(s, id, Failed)
  }

  /** A method takes the target's entry out of the map: a release, a single press, or a press of another key. */
  ghost predicate Takes(s: State, s': State, target: LogicalAddress) {
    target in s.repeats && s.repeats[target] < |s.tasks| && s.call.None? &&
    exists next :: s' == Cancelled(s, target, next)
  }

  ghost predicate Calls(s: State, s': State) {
    || (exists to, key :: CallPress(s, s', to, key))
    || (exists to, key, reach :: CallOnce(s, s', to, key, reach))
    || (exists to :: CallRelease(s, s', to))
  }

  lemma {:induction false} StaleCalls(s: State, s': State, target: LogicalAddress, id: nat)
    requires Stale(s, target, id) && Calls(s, s')
    ensures Stale(s', target, id) || Takes(s, s', target)
    ensures id < |s'.tasks| && s'.tasks[id].key == s.tasks[id].key
  {}

  /** Only a method that takes the entry out ends this. */
  lemma {:induction false} StaleStays(s: State, s': State, target: LogicalAddress, id: nat)
    requires Accounted(s) && Next(s, s') && Stale(s, target, id)
    ensures Stale(s', target, id) || Takes(s, s', target)
    ensures id < |s'.tasks| && s'.tasks[id].key == s.tasks[id].key
  {
    hide CallPress, CallOnce, CallRelease, Takes, Tap;
    if Calls(s, s') { StaleCalls(s, s', target, id); }
  }

  /** A press that finds the entry of a failed task is accepted and does nothing exactly if it is of the task's key. */
  lemma {:induction false} StalePressIsSwallowed(s: State, s': State, target: LogicalAddress, key: Key, id: nat)
    requires Stale(s, target, id) && CallPress(s, s', target, key)
    ensures if key == s.tasks[id].key then s' == s else Takes(s, s', target)
  {}

  lemma {:induction false} StaleIsSilent(s: State, s': State, target: LogicalAddress, id: nat, key: Key)
    requires Accounted(s) && Stale(s, target, id)
    ensures !RepeatPresses(s, s', target, key)
  {
    hide Tap, Spawned, Cancelled;
    if other: nat :| TaskPresses(s, s', other, target, key) {
      KnownIsNotStale(s, other, target, id);
    }
  }

  lemma {:induction false} KnownIsNotStale(s: State, other: nat, target: LogicalAddress, id: nat)
    requires Accounted(s) && Stale(s, target, id) && other < |s.tasks| && s.tasks[other].target == target
    ensures !Alive(s, other)
  {
    assert Alive(s, other) ==> Known(s, other);
  }

  /** A method that waits for a task that has failed goes on waiting, or ends having sent and spawned nothing. */
  lemma {:induction false} FailedJoinIsSilent(s: State, s': State)
    requires Accounted(s) && Next(s, s') && s.call.Some? && At(s, s.call.value.task, Failed)
    ensures (s'.call == s.call && At(s', s.call.value.task, Failed)) || s' == s.(call := None)
    ensures forall target, key, reach :: !MethodTaps(s, s', target, key, reach)
  {}

  // ---------------------------------------------------------------- runs

  ghost predicate ClashAt(run: seq<State>, k: nat, target: LogicalAddress) {
    0 < k < |run| && (Intrudes(run[k - 1], run[k], target) || Overruns(run[k - 1], run[k], target))
  }

  /** A client presses past the methods while another key is open on the target. */
  ghost predicate ClientClashAt(run: seq<State>, k: nat, target: LogicalAddress) {
    0 < k < |run| && Intrudes(run[k - 1], run[k], target)
  }

  ghost predicate VolumeClashAt(run: seq<State>, k: nat, target: LogicalAddress) {
    0 < k < |run| && VolumeIntrudes(run[k - 1], run[k], target)
  }

  ghost predicate RawPressAt(run: seq<State>, k: nat, target: LogicalAddress) {
    0 < k < |run| && exists key :: Raw(run[k - 1], run[k], target, Press(key))
  }

  ghost predicate LeavesAt(run: seq<State>, j: nat, target: LogicalAddress, key: Key) {
    0 < j < |run| && Leaves(run[j - 1], run[j], target, key)
  }

  /** Step j left a press of the key open, and up to step k it is still open and no task attends to it. */
  ghost predicate LeftOpen(run: seq<State>, j: nat, k: nat, target: LogicalAddress, key: Key) {
    j <= k < |run| && LeavesAt(run, j, target, key) && forall m :: j <= m <= k ==> Loose(run[m], target, key)
  }

  ghost predicate TakesAt(run: seq<State>, k: nat, target: LogicalAddress) {
    0 < k < |run| && Takes(run[k - 1], run[k], target)
  }

  /** A method or a repeat task presses the key on the target. */
  ghost predicate RepeatPressAt(run: seq<State>, k: nat, target: LogicalAddress, key: Key) {
    0 < k < |run| && RepeatPresses(run[k - 1], run[k], target, key)
  }

  /** A method or a repeat task presses over a press of another key that was left open some time before. */
  ghost predicate PressedOver(run: seq<State>, j: nat, k: nat, target: LogicalAddress, left: Key, key: Key) {
    j < k < |run| && LeftOpen(run, j, k - 1, target, left) && RepeatPressAt(run, k, target, key) && key != left
  }

  lemma {:induction false} LeftIsStillLoose(run: seq<State>, j: nat, k: nat, target: LogicalAddress, key: Key)
    requires LeftOpen(run, j, k, target, key)
    ensures 0 < j <= k < |run| && LeavesAt(run, j, target, key) && Loose(run[k], target, key)
  {}

  lemma {:induction false} RunAccounted(run: seq<State>, k: nat)
    requires Run(run) && k < |run|
    ensures Accounted(run[k])
  {
    if k == 0 {
    } else {
      assert Next(run[k - 1], run[k]);
      hide *;
      RunAccounted(run, k - 1);
      StepAccounted(run[k - 1], run[k]);
    }
  }

  lemma {:induction false} ClashesUpTo(run: seq<State>, k: nat, target: LogicalAddress)
    requires Run(run) && k < |run|
    ensures Sees(run[k], target) == Clash <==> exists i: nat :: i <= k && ClashAt(run, i, target)
  {
    if k == 0 {
    } else {
      assert Next(run[k - 1], run[k]);
      ClashesUpTo(run, k - 1, target);
      hide Next, Sees, Intrudes, Overruns, Run;
      StepBreaks(run[k - 1], run[k], target);
      assert ClashAt(run, k, target) <==> Intrudes(run[k - 1], run[k], target) || Overruns(run[k - 1], run[k], target);
    }
  }

  /**
   * At any time a target sees an open press that no running task attends to exactly if some step before left
   * that press open and it has been open and unattended ever since.
   */
  lemma {:induction false} UnattendedExactlyLeft(run: seq<State>, k: nat, target: LogicalAddress)
    requires Run(run) && k < |run|
    ensures !Attended(run[k], target) <==> LeftBefore(run, k, target)
  {
    if k == 0 {
    } else {
      assert Next(run[k - 1], run[k]);
      UnattendedExactlyLeft(run, k - 1, target);
      RunAccounted(run, k - 1);
      var s, s' := run[k - 1], run[k];
      assert Attended(s', target) || Loose(s', target, Sees(s', target).key);
      hide Run, Next, Sees, Accounted, Leaves, Attended;
      if !Attended(s', target) {
        LeftSoFar(run, k, target);
      }
    }
  }

  ghost predicate LeftBefore(run: seq<State>, k: nat, target: LogicalAddress) {
    exists j: nat, key :: LeftOpen(run, j, k, target, key)
  }

  lemma {:induction false} LooseSince(run: seq<State>, k: nat, target: LogicalAddress, key: Key) returns (j: nat)
    requires k < |run| && Loose(run[k], target, key) && LeftBefore(run, k, target)
    ensures LeftOpen(run, j, k, target, key)
  {
    hide LeftOpen, Attended, Sees;
    var i: nat, left :| LeftOpen(run, i, k, target, left);
    LeftIsStillLoose(run, i, k, target, left);
    j := i;
  }

  lemma {:induction false} LeftSoFar(run: seq<State>, k: nat, target: LogicalAddress)
    requires 0 < k < |run| && Accounted(run[k - 1]) && Next(run[k - 1], run[k]) && !Attended(run[k], target)
    requires !Attended(run[k - 1], target) ==> LeftBefore(run, k - 1, target)
    ensures LeftBefore(run, k, target)
  {
    hide *;
    var open := LeftOrStillLoose(run[k - 1], run[k], target);
    if Attended(run[k - 1], target) {
      LeftNow(run, k, target, open);
    } else {
      var j := LooseSince(run, k - 1, target, open);
      LeftExtends(run, j, k - 1, target, open);
    }
  }

  lemma {:induction false} LeftNow(run: seq<State>, k: nat, target: LogicalAddress, key: Key)
    requires 0 < k < |run| && Leaves(run[k - 1], run[k], target, key) && Loose(run[k], target, key)
    ensures LeftBefore(run, k, target)
  {
    hide Leaves, Loose;
    assert LeftOpen(run, k, k, target, key);
  }

  lemma {:induction false} LeftExtends(run: seq<State>, j: nat, k: nat, target: LogicalAddress, key: Key)
    requires LeftOpen(run, j, k, target, key) && k + 1 < |run| && Loose(run[k + 1], target, key)
    ensures LeftOpen(run, j, k + 1, target, key) && LeftBefore(run, k + 1, target)
  {
    hide LeavesAt, Loose;
    assert LeftOpen(run, j, k + 1, target, key);
  }

  /** Methods and tasks overrun a press exactly if it was left open and has been unattended ever since. */
  lemma {:induction false} OverrunsExactlyWhatWasLeft(run: seq<State>, k: nat, target: LogicalAddress)
    requires Run(run) && 0 < k < |run|
    ensures Overruns(run[k - 1], run[k], target) <==>
      exists j: nat, left, key :: PressedOver(run, j, k, target, left, key)
  {
    if Overruns(run[k - 1], run[k], target) { OverrunWasLeft(run, k, target); }
    hide Run, RepeatPresses, LeavesAt, Sees;
    if j: nat, left, key :| PressedOver(run, j, k, target, left, key) {
      assert Loose(run[k - 1], target, left);
    }
  }

  lemma {:induction false} OverrunWasLeft(run: seq<State>, k: nat, target: LogicalAddress)
    requires Run(run) && 0 < k < |run| && Overruns(run[k - 1], run[k], target)
    ensures exists j: nat, left, key :: PressedOver(run, j, k, target, left, key)
  {
    RunAccounted(run, k - 1);
    UnattendedExactlyLeft(run, k - 1, target);
    hide *;
    var left, key := OverrunIsLoose(run[k - 1], run[k], target);
    var j := LooseSince(run, k - 1, target, left);
    PressedOverBy(run, j, k, target, left, key);
  }

  lemma {:induction false} PressedOverBy(run: seq<State>, j: nat, k: nat, target: LogicalAddress, left: Key, key: Key)
    requires 0 < k < |run| && LeftOpen(run, j, k - 1, target, left)
    requires RepeatPresses(run[k - 1], run[k], target, key) && key != left
    ensures PressedOver(run, j, k, target, left, key)
  {
    hide RepeatPresses, LeavesAt, Loose;
  }

  /**
   * Over every schedule and whatever transmissions fail, the frames a target receives form blocks, a repeated press
   * and its release or a lone release, exactly when no client presses past the methods while another key is open
   * there, and no method or repeat task presses over a press that was left open before: by a client that sent it
   * raw, by a method whose release failed, or by a repeat task that failed.
   */
  lemma {:induction false} BlocksExactlyWithoutClash(run: seq<State>, target: LogicalAddress)
    requires Run(run)
    ensures InBlocks(ToTarget(run[|run| - 1].frames, target)) <==>
      && (forall k: nat :: !ClientClashAt(run, k, target))
      && (forall j: nat, k: nat, left, key :: !PressedOver(run, j, k, target, left, key))
  {
    var last := |run| - 1;
    ClashesUpTo(run, last, target);
    ClashFreeExactlyBlocks(ToTarget(run[last].frames, target));
    hide Intrudes, Overruns, InBlocks, Run, PressedOver;
    if i: nat :| i <= last && ClashAt(run, i, target) {
      OverrunsExactlyWhatWasLeft(run, i, target);
      assert Intrudes(run[i - 1], run[i], target) ==> ClientClashAt(run, i, target);
    }
    if k: nat :| ClientClashAt(run, k, target) {
      assert ClashAt(run, k, target);
    }
    if j: nat, k: nat, left, key :| PressedOver(run, j, k, target, left, key) {
      PressedOverInRun(run, j, k, target, left, key);
      OverrunsExactlyWhatWasLeft(run, k, target);
      assert ClashAt(run, k, target);
    }
  }

  lemma {:induction false} PressedOverInRun(run: seq<State>, j: nat, k: nat, target: LogicalAddress,
                                            left: Key, key: Key)
    requires PressedOver(run, j, k, target, left, key)
    ensures 0 < j < k < |run| && LeavesAt(run, j, target, left)
  {}

  /**
   * The methods and repeat tasks by themselves never break the blocks: if no press to the target was ever left open
   * and no client sent it one raw, they form blocks exactly when no volume method is used on it while another key is
   * open there.
   */
  lemma {:induction false} BlocksExactlyWithoutVolumeClash(run: seq<State>, target: LogicalAddress)
    requires Run(run)
    requires forall j: nat, key :: !LeavesAt(run, j, target, key)
    requires forall j: nat :: !RawPressAt(run, j, target)
    ensures InBlocks(ToTarget(run[|run| - 1].frames, target)) <==> forall k: nat :: !VolumeClashAt(run, k, target)
    ensures forall k :: 0 < k < |run| ==> !Overruns(run[k - 1], run[k], target)
  {
    BlocksExactlyWithoutClash(run, target);
    forall k | 0 < k < |run| ensures !Overruns(run[k - 1], run[k], target) {
      NothingOverruns(run, k, target);
    }
    hide PressedOver, Volume, Raw, OtherOpen, Run, InBlocks, LeavesAt;
    if j: nat, k: nat, left, key :| PressedOver(run, j, k, target, left, key) {
      PressedOverInRun(run, j, k, target, left, key);
    }
    forall k: nat
      ensures ClientClashAt(run, k, target) <==> VolumeClashAt(run, k, target)
    {
      assert !RawPressAt(run, k, target);
    }
  }

  lemma {:induction false} NothingOverruns(run: seq<State>, k: nat, target: LogicalAddress)
    requires Run(run) && 0 < k < |run| && forall j: nat, key :: !LeavesAt(run, j, target, key)
    ensures !Overruns(run[k - 1], run[k], target)
  {
    OverrunsExactlyWhatWasLeft(run, k, target);
    hide PressedOver, Overruns, LeavesAt, Run;
    if j: nat, left, key :| PressedOver(run, j, k, target, left, key) {
      PressedOverInRun(run, j, k, target, left, key);
    }
  }

  /**
   * In every reachable state at most one task per target runs, and the map or the method in progress knows it.
   * An open press on a target without a running task was left open by a step before and has been so ever since.
   */
  lemma {:induction false} TasksOfARun(run: seq<State>, k: nat, target: LogicalAddress)
    requires Run(run) && k < |run|
    ensures forall a: nat, b: nat ::
      Alive(run[k], a) && Alive(run[k], b) && run[k].tasks[a].target == run[k].tasks[b].target ==> a == b
    ensures forall a: nat :: Alive(run[k], a) ==> Known(run[k], a)
    ensures Idle(run[k], target) && Sees(run[k], target).Open? ==>
      exists j: nat :: LeftOpen(run, j, k, target, Sees(run[k], target).key)
  {
    RunAccounted(run, k);
    UnattendedExactlyLeft(run, k, target);
    var s := run[k];
    forall a: nat, b: nat | Alive(s, a) && Alive(s, b) && s.tasks[a].target == s.tasks[b].target ensures a == b {
      OneTaskPerTarget(s, a, b);
    }
    hide Sees, Run, LeavesAt;
    if Idle(s, target) && Sees(s, target).Open? {
      assert !Attended(s, target);
      var j: nat, key :| LeftOpen(run, j, k, target, key);
      assert Loose(run[k], target, key);
    }
  }

  /**
   * From the time a repeat task has failed until a method takes its entry out of the map, no method or task presses
   * anything on the target, and presses of the task's key are accepted.
   */
  lemma {:induction false} FailedRepeatSwallows(run: seq<State>, i: nat, k: nat, target: LogicalAddress, id: nat)
    requires Run(run) && i <= k < |run| && Stale(run[i], target, id)
    requires forall m: nat :: i < m <= k ==> !TakesAt(run, m, target)
    ensures Stale(run[k], target, id) && run[k].tasks[id].key == run[i].tasks[id].key
    ensures forall m: nat, key :: i < m <= k ==> !RepeatPressAt(run, m, target, key)
    decreases k
  {
    hide Run, TakesAt, RepeatPressAt, At;
    if i == k {
    } else {
      assert !TakesAt(run, k, target);
      FailedRepeatSwallows(run, i, k - 1, target, id);
      SwallowsOneStep(run, k, target, id);
    }
  }

  lemma {:induction false} SwallowsOneStep(run: seq<State>, k: nat, target: LogicalAddress, id: nat)
    requires Run(run) && 0 < k < |run| && Stale(run[k - 1], target, id) && !TakesAt(run, k, target)
    ensures Stale(run[k], target, id) && id < |run[k].tasks| && id < |run[k - 1].tasks|
    ensures run[k].tasks[id].key == run[k - 1].tasks[id].key
    ensures forall key :: !RepeatPressAt(run, k, target, key)
  {
    assert Next(run[k - 1], run[k]) && id < |run[k - 1].tasks|;
    RunAccounted(run, k - 1);
    hide Next, RepeatPresses, Takes, Accounted, Run, Stale;
    StaleStays(run[k - 1], run[k], target, id);
    forall key ensures !RepeatPressAt(run, k, target, key) {
      StaleIsSilent(run[k - 1], run[k], target, id, key);
    }
  }

  /** The clash can happen: a volume call while a repeat task holds another key. */
  lemma {:induction false} VolumeCanClash(target: LogicalAddress, held: Key, volume: Key) returns (run: seq<State>)
    requires held != volume
    ensures Run(run) && !InBlocks(ToTarget(run[|run| - 1].frames, target))
  {
    var spawned := Spawned(START, target, held);
    var pressed := Moved(spawned, 0, Selecting).(frames := [Frame(target, Press(held))]);
    var turned := pressed.(frames := pressed.frames + Tap(target, volume, Both));
    assert CallPress(START, spawned, target, held);
    assert TaskStep(spawned, pressed, 0) && Volume(pressed, turned, target, volume, Both);
    run := [START, spawned, pressed, turned];
    assert Next(START, spawned) && Next(spawned, pressed) && Next(pressed, turned);
    assert Sees(pressed, target) == Open(held) by {
      assert pressed.frames == spawned.frames + [Frame(target, Press(held))];
      OneFrame(spawned, pressed, Frame(target, Press(held)), target);
    }
    assert VolumePresses(pressed, turned, target, volume) && ClientPresses(pressed, turned, target, volume);
    assert OtherOpen(pressed, target, volume);
    assert Intrudes(pressed, turned, target) && ClientClashAt(run, 3, target);
    hide Next, ClientClashAt, Intrudes;
    BlocksExactlyWithoutClash(run, target);
  }

  /** So can one without any client press on an open key: a press sent raw is left open, and a repeat starts. */
  lemma {:induction false} RawPressCanClash(target: LogicalAddress, raw: Key, held: Key) returns (run: seq<State>)
    requires raw != held
    ensures Run(run) && !InBlocks(ToTarget(run[|run| - 1].frames, target))
    ensures forall k: nat :: !ClientClashAt(run, k, target)
  {
    var sent := START.(frames := [Frame(target, Press(raw))]);
    var spawned := Spawned(sent, target, held);
    var pressed := Moved(spawned, 0, Selecting).(frames := spawned.frames + [Frame(target, Press(held))]);
    assert START.frames + [Frame(target, Press(raw))] == sent.frames;
    assert Raw(START, sent, target, Press(raw)) && CallPress(sent, spawned, target, held);
    assert TaskStep(spawned, pressed, 0);
    run := [START, sent, spawned, pressed];
    assert Next(START, sent) && Next(sent, spawned) && Next(spawned, pressed);
    OneFrame(START, spawned, Frame(target, Press(raw)), target);
    assert TaskPresses(spawned, pressed, 0, target, held) && RepeatPresses(spawned, pressed, target, held);
    assert OtherOpen(spawned, target, held) && Overruns(spawned, pressed, target) && ClashAt(run, 3, target);
    forall k: nat ensures !ClientClashAt(run, k, target) {
      if ClientClashAt(run, k, target) { ClientsMoveNoTask(run[k - 1], run[k], target); }
    }
    hide Next, ClashAt, Overruns, ClientClashAt;
    ClashesUpTo(run, 3, target);
    ClashFreeExactlyBlocks(ToTarget(run[3].frames, target));
  }

  lemma {:induction false} ClientsMoveNoTask(s: State, s': State, target: LogicalAddress)
    requires Intrudes(s, s', target)
    ensures s'.tasks == s.tasks && Sees(s, target).Open?
  {
    hide Sees;
  }

  /**
   * A repeat task that fails after its first press leaves the key open, and so does the release that follows: it ends
   * with the task's error and sends nothing.
   */
  lemma {:induction false} ReleaseCanLeaveKeyOpen(target: LogicalAddress, key: Key) returns (run: seq<State>)
    ensures Run(run) && |run| == 7 && CallRelease(run[4], run[5], target) && Join(run[5], run[6], Both)
    ensures run[6].call.None? && run[6].repeats == map[] && Idle(run[6], target)
    ensures Sees(run[6], target) == Open(key)
  {
    var before := FailedRepeat(target, key);
    var failed := before[4];
    var released := Cancelled(failed, target, Finish);
    var joined := released.(call := None);
    SameFrames(failed, joined, target);
    assert CallRelease(failed, released, target) && Join(released, joined, Both);
    hide Sees, CallRelease, Join;
    run := ExtendRun(before, released);
    run := ExtendRun(run, joined);
  }

  /** One repeat task and nothing else. */
  function Solo(target: LogicalAddress, key: Key, place: Place, frames: seq<Frame>): State {
    State([Task(target, key, place, false)], map[target := 0], None, false, frames)
  }

  lemma {:induction false} SoloFails(target: LogicalAddress, key: Key, frames: seq<Frame>)
    ensures Next(START, Solo(target, key, Pressing, []))
    ensures Next(Solo(target, key, Selecting, frames), Solo(target, key, Pressing, frames))
    ensures Next(Solo(target, key, Pressing, frames), Solo(target, key, Failed, frames))
  {
    assert CallPress(START, Solo(target, key, Pressing, []), target, key);
    assert TaskStep(Solo(target, key, Selecting, frames), Solo(target, key, Pressing, frames), 0);
    assert TaskStep(Solo(target, key, Pressing, frames), Solo(target, key, Failed, frames), 0);
  }

  lemma {:induction false} SoloPresses(target: LogicalAddress, key: Key)
    ensures Next(Solo(target, key, Pressing, []), Solo(target, key, Selecting, [Frame(target, Press(key))]))
  {
    var before, after := Solo(target, key, Pressing, []), Solo(target, key, Selecting, [Frame(target, Press(key))]);
    assert TaskPress(before, after, 0) && TaskStep(before, after, 0);
  }

  lemma {:induction false} FirstPress(s: State, target: LogicalAddress, key: Key)
    requires s.frames == [Frame(target, Press(key))]
    ensures Sees(s, target) == Open(key)
  {
    assert START.frames + s.frames == s.frames;
    OneFrame(START, s, s.frames[0], target);
  }

  lemma {:induction false} FailedRepeat(target: LogicalAddress, key: Key) returns (run: seq<State>)
    ensures Run(run) && |run| == 5
    ensures run[4] == Solo(target, key, Failed, [Frame(target, Press(key))]) && Sees(run[4], target) == Open(key)
  {
    var frames := [Frame(target, Press(key))];
    var failed := Solo(target, key, Failed, frames);
    SoloFails(target, key, frames);
    SoloPresses(target, key);
    run := [START];
    assert Run(run) && failed.frames == frames;
    hide *;
    FirstPress(failed, target, key);
    run := ExtendRun(run, Solo(target, key, Pressing, []));
    run := ExtendRun(run, Solo(target, key, Selecting, frames));
    run := ExtendRun(run, Solo(target, key, Pressing, frames));
    run := ExtendRun(run, failed);
  }

  lemma {:induction false} ExtendRun(run: seq<State>, s: State) returns (longer: seq<State>)
    requires Run(run) && |run| > 0 && Next(run[|run| - 1], s)
    ensures Run(longer) && longer == run + [s] && longer[|longer| - 1] == s
  {
    hide Next;
    longer := run + [s];
  }
}
