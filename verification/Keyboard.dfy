/** The virtual keyboard a device task drives (cecd/src/uinput.rs). */
module Keyboard {
  import opened Wire
  import Operand

  type Command = Operand.Value

  type Key = nat

  datatype KeyEvent = Down(key: Key) | Up(key: Key)

  /** The keys the kernel holds pressed after the events. */
  function Held(events: seq<KeyEvent>): set<Key> {
    if events == [] then {}
    else
      var before := Held(events[..|events| - 1]);
      match events[|events| - 1]
      case Down(key) => before + {key}
      case Up(key) => before - {key}
  }

  /** A key is held exactly if it went down and did not come up since. */
  lemma {:induction false} HeldSinceDown(events: seq<KeyEvent>, key: Key)
    ensures key in Held(events) <==> exists i: nat :: DownSince(events, i, key)
  {
    if events == [] {
    } else {
      var before, n := events[..|events| - 1], |events| - 1;
      HeldSinceDown(before, key);
      if i: nat :| DownSince(before, i, key) && events[n] != Up(key) {
        assert DownSince(events, i, key);
      }
      if i: nat :| DownSince(events, i, key) {
        assert i < n ==> DownSince(before, i, key) && events[n] != Up(key);
      }
      assert events[n] == Down(key) ==> DownSince(events, n, key);
    }
  }

  predicate DownSince(events: seq<KeyEvent>, i: nat, key: Key) {
    i < |events| && events[i] == Down(key) && forall j :: i < j < |events| ==> events[j] != Up(key)
  }

  /** The key a command stands for, if any. */
  function Mapped(mappings: map<Command, Key>, command: Option<Command>): set<Key> {
    if command.Some? && command.value in mappings then {mappings[command.value]} else {}
  }

  class UInputDevice {
    var mappings: map<Command, Key>
    var isOpen: bool
    var events: seq<KeyEvent>

    constructor ()
      ensures mappings == map[] && !isOpen && events == []
    {
      mappings, isOpen, events := map[], false, [];
    }

    method SetMappings(newMappings: map<Command, Key>) returns (ok: bool)
      modifies this`mappings
      ensures ok <==> !isOpen
      ensures mappings == if ok then newMappings else old(mappings)
    {
      if isOpen { return false; }
      mappings := newMappings;
      ok := true;
    }

    method Open(created: bool) returns (ok: bool)
      modifies this`isOpen
      ensures ok <==> !old(isOpen) && created
      ensures isOpen <==> old(isOpen) || created
    {
      if isOpen || !created { return false; }
      isOpen := true;
      ok := true;
    }

    /** An unmapped command is no error; a write that fails changes nothing. */
    method KeyDown(command: Command, written: bool) returns (ok: bool)
      modifies this`events
      ensures ok <==> command !in mappings || written
      ensures events == old(events) + if command in mappings && written then [Down(mappings[command])] else []
      ensures Held(events) == Held(old(events)) + if ok then Mapped(mappings, Some(command)) else {}
    {
      if command !in mappings { return true; }
      if written { events := events + [Down(mappings[command])]; }
      ok := written;
    }

    method KeyUp(command: Command, written: bool) returns (ok: bool)
      modifies this`events
      ensures ok <==> command !in mappings || written
      ensures events == old(events) + if command in mappings && written then [Up(mappings[command])] else []
      ensures Held(events) == Held(old(events)) - if ok then Mapped(mappings, Some(command)) else {}
    {
      if command !in mappings { return true; }
      if written { events := events + [Up(mappings[command])]; }
      ok := written;
    }
  }
}
