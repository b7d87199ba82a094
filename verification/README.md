# A verified model of an HDMI-CEC library and daemon

This project models the hard core of a Rust HDMI-CEC library (`linux-cec`) and of the daemon built on it
(`cecd`), and proves properties of the model over every input, every run and every interleaving.
`dafny verify dfyconfig.toml` checks all of it.

| file | what it models |
|---|---|
| `Wire.dfy` | bytes, expected lengths, decoding errors and how an error is shifted by the bytes in front of an operand |
| `Arithmetic.dfy` | the steps of multiplication the other files take |
| `FixedOperand.dfy` | operands of one fixed size: words, BCD digits, channel numbers, ATSC identifiers, the HEC field, one-byte enums |
| `Operand.dfy` | operands whose size varies: bounded buffers, optional tails, continuation-bit profiles, services, timers, sources, user commands |
| `Codec.dfy` | the codec that the `MessageEnum` derive generates, as an interpreter over the layouts of all 76 CEC and 9 CDC messages |
| `Grammar.dfy` | the wire format as a relation between bytes and values, proved to be exactly what decoding reads |
| `OperandLoops.dfy` | the decoders and the encoder written as loops, proved equal to the functions |
| `WireFormat.dfy` | what the bytes are, independently of the decoder |
| `Envelope.dfy` | framing a message into the sixteen bytes the kernel takes, and reading a received frame |
| `OsdName.dfy` | trimming the on-screen name to a character boundary and putting it into a message |
| `Edid.dfy` | the search of an EDID for the HDMI physical address |
| `Reactions.dfy` | what the daemon decides on a message: the new routing state and the reply |
| `Messages.dfy` | which received messages those are, and how the replies look on the wire |
| `Keyboard.dfy`, `DeviceTask.dfy` | the task of one device: routing state and its publication, held keys, deferred callbacks, retries |
| `ActiveSource.dfy` | any number of daemons on one bus agreeing on the active source |
| `Settling.dfy` | why such a bus comes to rest once it is left alone |
| `Replies.dfy` | the reply traffic among any number of daemons |
| `KeyRepeat.dfy` | the user-control methods and the repeat tasks they cancel, join and spawn |
| `KeyDelivery.dfy` | what each of those methods puts on the bus and leaves behind, over a whole run |
| `System.dfy` | the standby flag and the table of external message handlers |

A definition that a method and its specification share proves nothing about itself. So what such definitions mean is
stated once more from the outside: bytes and values in `Grammar`, events, replies and refusals by their bytes in
`Messages`, answers and routing by cases in `Reactions`, the HDMI block by its bytes in `Edid`, frames and tasks over a
run in `KeyDelivery`, and the conditions of a device's and the system's methods on their fields in their own contracts.

The pieces are tied together: `Reactions.Route` and `Reactions.Answer` are the one definition that the
imperative `DeviceTask.HandleMessage` is proved against and that `ActiveSource` and `Replies` run on every node,
and `Messages.ReplyArrives` takes a reply through the codec and a frame to the event the other node reacts to.

What cannot be seen (the kernel, D-Bus, logind, timers) appears as parameters: every signal, write, transmission
and request may succeed or fail. Concurrent tasks are state machines whose steps interleave freely; a run is a
sequence of states. Masks and shifts are written as division and remainder, and every `|` of bits that may
overlap goes through `Wire.SetBit`. Fields and parameters called `history`, `submitted`, `ran`, `retries`,
`emptied`, `emitted`, `transmitted` and `left` are the model's own record of what happened. Every lemma switches
automatic induction off, so that its proof is the one written down; `hide` keeps definitions a proof does not need
out of the solver's way.

## Where the code is not what one would expect

Each of these is a theorem of the model. Where something can go wrong, the condition is exact: it goes wrong if
and only if the condition says so.

- `TuneFunction` with a cut-short channel reports a length one short of the input: the only message whose length
  errors are not about the whole input (`Codec.LengthErrorsHonest`).
- A message of fifteen bytes is sent but never accepted back, neither by a receiver nor by the sender, whose own frame
  goes through the same conversion; a fourteen-byte on-screen name makes such a message, though it is the length the
  buffer and the trimming allow (`Envelope.FrameRoundTrip`, `OsdName.TrimmedNameIsSent`).
- The reply loop of `handle_message` retries on two transmit errors that nothing the kernel reports is converted to.
  With the results a transmission can have, a reply is tried exactly once (`DeviceTask.FromStatus`,
  `DeviceTask.Transmit`, `DeviceTask.DeviceTask.SendReply`).
- `wake` looks at `awaiting_wake` between its attempts, but nothing can clear the flag while the task is inside
  `wake`: it always makes both its attempts to announce the source unless the device disappears
  (`DeviceTask.DeviceTask.Wake`).
- What is queued has run after any number of state changes if and only if one of them reports a non-empty list that is
  not the cached one and gets its signals through (`DeviceTask.DeviceTask.HandleStateChanges`). So a callback can stay
  queued under the very list that would have run it, for two reasons: the signal for the new list failed, after the
  list had been cached; or the list was cached already when the callback was deferred, because deferring asks the
  device and draining asks the cache (`DeviceTask.DeviceTask.StrandedCallback`).
- A client can have a daemon send anything (`set_active_source`, `send_raw_message`), and the daemon does not hear it
  itself. Two daemons can stay active on a quiet bus exactly when there are two of them and either somebody can send
  an active source or a routing change that names one daemon and that another does not hear, or a daemon can lose a
  spawned request, a reply or a message (`ActiveSource.SafeExactlyWhenHonestAndReliable`). For a client's broadcast
  that means naming another daemon's address; a stream path is harmless, because the daemon it names speaks up
  (`ActiveSource.ClientBroadcasts`).
- The volume methods and raw messages ignore the repeat map, and a failed transmission can leave a key pressed. A
  target sees two keys pressed without a release in between exactly when a volume method or a raw message presses while
  another key is open, or a method or repeat task presses over a press that was left open before it and has been
  unattended since: one a client sent raw, one whose release failed, or one whose repeat task failed
  (`KeyRepeat.BlocksExactlyWithoutClash`). The methods and repeat tasks do not clash by themselves: if nothing was
  left open and nothing sent raw, it takes a volume call while a different key is being repeated
  (`KeyRepeat.BlocksExactlyWithoutVolumeClash`).
- A repeat task that fails stays in the map. Until a method takes it out, presses of its key are accepted and nothing
  is sent (`KeyRepeat.FailedRepeatSwallows`); the release that takes it out ends with the task's error and sends
  nothing, so the key stays pressed (`KeyRepeat.ReleaseCanLeaveKeyOpen`).
- At most one suspend is decided on between two wakes, but a request decided on before a wake may reach logind after
  it, so two requests can fall between two wakes (`System.StaleRequestReachable`, `System.TwoRequestsInACycle`). A
  stretch without a wake is sure to see at most one effect exactly if the requests on their way at its start, and the
  decision it may still take, are at most one together (`System.OneEffectExactlyWhenNothingStale`).
- A Standby is passed on to logind exactly when none was, and the machine was not sent to sleep, since the last wake.
  So after a suspend that logind refused, every further Standby until the next wake is reported as done without
  anything being asked of logind (`System.PassedOnExactlyOncePerWake`, `System.RefusedSuspendSilencesStandby`).

## Model

| member | source | states |
|---|---|---|
| Wire.OffsetKeepsHonest | linux-cec/src/lib.rs:729-742 | shifting a length error by the bytes in front of an operand keeps it a true statement about the whole: the reported length is the real one and violates the reported range |
| Wire.PlusContains | linux-cec/src/lib.rs:550-567 | adding an offset to an expected range shifts exactly the set of lengths it admits |
| FixedOperand.Decode | linux-cec/src/operand.rs:323-575 | for any bytes: a decoded fixed-size operand is well-formed and was inside the input, and a length error is honest and only comes from an input that is too short; which value it is, `Grammar.FixedDecodes` says |
| FixedOperand.DecodeBcd | linux-cec/src/operand.rs:2804-2815 | a BCD byte is accepted exactly when both digits are decimal and its value is in the operand's range |
| FixedOperand.DecodeLimited | linux-cec/src/operand.rs:233-247 | a bounded byte is accepted exactly when it is in its interval or is the escape value |
| FixedOperand.HecRoundTrip | linux-cec/src/cdc.rs:199-222 | the fourteen inputs and the output of a HEC field survive packing into a word |
| FixedOperand.RoundTrip | linux-cec/src/operand.rs:323-575 | every well-formed fixed-size operand decodes from its encoding to itself, whatever bytes follow |
| Operand.StructRoundTrip | linux-cec-macros/src/lib.rs:520-570 | a struct deriving `Operand`, decoded field by field at a running offset, comes back from its encoding |
| Operand.BufferRoundTrip | linux-cec/src/operand.rs:868-902 | a bounded buffer that is the last operand comes back with its length and its default tail |
| Operand.ExtrasRoundTrip | linux-cec/src/operand.rs:655-672 | the parameters behind a head byte are found again by their continuation bits, whatever follows |
| Operand.TaggedRoundTrip | linux-cec/src/operand.rs:633-680 | the continuation-bit encoding is self-delimiting: any seven-bit head and parameters come back in front of any suffix, and the encoding is one byte longer than the parameters |
| Operand.DigitalRoundTrip | linux-cec/src/operand.rs:2254-2362 | every well-formed digital service, by identifier or by channel, comes back |
| Operand.TimerRoundTrip | linux-cec/src/operand.rs:3597-3777 | timer status, with its packed first byte and its duration present only for some codes, comes back |
| Operand.TunerRoundTrip | linux-cec/src/operand.rs:4122-4166 | tuner info, with its packed first byte and either kind of service, comes back |
| Operand.RecordFromRoundTrip | linux-cec/src/operand.rs:4394-4455 | every record source comes back, external plugs and addresses told apart by the type byte |
| Operand.UiRoundTrip | linux-cec/src/operand.rs:1664-1812 | every user command comes back with the payload its code calls for |
| Operand.DecodeTail | linux-cec/src/operand.rs:373-379 | for any bytes: if an optional last operand decodes, it is absent exactly when no byte is left; a present one was inside the input, and a length error is honest and only comes from some bytes, but too few |
| Operand.TailRoundTrip | linux-cec/src/operand.rs:366-395 | an optional last operand, present or absent, comes back from its encoding |
| Operand.RoundTrip | linux-cec/src/operand.rs:33-41 | any operand comes back from its encoding: with any suffix if it is delimited, as the last operand otherwise |
| Operand.EncodedAsExpected | linux-cec/src/operand.rs:33-41 | every encoding has a length the operand's `expected_len` admits |
| Operand.LengthErrors | linux-cec/src/operand.rs:1679-1795 | length errors of an operand are honest about its input, with the one exception of a cut-short `TuneFunction`, where the reported length is given |
| Codec.CecLayout | linux-cec/src/message.rs:27-267 | in every CEC message only the last operand may depend on where the message ends, and a list of exact lengths only follows fixed-size operands |
| Codec.CdcLayout | linux-cec/src/cdc.rs:266-295 | the same for every nested CDC message |
| Codec.FoldLen | linux-cec-macros/src/lib.rs:130-145 | the generated fold over expected lengths never meets a combination it leaves unimplemented, for any layout that respects the rule above |
| Codec.FoldMet | linux-cec-macros/src/lib.rs:130-145 | the length of every encoding is one the fold declares, so a valid message is never rejected for its length |
| Codec.Encode | linux-cec-macros/src/lib.rs:103-128 | an encoding starts with the opcode and has exactly the length `len()` gives |
| Codec.Decode | linux-cec-macros/src/lib.rs:355-368 | for any bytes of any length decoding never slices out of range, and what it yields is well-formed and no longer than the input |
| Codec.FieldsRoundTrip | linux-cec-macros/src/lib.rs:90-121 | operands decoded one after another at the running offset come back, whatever the mix of fixed, self-delimiting, greedy, optional and nested operands a layout allows |
| Codec.RoundTrip | linux-cec-macros/src/lib.rs:70-145 | every well-formed message of every variant, nested CDC messages included, decodes to itself, also in front of trailing bytes when its last operand is delimited |
| Codec.RoundTripIff | linux-cec-macros/src/lib.rs:354-387 | a message the types allow survives encoding and decoding exactly when it is well-formed |
| Codec.Canonical | linux-cec-macros/src/lib.rs:354-387 | re-encoding what was decoded never grows it, keeps the opcode and decodes to the same message |
| Codec.FieldsHonest | linux-cec-macros/src/lib.rs:90-95 | in layouts without a user command, whose length errors `Codec.LengthErrorsHonest` treats, a length error inside any operand at any offset is honest about the whole message |
| Codec.LengthErrorsHonest | linux-cec/src/lib.rs:728-743 | every length error of a whole message reports the full input length and a range it violates, through all nesting, exactly when the input is not a cut-short `TuneFunction`; there the report is one short |
| OperandLoops.WriteBuffer | linux-cec/src/operand.rs:871-875 | writing a buffer extends the output by exactly the buffer's encoding |
| OperandLoops.ParseBuffer | linux-cec/src/operand.rs:877-893 | the decoding loop of bounded buffers computes the decoding function, errors included |
| OperandLoops.ParseExtras | linux-cec/src/operand.rs:659-670 | the loop over continuation bits collects exactly the parameters up to the first byte without one |
| OperandLoops.ParseTagged | linux-cec/src/operand.rs:655-672 | the decoder of continuation-bit operands computes the decoding function |
| OperandLoops.ParseHec | linux-cec/src/cdc.rs:210-220 | the loop filling the input array reads bit i into entry i |
| WireFormat.WordsAreBigEndian | linux-cec/src/operand.rs:498-518 | a 16-bit operand is its high byte and then its low byte, and nothing else is |
| WireFormat.TruthIsOne | linux-cec/src/operand.rs:556-564 | true is sent as one and false as zero, and any byte but zero is read as true |
| Grammar.FixedDecodes | linux-cec/src/operand.rs:323-575 | decoding an operand of fixed size succeeds with a value exactly if the bytes spell it: sums of digits, bits and high and low bytes, stated without the decoder's tests |
| Grammar.OperandDecodes | linux-cec/src/operand.rs:33-41 | the same for every kind of operand: which bits mean what, how many elements a buffer takes, where continuation ends, which length or type byte selects which form |
| Grammar.MessageDecodes | linux-cec-macros/src/lib.rs:354-387 | decoding any bytes succeeds with a message exactly if they are its opcode and its operands one behind the other, nested messages included |
| Grammar.EncodingSpells | linux-cec-macros/src/lib.rs:103-121 | the encoding of every well-formed message spells it |
| Grammar.KnownMessages | linux-cec/src/message.rs:27-267 | which 76 opcodes are messages, and how many operands each has |
| Grammar.KnownCdcMessages | linux-cec/src/cdc.rs:266-295 | the same for the nine nested messages |
| Grammar.ClockReads | linux-cec/src/operand.rs:2804-2815 | a time is its hour and its minute, a duration its hours and its minutes, in two decimal digits each |
| Grammar.AnalogueReads | linux-cec-macros/src/lib.rs:520-570 | an analogue service is its kind, its frequency and its broadcast system |
| WireFormat.ChannelBits | linux-cec/src/operand.rs:3091-3113 | the top six bits of a channel number give its format, and the parts stand where they belong |
| WireFormat.HecBits | linux-cec/src/cdc.rs:199-208 | input i of a HEC field is bit i of the word, the output bit 14, bit 15 clear |
| WireFormat.ContinuationBits | linux-cec/src/operand.rs:638-653 | in a continuation-bit operand exactly the bytes before the last carry bit 7, and the low bits are head and parameters in order |
| WireFormat.OperandsInOrder | linux-cec-macros/src/lib.rs:87-89 | a message's operands stand in layout order, each encoded on its own |
| Envelope.RawMessage.constructor | linux-cec-sys/src/structs.rs:155-177 | a new message is a header byte of the two addresses and zeros |
| Envelope.RawMessage.Fill | linux-cec/src/device.rs:686-691 | filling copies as much of the message as fits behind the header and sets the length accordingly |
| Envelope.RawMessage.Receive | linux-cec/src/device.rs:104-150 | a frame is taken exactly when no status flag is set and its length is 2 to 15, and the first thing wrong with it is the error; the envelope keeps the addresses and the opcode, and either holds a well-formed message or the exact payload |
| Envelope.FrameRoundTrip | linux-cec/src/device.rs:104-150 | a well-formed message between any addresses arrives unchanged exactly when it has at most fourteen bytes; a longer one is rejected as invalid data |
| Envelope.ReceivedKeepsPayload | linux-cec/src/device.rs:67-83 | a received frame keeps its opcode, and a payload that cannot be parsed keeps its exact bytes |
| Envelope.LongestNameIsRejected | linux-cec/src/device.rs:117-119 | a fourteen-byte on-screen name makes a well-formed message that no frame brings back |
| OsdName.BoundaryCuts | cecd/src/system.rs:326 | the one-byte test for a character boundary finds exactly the positions that leave whole characters on both sides |
| OsdName.BoundaryNearby | cecd/src/system.rs:325-330 | of any four neighbouring positions in valid UTF-8 one is a boundary, so the search never runs out |
| OsdName.TrimmedOsdName | cecd/src/system.rs:320-331 | for every valid UTF-8 name the trim returns the longest run of whole characters of at most fourteen bytes and never reaches its unreachable end |
| OsdName.FitIsUnique | cecd/src/system.rs:320-331 | the trimmed name is determined by the name |
| OsdName.NameMessage | linux-cec/src/operand.rs:913-926 | a text of at most fourteen bytes is accepted by the buffer and its message carries exactly those bytes |
| OsdName.TrimmedNameIsSent | linux-cec/src/device.rs:619-629 | a trimmed name is always accepted and framed whole, and the frame is taken for valid exactly when the name is shorter than fourteen bytes |
| Edid.ParseHdmiEdidPa | cecd/src/device.rs:753-800 | for every byte array the scan ends, stays inside it, and returns the address of the first HDMI data block in walk order over the accepted extension blocks, or nothing if there is none at all; what that is in bytes, `Edid.AddressByBytes` says |
| Edid.AddressByBytes | cecd/src/device.rs:753-800 | the answer told by the bytes: the two behind a header of tag 3 and size five or more and 03 0C 00, inside the declared end, reached from byte 4 of an accepted extension from block to block; no such chain is in an earlier extension or shorter in the same; and no answer exactly if there is no such chain |
| Edid.FirstDataBlockCounts | cecd/src/device.rs:759-797 | an HDMI block right at the start of an extension is the answer unless an earlier extension has one |
| Edid.FirstAddressIsUnique | cecd/src/device.rs:753-800 | that answer is determined by the bytes |
| Edid.WalkTilesTheBlock | cecd/src/device.rs:771-796 | a walk starts behind the block header, each data block starts where the one before ends, and it runs until one reaches the bound |
| Reactions.AnswersAreProper | cecd/src/device.rs:324-445 | a task only ever answers with its power state, its own address, or an abort of the opcode it got with a valid reason, each to the right target |
| Reactions.ClaimedAnswers | cecd/src/device.rs:324-429 | when an event with an arm of its own is answered, with what and to whom, and when it is met with silence |
| Reactions.UnclaimedAnswers | cecd/src/device.rs:430-444 | any other event is met with silence exactly if it was sent to everyone or a handler accepted it, with an unknown opcode if nobody registered, with the handler's reason if there is such a reason, and otherwise with an undetermined refusal |
| Reactions.RouteFollowsAddress | cecd/src/device.rs:358-403 | the flag follows the last address named, and only a routing change to this device ends the wait of a wake |
| Messages.RepliesAreWellFormed | cecd/src/device.rs:325-330 | every reply is a well-formed message of at most three bytes, classified as the protocol assumes |
| Messages.EventsByBytes | cecd/src/device.rs:324-429 | which event a payload is, told by its bytes: opcode, length, the address bytes, the new address of a routing change and not the old one, and the audio byte |
| Messages.FramesByBytes | linux-cec/src/device.rs:104-150 | and which payload, sender and addressee a frame has |
| Messages.ReplyBytes | cecd/src/device.rs:325-443 | the three replies byte by byte |
| Messages.UnknownIsRefused | cecd/src/device.rs:430-443 | a direct payload the task does not know is answered with the bytes 00, its opcode and the reason, unless a handler accepts it |
| Messages.ReplyArrives | cecd/src/device.rs:447-461 | a reply encoded, framed and received by another daemon is exactly the event the protocol reasons about, from the right sender |
| Messages.RequestArrives | cecd/src/device.rs:648-651 | the request of a local activation arrives as a request for the active source |
| Messages.UnparsableIsUnhandled | cecd/src/device.rs:430-445 | bytes no decoder understands are handled like an unknown message, under their own opcode |
| Keyboard.UInputDevice.KeyDown | cecd/src/uinput.rs:131-138 | a press holds the mapped key and no other; an unmapped command or a failed write changes nothing |
| Keyboard.HeldSinceDown | cecd/src/uinput.rs:131-147 | a key is held exactly if it went down and did not come up since |
| Keyboard.UInputDevice.KeyUp | cecd/src/uinput.rs:140-147 | a release lets go of the mapped key and no other |
| Keyboard.UInputDevice.SetMappings | cecd/src/uinput.rs:67-71 | mappings change only before the device is opened |
| Keyboard.UInputDevice.Open | cecd/src/uinput.rs:80-101 | a device opens at most once |
| DeviceTask.ChangesAlternate | cecd/src/device.rs:617-635 | over any history of routing messages and local activations the published changes alternate, starting with active, and their number gives the flag |
| DeviceTask.LastSelectionDecides | cecd/src/device.rs:358-403 | the flag is decided by the last message that names an address, or the last local activation |
| DeviceTask.FromStatus | linux-cec/src/lib.rs:768-790 | the first flag set tells the error, and no transmit status becomes an error that a reply is retried for |
| DeviceTask.Transmit | cecd/src/device.rs:447-461 | a reply is tried one to four times, again only after a retryable failure, and succeeds exactly if the last try does; with results a transmission can have it is tried once |
| DeviceTask.DeviceTask.constructor | cecd/src/device.rs:89-132 | a new task meets every invariant |
| DeviceTask.DeviceTask.SetActive | cecd/src/device.rs:617-635 | the published flag stays equal to the protocol's flag, both follow from the history, and a signal is attempted exactly on a change |
| DeviceTask.DeviceTask.PendingActivate | cecd/src/device.rs:636-659 | an activation spawns one request and makes the task active at once |
| DeviceTask.DeviceTask.Press | cecd/src/device.rs:331-345 | after a handled press only that command's key is held; in every case nothing but the key of the command in force is |
| DeviceTask.DeviceTask.Release | cecd/src/device.rs:346-357 | after a handled release no key is held, even if several commands share a key or a command is unmapped |
| DeviceTask.DeviceTask.HearRouting | cecd/src/device.rs:358-403 | the routing messages move the routing state as the protocol says, even if the signal fails |
| DeviceTask.DeviceTask.HearAudio | cecd/src/device.rs:410-428 | the audio address follows the last audio mode message and is published |
| DeviceTask.DeviceTask.Query | cecd/src/device.rs:378-445 | the messages that only ask get exactly the protocol's answer, guards and fall-through included |
| DeviceTask.DeviceTask.React | cecd/src/device.rs:324-445 | the whole match: invariants kept, routing state and reply those of the protocol, and no failure unless the world fails |
| DeviceTask.DeviceTask.SendReply | cecd/src/device.rs:447-461 | no reply sends nothing; a reply goes to its target, once with the results a transmission can have, and never more than four times |
| DeviceTask.DeviceTask.HandleMessage | cecd/src/device.rs:308-463 | the protocol's answer and nothing else is sent, to its target, and with the results a transmission can have only once; the routing state moves whether or not it goes out; keys and audio as above |
| DeviceTask.DeviceTask.Wake | cecd/src/device.rs:465-506 | a wake tries to announce the source twice and leaves the task waiting, unless the device is lost, which clears the flag |
| DeviceTask.DeviceTask.WithLogicalAddress | cecd/src/device.rs:291-306 | a callback is queued behind the others or run at once, and the account of callbacks stays balanced |
| DeviceTask.OneMore | cecd/src/device.rs:291-306 | queueing or running one more callback keeps every callback queued or run exactly once |
| DeviceTask.AllRun | cecd/src/device.rs:250-262 | running the whole queue keeps every callback run exactly once |
| DeviceTask.RunsOnce | cecd/src/device.rs:238-306 | no callback runs twice or is queued after it ran, and none is lost |
| DeviceTask.DeviceTask.Drain | cecd/src/device.rs:250-262 | a drain runs everything queued, in order of submission, even if some fail: every activation spawns its request and turns the task active, every wake leaves it waiting unless the device is lost |
| DeviceTask.DeviceTask.InstallLogAddrs | cecd/src/device.rs:238-269 | a new address list empties the queue if it is not empty and its signal gets through, and resets the counter if it is empty |
| DeviceTask.StaysBounded | cecd/src/device.rs:245-272 | retries plus what is left of the counter stay within twenty times one more than the times the list became empty |
| DeviceTask.DeviceTask.HandleStateChange | cecd/src/device.rs:195-285 | what a state change leaves in the cache, failed signals included; exactly which state changes run the queue, and exactly when a registration is tried again |
| DeviceTask.DeviceTask.HandleStateChanges | cecd/src/device.rs:163-167 | over any sequence of state changes, each callback queued before has run if and only if one of the changes drains; if none does, the queue is as it was, if one does, they ran in order |
| DeviceTask.InVainNeverDrains | cecd/src/device.rs:238-249 | a change that reports a list in vain, and any changes after it with the same list, run nothing, though the first would have if its list was new and its signal had got through |
| DeviceTask.DeviceTask.StrandedCallback | cecd/src/device.rs:238-306 | for every task: a deferred callback stays queued if the next list is reported in vain, because its signal fails or because it is the cached one, and all later changes report the same list |
| DeviceTask.DeviceTask.ConfigureUinput | cecd/src/device.rs:595-615 | a reload starts with a keyboard that holds no key, or with none |
| ActiveSource.OneSelected | cecd/src/device.rs:373-403 | an active source or routing change that does not split the nodes turns every node off but the one it turns on |
| ActiveSource.ClientBroadcasts | cecd/src/dbus.rs:700-709 | what a client has a daemon broadcast splits the nodes exactly if it is an active source or a routing change naming another daemon |
| ActiveSource.OtherDevicesMayBroadcast | cecd/src/device.rs:358-403 | nothing that a device without this daemon broadcasts splits the nodes |
| ActiveSource.DeliverPair | cecd/src/device.rs:358-409 | after any delivery between two active nodes something is still under way that will turn one of them off |
| ActiveSource.ExcuseIsPending | cecd/src/device.rs:358-372 | an active node that passed over its own deselection was selected since, or announced itself, or owes a reply or a request, and that is still to reach a node that stands there |
| ActiveSource.StartKeeps | cecd/src/device.rs:134-140 | a daemon that starts, or starts again, on a live bus keeps the invariant without hearing what was sent before |
| ActiveSource.MayHappen | cecd/src/device.rs:465-659 | at any time a wake may set or clear a node's flag, the node may start again, and unless a reply is about to go out it may activate |
| ActiveSource.StepKeeps | cecd/src/device.rs:358-659 | every step of every node, and every message of clients and other devices that does not split the nodes, keeps the invariant about unread messages, requests and replies |
| ActiveSource.QuietBusHasOneActive | cecd/src/device.rs:358-659 | over every interleaving of any number of daemons, starts and restarts included, on an honest and reliable bus: once every node has read the whole log and nothing is pending, at most one is active |
| ActiveSource.ActiveIsJustified | cecd/src/device.rs:358-659 | on a quiet bus an active node was selected, or asked who is active, after it was last deselected |
| ActiveSource.LastSelectedIsTheActiveOne | cecd/src/device.rs:358-659 | conversely, on a quiet bus that loses nothing a node that was selected since it last started, and not deselected after, is active; if the bus is honest too it is the only active one |
| ActiveSource.SplitBreaks | cecd/src/dbus.rs:700-709 | any message that splits the nodes leads to a quiet bus with two active daemons |
| ActiveSource.ClientRoutingChangeBreaks | cecd/src/dbus.rs:700-709 | so does a routing change to another daemon that a client has a daemon broadcast |
| ActiveSource.FaultBreaks | cecd/src/device.rs:638-655 | so does losing a spawned request, a reply, or a message, each by itself |
| ActiveSource.SafeExactlyWhenHonestAndReliable | cecd/src/device.rs:358-659 | safety over all runs holds exactly when there are fewer than two daemons, or nobody can send what splits them and no request, reply or message can be lost |
| Settling.SettlingIsWork | cecd/src/device.rs:447-461 | every delivery, request and reply of the protocol leaves less work on the bus |
| Settling.SettlingEnds | cecd/src/device.rs:308-463 | a bus that is left alone takes no more steps than the work its first state leaves |
| Settling.RestIsQuiet | cecd/src/device.rs:308-463 | it has nothing left to do exactly when it is quiet |
| Settling.BusSettlesOnOneActive | cecd/src/device.rs:358-659 | whatever happened before on an honest and reliable bus, once it is left alone it settles in boundedly many steps, and then at most one daemon is active |
| Replies.RepliesRankLower | cecd/src/device.rs:324-445 | a reply can lead to fewer further replies than the message it answers |
| Replies.ResponsesReach | cecd/src/device.rs:447-461 | a handled message is answered with one copy for each node the answer is meant for, all but the sender if it is a broadcast |
| Replies.ResponsesAreLighter | cecd/src/message_handler.rs:45-100 | what a node puts on the bus weighs less than the message it handled, external handlers included |
| Replies.DeliveryDecreases | cecd/src/device.rs:447-461 | every delivery makes the traffic under way lighter |
| Replies.TrafficDiesOut | cecd/src/device.rs:324-462 | every run of deliveries among any number of daemons is at most as long as its first state weighs |
| Replies.OneMessageCosts | cecd/src/device.rs:324-462 | one message to one of N nodes causes at most 1 + N + N * N deliveries |
| Replies.ChainsAreShort | cecd/src/device.rs:324-462 | no chain of replies is longer than two |
| KeyRepeat.ClashFreeExactlyBlocks | cecd/src/device.rs:871-890 | what a target receives is a sequence of repeated presses each with its release, or lone releases, the last possibly unfinished, exactly when the tracking automaton never clashes |
| KeyRepeat.ReleasedBetween | cecd/src/device.rs:871-890 | in such a sequence presses of two different keys have a release between them |
| KeyRepeat.OneTaskPerTarget | cecd/src/dbus.rs:572-612 | two running repeat tasks for one target are the same task, and it is the one in the map or the one being joined |
| KeyRepeat.PressAccounted | cecd/src/dbus.rs:572-626 | the two methods that press, up to their wait, keep every running task known to the map or to the method in progress |
| KeyRepeat.ReleaseAccounted | cecd/src/dbus.rs:595-609 | so does the release |
| KeyRepeat.JoinAccounted | cecd/src/dbus.rs:577-592 | so does going on after the join, or failing with the joined task |
| KeyRepeat.StepBreaks | cecd/src/dbus.rs:572-731 | a step breaks a target's trace exactly if a client, a method or a repeat task presses on an open press of another key |
| KeyRepeat.AttendedIsNotOverrun | cecd/src/dbus.rs:572-626 | methods and repeat tasks never press another key on a target whose open press a task attends to |
| KeyRepeat.StepAttends | cecd/src/dbus.rs:572-731 | a step after which an attended target has an open press that no task will press again or release is exactly one of these: a press without its release reaches a target that sees none and whose key no task repeats, or the task that repeats the open key fails |
| KeyRepeat.UnattendedExactlyLeft | cecd/src/device.rs:871-890 | at any time of any run a target has an open press nobody attends to exactly if one of those steps left it open and it has been open and unattended ever since |
| KeyRepeat.OverrunsExactlyWhatWasLeft | cecd/src/dbus.rs:572-626 | methods and repeat tasks press over another key exactly when that key was left open so |
| KeyRepeat.BlocksExactlyWithoutClash | cecd/src/dbus.rs:572-731 | over every schedule and with any transmissions failing, also where the delay wins against a cancelled token, the frames a target receives form blocks exactly when no volume method or raw message presses while another key is open, and no method or task presses over a press left open before it and unattended since |
| KeyRepeat.BlocksExactlyWithoutVolumeClash | cecd/src/dbus.rs:572-669 | if no press to the target was left open and none sent raw, they form blocks exactly when no volume method is used on it while another key is open, and no method or task ever overruns a press |
| KeyRepeat.TasksOfARun | cecd/src/dbus.rs:572-626 | in every reachable state at most one task per target runs and the map or the method in progress knows it; an open press on a target without one was left open by a step before and has been so ever since |
| KeyRepeat.StaleStays | cecd/src/dbus.rs:572-626 | the entry of a failed task stays in the map until a method takes it out |
| KeyRepeat.StalePressIsSwallowed | cecd/src/dbus.rs:575-580 | a press that finds such an entry does nothing exactly if it is of the same key |
| KeyRepeat.FailedRepeatSwallows | cecd/src/dbus.rs:575-581 | as long as no method takes that entry out, no method or task presses anything on the target |
| KeyRepeat.FailedJoinIsSilent | cecd/src/dbus.rs:579-598 | the method that joins a failed task ends having sent and spawned nothing |
| KeyDelivery.PressDelivers | cecd/src/dbus.rs:572-593 | over any run: a press sends nothing itself; it starts a task for the key if none is mapped, does nothing if the mapped one has that key, and else stops that one and, once it ended well, leaves the map with a task for exactly the new key |
| KeyDelivery.ReleaseDelivers | cecd/src/dbus.rs:595-609 | over any run: a release sends one lone release exactly if no task is mapped; otherwise it takes the task out of the map and stops it |
| KeyDelivery.OnceDelivers | cecd/src/dbus.rs:611-626 | over any run: a single press is sent with its release, as far as they get, exactly if no task was mapped, or the one that was ended well and had another key; with the same key nothing is sent |
| KeyDelivery.PastTheMethods | cecd/src/dbus.rs:628-731 | a volume method sends a press and its release, a raw message what it says, and nothing else changes |
| KeyDelivery.TaskChoices | cecd/src/device.rs:878-887 | a waiting task may always press again, may turn to its release exactly when it or the device was told to stop, and fails only where it sends |
| KeyDelivery.HeldKeyRepeats | cecd/src/device.rs:878-890 | for any number: a key held that long and released is on the bus as that many presses and one release, and the map is clean |
| KeyRepeat.VolumeCanClash | cecd/src/dbus.rs:628-669 | for any two different keys a volume call can break the blocks |
| KeyRepeat.RawPressCanClash | cecd/src/dbus.rs:700-709 | for any two different keys a press sent raw can break the blocks though no client ever presses while another key is open |
| KeyRepeat.ReleaseCanLeaveKeyOpen | cecd/src/dbus.rs:595-598 | for any key: a repeat task that fails after its first press leaves the key open, and the release that follows does too |
| System.OneDecisionPerCycle | cecd/src/system.rs:531-585 | between two wakes at most one decision is taken, to suspend or to put the television to sleep; after a suspend for a CEC Standby the television is not put to sleep |
| System.OneEffectExactlyWhenNothingStale | cecd/src/system.rs:573-585 | from any state, a stretch without a wake is sure to see at most one request or sleeping television exactly when the requests on their way, and one more if the flag is clear, are at most one |
| System.TwoRequestsInACycle | cecd/src/system.rs:573-585 | with a clear flag and a request on its way, two requests can reach logind without a wake in between |
| System.StaleRequestReachable | cecd/src/system.rs:531-585 | a request can be on its way right after the machine slept and woke |
| System.PassedOnExactlyOncePerWake | cecd/src/system.rs:573-585 | a Standby is passed on to logind exactly when, since the last wake, no other was and the machine was not sent to sleep |
| System.TvSleepsExactlyIfAsked | cecd/src/system.rs:552-566 | the television is put to sleep exactly if the configuration in force asks for it and nothing set the flag since the last wake |
| System.RefusedSuspendSilencesStandby | cecd/src/system.rs:573-585 | a refused suspend is reported as failed, and until the next wake every further Standby is reported as done and not passed on; after the wake it is passed on again |
| System.SystemState.Issue | cecd/src/system.rs:583-584 | the answer of logind is passed on and changes no flag |
| System.SystemState.Suspend | cecd/src/system.rs:573-581 | a suspend is decided on exactly when the flag was clear, and sets it |
| System.SystemState.PrepareForSleep | cecd/src/system.rs:531-571 | the sleep listener puts the television to sleep exactly when configured and the flag was clear; waking clears the flag |
| System.SystemState.Register | cecd/src/system.rs:610-628 | an opcode gets a handler only if it has none, together with a watcher for the same opcode and owner |
| System.SystemState.Unregister | cecd/src/system.rs:630-644 | only the owner's own entry is removed, and its watcher with it |
| System.SystemState.Expire | cecd/src/message_handler.rs:149-169 | a watcher that ends removes at most its own owner's entry, and never one whose owner is connected |
| System.SystemState.NothingLeftBehind | cecd/src/message_handler.rs:113-170 | once an owner has left and its watchers have run, nothing in the table names it |

## Left out

- Timestamps and sequence numbers of messages, and the texts inside errors: carried along, never decided on.
- Named bits of one-byte structures (audio status, latency flags, HEC state and the like): kept as raw bytes; the enums are value sets, not named constants.
- Encoders: except for the buffer loop they are functions giving bytes, where the source extends a caller's buffer; aliasing of that buffer is not modelled.
- Logical-address bookkeeping in the kernel device, `configure_dev` beyond success or failure, connectors in sysfs, capabilities and pin events.
- The relay thread and channels, the D-Bus object server, signal delivery, udev, configuration files, the command-line tool.
- Real time: the repeat delay, the handler timeout and the wake delay fire at any moment.
- `handle_system_message`: its submissions of callbacks and its two transmissions on standby; the queue they use is modelled.
- The audio system query at start-up and after a state change: it changes no state of the task.
- ActiveSource.QuietBusHasOneActive: assumes distinct addresses that do not change and one order of messages for all nodes. Lost requests, replies and messages are part of the model, as `faults`.
- Replies.TrafficDiesOut: counts deliveries to daemons only; other devices are not assumed to answer.
- KeyRepeat.BlocksExactlyWithoutClash: takes a transmission that reports a failure not to have reached its target.
- DeviceTask.DeviceTask.HandleStateChange: does not promise that every deferred callback eventually runs, because it does not hold (`DeviceTask.DeviceTask.StrandedCallback`).
- Keyboard.UInputDevice.KeyDown: a write either reaches the kernel whole or not at all; half a report is not modelled.
- System.SystemState.Notice: a watcher leaves only after its owner did; one whose signal stream ends, or whose subscription fails, unregisters an owner that is still connected, and that is not modelled.
- System.SystemState.Register: assumes the watcher has subscribed before its owner can leave; a subscription that fails is not modelled.
- One-byte enums as theorems of their own, the token streams of the derive macros, and `Device` setters and getters: they would add only easy members.
