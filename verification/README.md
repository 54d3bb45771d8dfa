# Starstream runtime: verified model

This project models the parts of the Starstream contract runtime whose
correctness spans several functions, and proves what they promise.

**Value codec** (`crates/cli/src/codec.rs`). A component-model value is written
to a growing byte buffer and read back from a stream, both driven by the type.
`Values` has types and values as finite trees; `Leb128` and `Utf8` define the
primitive formats from their standards (WebAssembly Core Specification,
sections 5.2.2 and 5.2.4; RFC 3629, section 3). `Enc` and `Dec` are the
functions the two imperative sides compute: the methods of `ValEncoder` append
to a `BytesMut` and are proved to append exactly `Enc`; `ReadValue` advances a
`Reader`, assigns a `Place`, and is proved to consume exactly what `Dec` says
and to leave the caller's value alone when it fails. `Flags` has the 17-way
staircase of integer widths and the byte-array branch, which works on an array
in place. `CodecTheorems` and `DecoderTheorems` then prove that the two
independent sides agree, and `ReadBack` says exactly which of the values the
encoder takes come back, and what is written of the others. `Wire` has the wire
format itself, as a relation between types, values and bytes that mentions
neither side, and proves that the decoder takes exactly its forms, that the
encoder writes the shortest of them, and how everything else is refused.

**Fiber and job protocol** (`crates/web/web/fiber-env.js`,
`crates/web/src/fiber.rs`). `Fibers` is a step relation whose steps are single
synchronous pieces of the glue or single reactions of the event loop, in any
order: fiber switches, the shadow-stack pointer, the promise chain of jobs, the
park cell, and the gap between the end of an activation and the reaction to it.
`FiberTheorems` proves an inductive invariant that ties every state to an
abstract stack of resumers, `FiberRuns` and `FiberTraps` draw the consequences
for whole runs, `FiberLife` says what the steps bring about, from the
registration of a fiber to its end, `FiberEnv` has the glue's own mutable state as a class with a
method for each of its functions and for the two reactions of `drive`, proved
to make exactly those steps, and `FiberJobs` has the Rust side of a job: the
loop that polls and parks, and the function that waits for the job's promise,
proved against the runs of the protocol.

**Contract table and JSON bridge** (`crates/web/src/lib.rs`,
`crates/web/web/contract.worker.js`). `Json` has `json_to_val` and
`val_to_json`, and `Lowering` says, as a relation of its own, which documents
mean something at a type and what they mean. `Contracts` is the handle table,
the method gate and the event buffer as a step relation in which the page may
ask for anything at any time and the guest acts while a request is in flight;
`ContractRuns` has the results over all runs; `Answers` has what each request
is let through to, what it leaves behind and what it answers; `ContractTable`
and `ContractWorker` are the objects themselves, updated in place, with other
messages arriving while a request is in flight. `Descriptions` is what the page
is told about a contract and how it relates to what a call accepts.
`MethodIdentity` ties the guest's build-time hash to the hash both hosts
compute, and `Serving` has the two loops of the command line that render and
register what a contract has declared (`crates/cli/src/bin/starstream-run.rs`).

Some results are that a property fails. In each case the code is modelled as it
is, a lemma gives an input, and the exact condition is proved next to it:

- not every value the encoder takes is read back: a variant without its payload
  and a tuple with an item missing are misread (`MissingPayloadMisread`,
  `ShortTupleMisread`); an accepted value, also one of a type with an unsupported
  part that it does not use, is read back if and only if nothing the type calls
  for is missing from it (`ReadBackExactly`);
- the stack pointer is back after a job exactly when the job ended with no
  frames of its own, so not after a trap (`PointerAfterJob`,
  `TrappedJobLeavesPointerLow`);
- the JSON bridge is the identity exactly on values without an absent option
  inside an option (`JsonIdentity`);
- handle ids are reused once 2^32 have been issued (`MintNeverOverwrites`,
  `WrapRevivesDroppedId`);
- the comment on `implemented_methods` says that a method that is not listed is
  rejected by `call`; a plain function that borrows the resource shares the
  identity of the method of that name, is not listed, and passes, and so does a
  method of another instance (`UnlistedYetCallable`, `ForeignMethodAdmitted`);
  what the gate lets through is stated by `AdmittedExactly` and, for the handle's
  own methods, by `ListedIsCallable`;
- a host recovers the source name exactly when it has no dash and no dot
  (`RecoveryExact`).

`dafny verify dfyconfig.toml` (Dafny 4.11) checks the whole project.

## Model

| member | source | states |
|---|---|---|
| `Leb128.RoundTripU` | crates/cli/src/codec.rs:88-102 | an unsigned integer that fits the width is read back from its minimal LEB128 form, whatever follows |
| `Leb128.RoundTripS` | crates/cli/src/codec.rs:85-99 | the same for signed integers |
| `Leb128.ReadUNormalises` | crates/cli/src/codec.rs:390-409 | any accepted unsigned LEB128 has a value in range, and its minimal form is no longer than what was read |
| `Leb128.ReadSNormalises` | crates/cli/src/codec.rs:386-405 | the same for signed LEB128 |
| `Leb128.UnsignedFormRead` | crates/cli/src/codec.rs:390-409 | every LEB128 form of a number, padded or not, is read as that number, whatever follows |
| `Leb128.UnsignedReadForm` | crates/cli/src/codec.rs:390-409 | and whatever is read was such a form: continuation bits on all bytes but the last, no more bytes than the width fills, the value in range |
| `Leb128.SignedFormRead` | crates/cli/src/codec.rs:386-405 | the same for signed numbers |
| `Leb128.SignedReadForm` | crates/cli/src/codec.rs:386-405 | the same for signed numbers |
| `Leb128.UnsignedTooLarge` | crates/cli/src/codec.rs:390-409 | a well-framed number out of range is malformed |
| `Leb128.UnsignedTooLong` | crates/cli/src/codec.rs:390-409 | a number that does not end within the bytes of its width is malformed |
| `Utf8.CharRoundTrip` | crates/cli/src/codec.rs:113-115 | every scalar value is read back from its UTF-8 form |
| `Utf8.CharCanonical` | crates/cli/src/codec.rs:418-421 | accepted UTF-8 is exactly the form the writer produces: no overlong forms, no surrogates |
| `Utf8.CharFormExactly` | crates/cli/src/codec.rs:113-115 | the bytes written are the one UTF-8 form: the shortest, with the bits of the scalar value behind the markers |
| `Utf8.NameRoundTrip` | crates/cli/src/codec.rs:116-118 | a string whose UTF-8 form fits a `u32` length is read back |
| `Utf8.NameNormalises` | crates/cli/src/codec.rs:422-427 | an accepted name rewrites to no more bytes than were read |
| `Utf8.NameRefused` | crates/cli/src/codec.rs:422-427 | a name whose bytes are not UTF-8 is malformed |
| `Flags.PackIsBitArray` | crates/cli/src/codec.rs:334-347 | in the reference form, bit i%8 of byte i/8 is set exactly when name i is present, padding bits included |
| `Flags.LeBytesOfBits` | crates/cli/src/codec.rs:278-333 | the little-endian integer cut to its ceil(n/8) low bytes is the bit array |
| `Flags.CutBytesAreZero` | crates/cli/src/codec.rs:278-329 | no byte the staircase cuts off held a set bit |
| `Flags.FlagBits` | crates/cli/src/codec.rs:51-63 | the shift-and-or loop gives the number whose bit i says whether name i is listed, and never exceeds its width |
| `Flags.FlagArray` | crates/cli/src/codec.rs:334-347 | the in-place byte-array loop leaves the bit array in its buffer |
| `Flags.EncodeFlags` | crates/cli/src/codec.rs:266-350 | all seventeen branches write the same thing: the max(1, ceil(n/8)) bytes of the bit array |
| `Flags.SelectPacked` | crates/cli/src/codec.rs:526-538 | the decoder finds in those bytes exactly the listed names, in declaration order; unknown and repeated names are gone |
| `Flags.SelectStable` | crates/cli/src/codec.rs:526-538 | whatever the buffer holds, the names selected are declared and already in declaration order |
| `Encoder.ValEncoder.Encode` | crates/cli/src/codec.rs:68-360 | on success and on failure the old contents stay a prefix, and what follows and the error are those of `Enc` |
| `Encoder.ValEncoder.EncodeList` | crates/cli/src/codec.rs:119-132 | elements are appended in order up to the first failure |
| `Encoder.ValEncoder.EncodeRecord` | crates/cli/src/codec.rs:133-141 | members are paired with fields up to the shorter of the two; names are not compared |
| `Encoder.ValEncoder.EncodeTuple` | crates/cli/src/codec.rs:142-150 | items are paired with types up to the shorter of the two |
| `Encoder.ValEncoder.EncodeVariant` | crates/cli/src/codec.rs:151-191 | the index goes out before the payload is looked at; a missing payload is taken, an unexpected one fails after the index |
| `Encoder.ValEncoder.EncodeArm` | crates/cli/src/codec.rs:232-265 | the status byte goes out only when the value and the type agree on having a payload |
| `Decoder.ReadValue` | crates/cli/src/codec.rs:368-549 | success consumes exactly the bytes `Dec` accounts for and stores its value; a failure at any depth leaves the caller's value unchanged |
| `Decoder.ReadElements` | crates/cli/src/codec.rs:428-440 | reads as many elements as asked for, or fails with the first error |
| `Decoder.ReadFields` | crates/cli/src/codec.rs:441-451 | reads the fields in order under their declared names |
| `Decoder.ReadItems` | crates/cli/src/codec.rs:452-462 | reads the items in order |
| `Decoder.ReadVariant` | crates/cli/src/codec.rs:463-483 | reads the index, refuses one past the cases, then reads that case's payload; on failure the place is unchanged |
| `Decoder.ReadArm` | crates/cli/src/codec.rs:508-525 | reads the payload of a result arm, if it has one |
| `CodecTheorems.EncodesExactly` | crates/cli/src/codec.rs:68-360 | encoding succeeds if and only if the recursive predicate `Accepts` holds |
| `CodecTheorems.WellTypedAccepted` | crates/cli/src/codec.rs:68-360 | every well-typed value of a supported type is accepted |
| `CodecTheorems.ReadsBack` | crates/cli/src/codec.rs:119-132 | a well-typed value is read back wherever encoding succeeds, so also an empty list of an unsupported element type |
| `CodecTheorems.RoundTrip` | crates/cli/src/codec.rs:68-360 | every well-typed value of a supported type encodes, and reading the encoding followed by any bytes consumes exactly the encoding and gives the value with each flags list in declaration order |
| `DecoderTheorems.DecodesCanonically` | crates/cli/src/codec.rs:368-549 | whatever is accepted is well typed, already in canonical form, and encodes into no more bytes than were read |
| `DecoderTheorems.Normalises` | crates/cli/src/codec.rs:368-549 | re-encoding what was read always succeeds, is no longer, and reads back as the same value |
| `DecoderTheorems.ReadsLocally` | crates/cli/src/codec.rs:368-549 | a successful read depends only on the bytes it consumed |
| `DecoderTheorems.SplitsUniquely` | crates/cli/src/codec.rs:68-360 | no encoding is a proper prefix of another of the same type, so concatenations split in one way |
| `DecoderTheorems.CanonIsCanonical` | crates/cli/src/codec.rs:526-538 | declaration order keeps a value well typed, and putting it in order twice changes nothing more |
| `DecoderTheorems.DiscriminantClassSound` | crates/cli/src/codec.rs:151-218 | a found index fits the width chosen from the case count, its LEB128 form fits the bytes reserved, and the `u32` reader gets it back whatever the class |
| `Wire.DecodesExactly` | crates/cli/src/codec.rs:368-549 | a value is read from the first n bytes if and only if they are a form of it in the wire format, for every type, value and stream |
| `Wire.FormsApart` | crates/cli/src/codec.rs:368-549 | no bytes are forms of two values, and no form begins another one |
| `Wire.EncoderWritesForm` | crates/cli/src/codec.rs:68-360 | what is written of a well-typed value is a form of its canonical form |
| `Wire.EncoderWritesShortest` | crates/cli/src/codec.rs:68-360 | and no form of it is shorter |
| `Wire.CutStream` | crates/cli/src/codec.rs:368-549 | a stream that ends inside a value, at whatever depth, is reported as ended |
| `Wire.UnknownIndexRefused` | crates/cli/src/codec.rs:463-501 | a case or enum index past the declared ones is refused by its number, padded or not, whatever follows |
| `Wire.StatusRefused` | crates/cli/src/codec.rs:502-525 | a boolean or status byte above one is malformed |
| `Wire.RecordFails` | crates/cli/src/codec.rs:441-451 | the first field that fails gives the error of the record, and likewise for tuples and lists |
| `ReadBack.RecordWritten` | crates/cli/src/codec.rs:133-141 | of a record just the members that have a field are written |
| `ReadBack.CaseWritten` | crates/cli/src/codec.rs:151-191 | a case without its payload is written as its index alone; an unexpected payload fails behind the index |
| `ReadBack.ListStops` | crates/cli/src/codec.rs:119-132 | the first element that fails ends the list with its error, behind everything written before |
| `ReadBack.LeafRefused` | crates/cli/src/codec.rs:68-118 | a leaf that is refused has written nothing, and the error says what was wrong with it |
| `ReadBack.ShapeRefused` | crates/cli/src/codec.rs:119-265 | a value of another outermost form, or a list too long, is refused before anything is written |
| `ReadBack.CaseRefused` | crates/cli/src/codec.rs:151-183 | so is a case that is not declared, by its name, and any case of a type with too many |
| `ReadBack.ArmRefused` | crates/cli/src/codec.rs:232-265 | so is a result arm whose payload does not match its type in being there, told apart by which of the two is missing |
| `ReadBack.ReadBackExactly` | crates/cli/src/codec.rs:68-360 | a value the encoder takes is read back, in canonical form and whatever follows, if and only if nothing is missing: records and tuples reach their declared length and names, and cases with a payload type have a payload |
| `ReadBack.ReadBackItself` | crates/cli/src/codec.rs:368-549 | it comes back as it was if and only if it is well typed and in canonical form |
| `ReadBack.CompleteIsWellTyped` | crates/cli/src/codec.rs:133-191 | an accepted value misses nothing exactly when its canonical form is well typed |
| `ReadBack.EncCanon` | crates/cli/src/codec.rs:51-63 | a value and its canonical form have the same encoding, or the same failure |
| `ReadBack.MissingPayloadMisread` | crates/cli/src/codec.rs:184-190 | a variant encoded without its payload makes the decoder take the next byte for it |
| `ReadBack.ShortTupleMisread` | crates/cli/src/codec.rs:142-150 | a tuple encoded with an item missing makes the decoder take the next byte for it |
| `Invocation.DecodeParams` | crates/cli/src/bin/starstream-run.rs:476-483 | the parameter vector holds the handle and then the values decoded in order, or the first error |
| `Invocation.EncodeResults` | crates/cli/src/bin/starstream-run.rs:486-491 | the results are encoded back to back into a fresh buffer |
| `Invocation.ParametersArrive` | crates/cli/src/bin/starstream-run.rs:476-491 | arguments encoded back to back are split again into exactly those values, and nothing of what follows is touched |
| `FiberLife.RegisteredCanBeEntered` | crates/web/web/fiber-env.js:56-79 | `fiber_init` adds a record and changes nothing else; the fiber can then be entered, executes 16 below its top, and the switcher waits in its slot as its resumer |
| `FiberLife.RunningCanSuspend` | crates/web/web/fiber-env.js:95-100 | an executing fiber can suspend itself, and its last resumer goes on with its own pointer |
| `FiberLife.SuspendedCanResume` | crates/web/web/fiber-env.js:95-100 | a suspended fiber can be resumed by whatever executes, with the pointer it suspended itself with |
| `FiberLife.RunningCanEnd` | crates/web/web/fiber-env.js:81-94 | a fiber that returns or traps is removed, and its last resumer goes on, by a throw after a trap |
| `FiberLife.LifeRuns` | crates/web/web/fiber-env.js:40-166 | a run from the initial state in which a fiber is registered, entered, suspended, resumed and ended, and its job resolves |
| `FiberLife.JobsDriven` | crates/web/web/fiber-env.js:154-166 | every `drive` after `setup` queues one job, and nothing else does |
| `FiberLife.QueueMoves` | crates/web/web/fiber-env.js:160-164 | with no job in flight and one queued, the next link can resolve or the next job can start |
| `FiberLife.RunningMay` | crates/web/web/fiber-env.js:56-131 | whatever executes may take stack, trap, register a fiber, return from its last frame, and park if it is a job |
| `FiberLife.FramesMovePointer` | crates/web/web/fiber-env.js:153-166 | the pointer of an executing context is its base less its frames |
| `FiberTheorems.StepKeepsInv` | crates/web/web/fiber-env.js:56-166 | every step in every interleaving keeps the invariant and moves the abstract stack: entering a job or resuming a fiber pushes, suspending or ending pops |
| `FiberTheorems.StartsAlone` | crates/web/web/fiber-env.js:153-166 | when the chain lets a job start, no root activation is in flight and the job is the next one driven |
| `FiberTheorems.SettledBelow` | crates/web/web/fiber-env.js:160-164 | the chain resolves from the front |
| `FiberTheorems.NotInChain` | crates/web/web/fiber-env.js:95-100 | a fiber parked in its own slot is not waiting for anyone it resumed |
| `FiberRuns.EveryRun` | crates/web/web/fiber-env.js:56-166 | every reachable state refines the abstract stack machine |
| `FiberRuns.ContextsExactly` | crates/web/web/fiber-env.js:56-102 | in every run the contexts are the activation of the job in flight, if any, and one per started fiber; exactly one is in control while a job is in flight, none otherwise |
| `FiberRuns.EachWaiterInOneSlot` | crates/web/web/fiber-env.js:70-102 | no context is lost or duplicated: one not in control sits in the slot of exactly one fiber, the one in control in none |
| `FiberRuns.ReturnsToLastResumer` | crates/web/web/fiber-env.js:81-100 | suspending or ending hands control to the most recent resumer, with its stack pointer, as a rejection if the fiber trapped |
| `FiberRuns.SwitchedInPointer` | crates/web/web/fiber-env.js:77-99 | a fresh fiber starts at top - 16; a suspended one gets its own pointer back |
| `FiberRuns.NeverStuck` | crates/web/web/fiber-env.js:70-146 | whatever the context in control is due for can happen; no switch finds an empty slot |
| `FiberRuns.PointerRestored` | crates/web/web/fiber-env.js:70-102 | whatever ran in between, a context is resumed with the stack pointer it had when it gave up control |
| `FiberRuns.PointerAfterJob` | crates/web/web/fiber-env.js:153-166 | a job that returns leaves the pointer as it was; in general it is lower by the frames the job still had, so unchanged if and only if there are none |
| `FiberRuns.TrappedJobLeavesPointerLow` | crates/web/web/fiber-env.js:160-164 | a run in which a trapped job leaves the pointer low |
| `FiberRuns.JobsSerialized` | crates/web/web/fiber-env.js:153-166 | jobs start in `drive` order, each once, at most one is started and unsettled, and each promise has its own job's outcome |
| `FiberRuns.SettledJobReleasesNext` | crates/web/web/fiber-env.js:161-164 | a settled job, failed or not, never blocks the next one |
| `FiberRuns.ParkNeverThrows` | crates/web/web/fiber-env.js:120-131 | the 'already parked' error is unreachable |
| `FiberRuns.CellIsSemaphore` | crates/web/web/fiber-env.js:117-146 | in every run a job is parked or a wake is pending, never both, and the two bits are the value of a semaphore that saturates at one |
| `FiberRuns.WakesAccounted` | crates/web/web/fiber-env.js:120-146 | in every run the parks that were let go on are the unparks, less those absorbed by a pending wake and the one still pending |
| `FiberRuns.NothingParkedAfterJob` | crates/web/web/fiber-env.js:117-131 | when a job settles nothing is parked, and only suspended fibers are left |
| `FiberRuns.NoLostWake` | crates/web/src/fiber.rs:174-206 | a wake since the latest poll began is never slept through: another poll is due |
| `FiberRuns.WakeStaysDue` | crates/web/src/fiber.rs:174-206 | and it stays due, the job unparked, until that poll begins or the job settles |
| `FiberRuns.PollsBounded` | crates/web/src/fiber.rs:174-187 | within one job polls are at most two plus the unparks, and the second of the two only with a stale wake |
| `FiberTraps.UnwindStep` | crates/web/web/fiber-env.js:88-93 | while a chain unwinds every step leaves it alone or takes it one context further down |
| `FiberTraps.TrapReachesJob` | crates/web/web/fiber-env.js:88-93 | in every run after a trap the unwinding is under way until the job's promise settles, and then it rejects |
| `FiberTraps.TrapRemovesChain` | crates/web/web/fiber-env.js:88-93 | when the job rejects, exactly the fibers of its resumer chain are gone and suspended ones are untouched |
| `FiberTraps.TrapCompletes` | crates/web/web/fiber-env.js:88-100 | the unwinding can always run to its end |
| `FiberEnv.Glue.SetUp` | crates/web/web/fiber-env.js:40-52 | after it, and not before, jobs are driven |
| `FiberEnv.Glue.FiberInit` | crates/web/web/fiber-env.js:56-58 | registers a fresh record, not entered and with an empty slot, under any top, in place of one that was there, and leaves the others alone |
| `FiberEnv.Glue.FiberSwitch` | crates/web/web/fiber-env.js:70-102 | for any caller and any top: throws exactly when there is no record, and otherwise updates the record, the pointer and the two promises as the switch step |
| `FiberEnv.Glue.FiberEnded` | crates/web/web/fiber-env.js:81-94 | removes the fiber, restores the resumer's pointer and settles its promise |
| `FiberEnv.Glue.ParkJob` | crates/web/web/fiber-env.js:120-131 | takes a pending wake or parks; throws exactly when a job is parked and no wake is pending |
| `FiberEnv.Glue.UnparkJob` | crates/web/web/fiber-env.js:138-146 | wakes the parked job, or leaves the wake pending |
| `FiberEnv.Glue.DriveJob` | crates/web/web/fiber-env.js:154-166 | queues the job behind the chain, or rejects without queueing before `setup` |
| `FiberEnv.Glue.RunJob` | crates/web/web/fiber-env.js:160-160 | starts the job's activation at the current pointer |
| `FiberEnv.Glue.JobSettled` | crates/web/web/fiber-env.js:160-165 | the promise handed out takes the outcome of the job's own activation |
| `FiberEnv.Glue.LinkResolved` | crates/web/web/fiber-env.js:161-164 | the chain's link resolves behind a settled job, whether it resolved or rejected |
| `FiberJobs.BlockOn` | crates/web/src/fiber.rs:174-187 | returns the answer of the first poll that is Ready, having parked once for every Pending before it |
| `FiberJobs.Staged.Job` | crates/web/src/fiber.rs:153-156 | takes the future and leaves that output |
| `FiberJobs.ParksMatchPolls` | crates/web/src/fiber.rs:178-186 | in every run a job has parked once for each time it polled again, and once more while it sleeps |
| `FiberJobs.ResolvedWhenReady` | crates/web/src/fiber.rs:174-187 | in every run in which a job parks on Pending and returns on Ready, a resolved promise means that the poll after its last park was the first one Ready |
| `FiberJobs.TrapNeverResolves` | crates/web/web/fiber-env.js:88-100 | after a trap in the job or in any fiber of its chain no run resolves its promise |
| `FiberJobs.SettledRanOnce` | crates/web/src/fiber.rs:149-162 | behind a settled promise is one start of that job and the outcome of its own activation, so the closure never runs twice |
| `FiberJobs.Run` | crates/web/src/fiber.rs:149-162 | in any run of the protocol: a value exactly when the job's promise resolved, namely the future's first Ready answer, after as many parks as the job made in the run; an error after any trap in its chain |
| `Json.JsonRoundTrip` | crates/web/src/lib.rs:515-640 | lifting and lowering gives the value with absent options directly inside options collapsed |
| `Json.CollapseIsIdentity` | crates/web/src/lib.rs:600-606 | the collapse changes nothing if and only if no option holds an absent option |
| `Json.JsonIdentity` | crates/web/src/lib.rs:515-640 | the bridge is the identity on a well-typed value if and only if no option in it holds an absent option |
| `Json.MembersFound` | crates/web/src/lib.rs:630-635 | the object of a record with distinct names has each member under its name, and nothing else |
| `Json.RecordJsonRoundTrip` | crates/web/src/lib.rs:569-581 | a record is recovered from any object that holds its members, whatever else the object holds |
| `Json.LoweredIsBridged` | crates/web/src/lib.rs:515-609 | whatever the page sends, a lowered value has the type asked for and no nested absent option |
| `Lowering.LoweredWhen` | crates/web/src/lib.rs:515-609 | a document is lowered if and only if every declared field is present, tuples have their length, and every scalar is of its own kind of JSON |
| `Lowering.LowersExactly` | crates/web/src/lib.rs:515-609 | and exactly to what it denotes: integers lose their fraction, go to the nearest 64-bit integer and keep the low bits of their width |
| `Lowering.FirstFieldRefused` | crates/web/src/lib.rs:569-581 | the first declared field that is missing or refused gives the error of the record |
| `Lowering.ArgumentsExactly` | crates/web/src/lib.rs:490-507 | arguments convert exactly when there is one per remaining parameter, each of which may be sent for its type, and then to what they denote |
| `Lowering.LiftedShows` | crates/web/src/lib.rs:615-640 | a value is lifted to the document that shows it: numbers as numbers, text as text, lists in order, members under their names |
| `Json.LoweringIsIdempotent` | crates/web/src/lib.rs:515-640 | what was lowered once goes round unchanged |
| `Json.ArgumentsArrive` | crates/web/src/lib.rs:490-507 | arguments lifted from well-typed values are lowered to those values, collapsed, after skipping `self` |
| `MethodIdentity.WordsBijective` | crates/web/src/lib.rs:457-464 | four little-endian words and 32 bytes determine each other |
| `MethodIdentity.IdentityIsDigest` | examples/components/score/build.rs:22-27 | an identity is the digest of the name's UTF-8 form in little-endian words: byte j of word i is byte 8i+j of the digest |
| `MethodIdentity.HostTakesLastSegment` | crates/web/src/lib.rs:450-465 | a host hashes what follows the last dot, with underscores for dashes |
| `MethodIdentity.IdentityAgrees` | crates/cli/src/lib.rs:67-82 | for a source name without dash and dot, the host's hash of its kebab-case export is the guest's build-time hash |
| `MethodIdentity.RecoveryExact` | crates/web/src/lib.rs:450-455 | the source name is recovered if and only if it has no dash and no dot |
| `MethodIdentity.SharedIdentity` | crates/web/src/lib.rs:450-465 | exports share an identity exactly when the digests of their recovered names agree |
| `MethodIdentity.KebabNamesCollide` | examples/components/score/build.rs:22-27 | two different kebab-case methods with one identity exhibit a collision of the digest |
| `MethodIdentity.ReplaceInjective` | crates/web/src/lib.rs:455-455 | dashes to underscores loses nothing on names without underscores |
| `ContractRuns.StepKeepsInv` | crates/web/src/lib.rs:216-412 | every request, refused or not, and every act of the guest keeps the invariant of table, gate and buffer |
| `ContractRuns.MintNeverOverwrites` | crates/web/src/lib.rs:240-248 | the next id was issued before if and only if 2^32 ids were; until then it exceeds every id issued and no handle has it |
| `ContractRuns.LiveExactly` | crates/web/src/lib.rs:319-370 | until the counter wraps, the live ids are exactly those issued and not dropped |
| `ContractRuns.DroppedForGood` | crates/web/src/lib.rs:360-369 | a dropped id never becomes valid again in a run that issues at most 2^32 ids |
| `ContractRuns.WrapRevivesDroppedId` | crates/web/src/lib.rs:240-248 | with one mint more, a run in which a dropped id is valid again |
| `ContractRuns.HandleKeepsStore` | crates/web/src/lib.rs:232-236 | a handle keeps its export, its store and the ledger context of its mint, and its declared set only grows, until it is dropped |
| `ContractRuns.GateHolds` | crates/web/src/lib.rs:264-273 | every method that ever ran, ran on a store whose own guest declared its hash |
| `ContractRuns.OnlyDeclaredRuns` | crates/web/src/lib.rs:264-273 | at the moment a call is let through, its hash was declared earlier in the run by the guest of that very store |
| `ContractRuns.ListedExactly` | crates/web/src/lib.rs:376-389 | a name is listed exactly when it is a valid method of the export whose hash the store declared |
| `Descriptions.ConstructorsMint` | crates/web/src/lib.rs:176-180 | with no request in flight and arguments that convert, a constructor's name is described exactly when `call` lets it through to mint |
| `Descriptions.DescribedArity` | crates/web/src/lib.rs:432-441 | a described function takes as many arguments as it shows parameters, after the handle for a method: any other number is refused with both numbers |
| `Descriptions.KindDetermines` | crates/web/src/lib.rs:467-487 | a kind determines the scalar type it was shown for, and `json` is shown exactly for the others |
| `Descriptions.EntryShows` | crates/web/src/lib.rs:432-441 | an entry shows the parameters behind the skipped ones, in order, with their names and kinds |
| `Descriptions.LabelExactly` | crates/web/src/lib.rs:439-440 | its label is what follows the last dot of the name |
| `Descriptions.DescribedInOrder` | crates/web/src/lib.rs:165-207 | exports are described in order, each by itself |
| `Descriptions.DescribedAlone` | crates/web/src/lib.rs:165-207 | an export is described exactly when it owns a `utxo`, with its storage fields under their names and kinds |
| `Descriptions.ListedInOrder` | crates/web/src/lib.rs:376-389 | the listed names are in export order |
| `Descriptions.ListedAreDescribed` | crates/web/src/lib.rs:181-189 | the listed names are the described methods whose hash the store declared |
| `ContractRuns.AdmittedExactly` | crates/web/src/lib.rs:252-273 | for any instance the page names, a call on a live handle with arguments that convert is let through if and only if the function is a valid method there and the handle's own store declared its hash |
| `ContractRuns.ListedIsCallable` | crates/web/src/lib.rs:371-389 | among functions named as methods, the listed ones are exactly those the gate lets through |
| `ContractRuns.UnlistedYetCallable` | crates/web/src/lib.rs:252-273 | a run after which a function that is not listed passes the gate |
| `ContractRuns.ForeignMethodAdmitted` | crates/web/src/lib.rs:252-273 | a run after which a method of another instance passes the gate with a handle whose own export has no methods |
| `ContractRuns.StorageReloads` | crates/web/src/lib.rs:294-349 | the object read from storage hands `load_utxo` the same record, collapsed; unchanged if and only if no option holds an absent option |
| `Answers.MintAddsHandle` | crates/web/src/lib.rs:226-250 | a successful mint adds one handle, under the next id, of the instance the page named, with a store that has the request's ledger context and exactly the methods declared meanwhile, and changes no other |
| `Answers.FailedMintAddsNothing` | crates/web/src/lib.rs:240-250 | a mint that fails leaves the table and the next id as they were |
| `Answers.MintThenCall` | crates/web/src/lib.rs:240-273 | the document a mint answers, put in front of the arguments, makes `call` run a method on the new handle if and only if the guest declared it during the mint |
| `Answers.HandleIdExactly` | crates/web/src/lib.rs:642-646 | an id is read from the first argument exactly when that is an object with a 64-bit number under `$handle`, of which the low 32 bits count |
| `Answers.CallOnlyDeclares` | crates/web/src/lib.rs:252-283 | a method call or a read changes no handle but its own, and that only by what the guest declares |
| `Answers.DropRemovesHandle` | crates/web/src/lib.rs:360-369 | a drop takes out its handle and no other, whether or not the destructor fails |
| `Answers.ConstructorAdmittedExactly` | crates/web/src/lib.rs:226-239 | a constructor call is let through exactly for a known constructor that mints, with arguments the page may send, and the guest gets what they denote |
| `Answers.MethodAdmittedExactly` | crates/web/src/lib.rs:252-280 | any other call exactly for a known method, a live handle whose store declared it, and arguments it takes |
| `Answers.LoadAdmittedExactly` | crates/web/src/lib.rs:294-318 | `load_utxo` exactly for an instance with storage and a document the page may send for its record, and the guest gets what it denotes |
| `Answers.ReadsAndDropsAdmitted` | crates/web/src/lib.rs:333-369 | a drop exactly for a live handle, a read exactly for one whose instance has storage |
| `Answers.CallRefusedFor` | crates/web/src/lib.rs:216-273 | a refused call is refused for the first of its reasons, in the order of the checks |
| `Answers.BusyRefusesAll` | crates/web/src/lib.rs:216-369 | while a request is in flight, and only then, every other one is refused as busy |
| `Answers.AnsweredWhen` | crates/web/src/lib.rs:216-283 | there is an answer exactly for a request that was let through and whose guest returned |
| `Answers.ResultsAnswered` | crates/web/src/lib.rs:280-283 | the document a call answers shows each result in order, and lowered again gives them back, collapsed |
| `Answers.StorageAnswered` | crates/web/src/lib.rs:333-350 | the document a read answers shows the record |
| `Answers.ContextSet` | crates/web/src/lib.rs:406-411 | the ledger context set last stays until another is set, so it is what later mints take |
| `ContractRuns.EventsConserved` | crates/web/src/lib.rs:97-105 | the drained batches in order and then the buffer are the guest's emissions in order, failures included |
| `ContractRuns.FlightBuffers` | crates/web/src/lib.rs:396-400 | while a request is in flight its emissions stay behind what was in the buffer, whatever drains come in |
| `ContractRuns.RunBuffers` | crates/web/src/lib.rs:396-400 | a run that drains nothing leaves its emissions behind what was in the buffer |
| `Serving.Render` | crates/cli/src/bin/starstream-run.rs:309-314 | fails at the first method of invalid type, declared or not; otherwise renders exactly the methods `implemented_methods` would list |
| `Serving.Serve` | crates/cli/src/bin/starstream-run.rs:414-426 | registers each listed method under its name behind the prefix; fails on one without it |
| `Serving.SplitAtFirst` | crates/cli/src/bin/starstream-run.rs:423-423 | a name is split behind the first occurrence of the prefix |
| `Serving.ServedName` | crates/cli/src/bin/starstream-run.rs:423-423 | a method is served under what its export name has behind the prefix |
| `Serving.ServedIdentity` | crates/cli/src/bin/starstream-run.rs:423-423 | the name a method is served under has the method's own identity |
| `Serving.ServedAreDeclared` | crates/cli/src/bin/starstream-run.rs:414-426 | every name served stands for a method whose hash the instantiation declared |
| `ContractTable.Ctx.ImplementsMethod` | crates/web/src/lib.rs:80-84 | the hash joins this store's set |
| `ContractTable.Ctx.EmitEvent` | crates/web/src/lib.rs:98-105 | the event, its parameters lifted one by one, goes to the end of the shared buffer |
| `ContractTable.Contract.Call` | crates/web/src/lib.rs:216-283 | refuses while borrowed, then in the order of the checks, without any change; or is one whole run: admission, the guest's acts and the requests that come in meanwhile, its return; and answers with the new id or the results |
| `ContractTable.Contract.LoadUtxo` | crates/web/src/lib.rs:294-329 | the same for a mint from a storage record |
| `ContractTable.Contract.StorageGet` | crates/web/src/lib.rs:333-350 | the same for reading a handle's storage; the answer is one object with the record's fields |
| `ContractTable.StorageRoundTrip` | crates/web/src/lib.rs:294-349 | the document answered for a handle's storage, sent back for the same instance, hands the guest the record it was read from, collapsed; unchanged if and only if no option holds an absent option |
| `ContractTable.Contract.DropResource` | crates/web/src/lib.rs:360-369 | the handle is out of the table before its destructor runs, and stays out when that fails |
| `ContractTable.Contract.DrainEvents` | crates/web/src/lib.rs:396-400 | hands out the buffer and empties it; nothing while borrowed |
| `ContractTable.Contract.SetCardano` | crates/web/src/lib.rs:406-411 | changes the context of later mints only; nothing while borrowed |
| `ContractTable.Contract.DescribeInstances` | crates/web/src/lib.rs:165-207 | in export order, each instance's valid constructors and methods with their labels and the names and kinds of their parameters, and its storage fields; nothing while borrowed |
| `ContractTable.Contract.ImplementedMethods` | crates/web/src/lib.rs:376-389 | the listed names in export order, or the unknown-handle error |
| `ContractWorker.Worker.OnMessage` | crates/web/web/contract.worker.js:52-83 | one message, also one that comes in while another is awaited, makes the operation's steps and one drain, and the response carries its reply and the drained events, whether or not it failed; with no contract loaded the reply is the error for the operation, so a reply that is no error means that one is loaded |
| `ContractWorker.Worker.OnMessageReplaced` | crates/web/web/contract.worker.js:37-82 | when messages that came in during the `await` have loaded another contract, the operation and its reply are those of the old one, whose buffer keeps the events, and the response carries the other contract's buffer |
| `ContractWorker.RepliesAreEarned` | crates/web/web/contract.worker.js:37-82 | a reply is no error exactly when what was asked for was done, and only then has it had an effect; unknown operations, busy contracts and unknown handles are told apart |
| `ContractWorker.RefusalsAreTold` | crates/web/web/contract.worker.js:76-82 | a refused request changes nothing, and its reply says why it was refused |
| `ContractWorker.NamesAreListed` | crates/web/web/contract.worker.js:42-42 | the names in a reply are the declared methods of the handle's own instance |
| `ContractWorker.ResponseShipsEvents` | crates/web/web/contract.worker.js:64-82 | those events are what was in the buffer followed by what the guest emitted for this operation, whatever came in meanwhile; the response to a message that comes in meanwhile carries none and changes nothing |

## Left out

- SHA-256: the digest is an arbitrary function to 32 bytes, a parameter of every statement about identities.
- Floats in JSON: their conversions are a parameter (`External.liftFloat`, `External.lowerFloat`) and they are not among the types of the round trip, since NaN and infinity become null. In the codec they are 4- and 8-byte patterns.
- JSON text: parsing and printing are not modelled; a document is a tree, with an object's entries as a map and a number as the 64-bit integer or the real the parser keeps.
- The debug text `val_to_json` falls back to for variants, results, enums and flags is a parameter (`External.debug`).
- `crates/runtime/src/lib.rs`: component encoding, linking and type reflection. An exported instance is given by its functions' names and parameter types and by its storage fields.
- The guest: what it does when it is run is any sequence of host calls, chosen from outside; the score contract itself is not modelled.
- The call of a method of one instance with a handle of another one passes the gate (`ContractRuns.ForeignMethodAdmitted`); that wasmtime then refuses it is not part of this model.
- The command line around `Serving`: sockets, WebSocket and HTTP, argument and WAVE parsing, the text of the rendered WIT, and the registration of a name with the server.
- JSPI itself: an activation suspends and resumes as the engine promises. Nested plain exports are taken to balance their own frames.
- The runs of the protocol are those wasmtime makes: a stack region belongs to one entered fiber at a time, and a fiber is switched to only to enter it, to resume it while suspended, or from inside it to suspend it. `FiberEnv.Glue.FiberInit` and `FiberEnv.Glue.FiberSwitch` have no such condition.
- FiberJobs.BlockOn: a future that is never Ready, on which the loop does not end.
- Buffer capacity: `reserve` and `Vec::with_capacity` change no contents.
- Looking for a name that is not there in a type with exactly 255 or 65535 cases: the index iterator steps past its width there; the model gives the unknown-name error.
- Arithmetic is that of release builds, as in `crates/web/package.json`: `next_id` wraps.
- `wasm_tokio` is not part of this model: its readers and writers are taken from the standards named above, with status byte 1 for `some` and 0 for `ok`.
