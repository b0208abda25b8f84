# Verification of the sequence builder

This project models the firmware's sequence language and the path that leads to
a run of it, and proves what the firmware relies on. It is checked with
`dafny verify dfyconfig.toml` (Dafny 4.11).

## What is modelled

**JSON.** A document is a tree: null, bool, int, text, array, or an object as an
ordered sequence of members (`JsonTree`). Text is free of NUL characters and the
keys of an object are distinct. Presence, null, kind tests and value-or-default
follow ArduinoJson.

**The language.** A sequence holds nodes: leaf blocks, `if`, `repeat`,
`call-sequence`, dividers, disabled nodes (`Sequences`). `Interpreter` runs them
imperatively, over a mutable context with a scope stack and a call stack.
`Evaluator` is a big-step reading of the same language that passes one frame,
one depth and one set of active ids, and has no stacks. The methods are proved
against it.

The world is the *history* of a run: the blocks that ran, the predicates that
were tested, the delays. A block's outcome and a predicate's answer are
arbitrary functions of resolved parameters and everything that happened before,
so any deterministic world with any starting state is covered. "Same result,
world and trace" therefore reads "same result and history". Blocks leave the two
stacks alone and do not call back into the interpreter, as all shipped ones do.

**Resolution** (`ResolveParams`, `SecondResolution`) replaces `{"$param": name}`
objects and `${name}` inside texts. **Storage** (`SequenceCodec`, `CodecLaws`,
`SequenceStore`, `StoreLaws`) encodes, decodes and checks sequences.
`CheckedPrograms` ties the static check to the interpreter, `Reloading` ties
persisting to it. `Erasure`, `Repetition`, `Substitution` and `CallDepth` hold
laws of runs.

**Answers.** Methods are proved against functions, and those functions are in
turn pinned down on the objects themselves, with keys, slot names, words and
numbers written out: `NodeRuns` (what a frame holds and what each kind of node
does), `JsonReads` (what an object holds), `NumberText` (how a value reads
inside a text), `WireFormat` (the stored JSON, key by key), `CheckLaws` (which
fault is reported), `LoopLaws` (what the loop does in each situation), and the
laws of single field types in `QueryCoerce`, of insertion in `Editor`, of new
bindings in `BleMacTrigger` and of the last binding in `TriggerManager`.

**The editor** (`Trees`, `Editor`) edits the same node trees. A path
`[i, slot, j, slot', ..., k]` is a series of steps `Into(i, slot)` to a list and
an index into it.

**The firing path** is `QueryCoerce` (query texts to typed arguments),
`TriggerManager` (binding tables), `BleMacTrigger` (cooldown on a wrapping
clock) and `MainLoop` (run queue and run branch).

## What was found

- The check that marks callers broken is sound after every mutation, but a mark
  outlives its cause: a caller marked because its callee was missing stays
  marked once the callee is stored (`StoreLaws.MarkOutlivesCause`). Marks are
  exact after a load (`StoreLaws.LoadIsExact`), and in general exactly what
  `StoreLaws.ValidateIsExact` says.
- The check reads a call's `sequenceId` as written, the run reads it resolved.
  Under an id that is empty or has a closed `${name}` in it, a program that
  passes the check can ask for something else. The condition is exact: calls
  under an id never go wrong if and only if the id is plain
  (`CheckedPrograms.CallsAreSafeIff`), and programs with ids from a given set
  never go wrong if and only if all of them are
  (`CheckedPrograms.ProgramsAreSafeIff`). Assigned ids are plain.
- A required parameter keyed `$param` can pass the check and still be missing in
  the frame; `CheckedPrograms.RequiredArgIsBoundIff` says exactly when, and
  `CheckedPrograms.ParamKeyIsMissing` shows such a call.
- Resolving twice can differ from resolving once, in two ways. A text value can
  make a new reference where a text inserts it; it is harmless if and only if it
  is `Safe`: not empty, not starting with `{`, not ending with `$`, and without
  `${` (`SecondResolution.SafeIff`). And a document may hold a typed reference
  to a value that does not resolve to itself, or an object whose `$param` only
  becomes a text by resolving and is taken for a reference the second time
  (`SecondResolution.LateReferenceIsResolvedSecond`). Where the texts of a
  document insert only safe values, the second way is all there is:
  `SecondResolution.StableIffSettled` gives the exact condition on the document
  and on the values it refers to.
- One binding id used under two trigger types leaves an entry behind that a call
  with an empty list does not remove (`TriggerManager.SharedIdLeavesEntry`).
  `TriggerManager.InSyncIff` says exactly which calls leave such entries,
  `StaleEntrySurvives` that the next call never removes one, and `EntryGoesIff`
  which call does; binding the id once more under the old type makes the call
  after that remove it (`StaleEntryCanGo`).
- A BLE hit one whole clock wrap after the last fire is suppressed although its
  cooldown is over (`BleMacTrigger.HitAfterWholeWrap`), and a binding that never
  fired is deaf for one cooldown after the clock starts
  (`BleMacTrigger.EarlyHitIsSuppressed`; with the default cooldown, one second
  after the start: `BleMacTrigger.HitAfterOneSecond`).
  `BleMacTrigger.HitFiresIff` says exactly which hits fire, on every binding
  after every series of hits.
- Binding anew forgets the last fire, so that a cooldown may be cut short.
  `BleMacTrigger.RebindKeepsSpacingIff` says exactly when it is not.
- A request that arrives during a run is taken after it, but without its
  arguments, which the end of the run clears
  (`MainLoop.RequestDuringRunLosesArgs`). `MainLoop.ArgsSurviveIff` says exactly
  which requests keep theirs.
- Saving and loading keeps what a store does where its marks are exact
  (`Reloading.ReloadedRunsAlike`), and keeps who is marked if and only if they
  are (`Reloading.MarksSurviveIff`). Which unknown type a mark names may change,
  since the encoded child maps are in key order
  (`Reloading.ReloadNamesAnotherType`).
- The main loop starts a sequence without looking at its broken mark. Such a
  start does go wrong (`MainLoop.BrokenRootGoesWrong`), and only such a start
  can (`MainLoop.OnlyBrokenRootsGoWrong`).
- Pre-resolving a node whose parameters are one typed reference, or whose
  `_disabled` is one, may change whether it is skipped
  (`Substitution.ReferenceToDisabled`). It does so exactly when
  `Substitution.KeepsDisabled` fails (`Substitution.PreKeepsDisabledIff`), and
  it changes what the node does exactly when, besides, the node does anything at
  all (`Substitution.PrePlan`).

## Model

| member | source | states |
|---|---|---|
| ResolveParams.InterpolateText | src/core/ResolveParams.cpp:33-55 | The pointer scan over a text gives what replacing its closed tokens one after the other gives, including unterminated `${` tails and the first unbound name |
| ResolveParams.ResolveInto | src/core/ResolveParams.cpp:57-96 | The in-place walk yields the recursive substitution: typed references whole, tokens inside texts, members and items in their places, the first unbound name otherwise |
| ResolveParams.ResolveOutcome | src/core/ResolveParams.cpp:33-108 | Resolution succeeds if and only if every name the document refers to is bound, and otherwise names the first unbound one in the order of the walk |
| ResolveParams.ResolveDependsOnNames | src/core/ResolveParams.cpp:57-96 | Two scopes that agree on the names referred to give the same outcome |
| ResolveParams.NamelessIffFixed | src/core/ResolveParams.cpp:57-96 | A document refers to no name if and only if it resolves to itself in every scope |
| ResolveParams.ResolveAt | src/core/ResolveParams.cpp:68-74 | Resolving an object keeps its keys and resolves each member in its place, unless the object is a typed reference |
| NumberText.IntReads | src/core/ResolveParams.cpp:20-31 | An integer reads inside a text as its decimal numeral and as nothing else: the digits denote it, no superfluous zeros, a minus sign exactly when negative |
| NumberText.TextFormReads | src/core/ResolveParams.cpp:20-31 | What any value reads as: texts as they are, "true" and "false", "null", decimal numerals |
| NumberText.TokenReads | src/core/ResolveParams.cpp:33-55 | A closed token gives way to what its value reads as, in front of whatever the rest comes to |
| NumberText.UnboundTokenFails | src/core/ResolveParams.cpp:42-46 | An unbound name in a closed token is the outcome |
| NumberText.PlaceholderReads | src/core/ResolveParams.cpp:33-55 | A text that ends in `${name}` resolves to what stands in front and what the value reads as |
| NumberText.ReferenceIff | src/core/ResolveParams.cpp:8-17 | Typed references are exactly the objects `{"$param": name}` with a text as name |
| NumberText.ReferenceResolves | src/core/ResolveParams.cpp:57-66 | A typed reference resolves to its value, whole, or names what is unbound |
| SecondResolution.OutputIsNameless | src/core/ResolveParams.cpp:33-55 | Interpolating a text that refers to safe values leaves no closed token, even in front of an unterminated tail |
| SecondResolution.SafeIff | src/core/ResolveParams.cpp:33-55 | A text value is safe if and only if, under whatever name a text can refer to it, resolving any text twice is resolving it once |
| SecondResolution.UnsafeShowsInProbe | src/core/ResolveParams.cpp:33-55 | For every value that is not safe the outcome of the text `$${name}{}` has a new closed token |
| SecondResolution.StableIffSettled | src/core/ResolveParams.cpp:57-96 | Where the texts of a document insert safe values, resolving it twice is resolving it once if and only if each typed reference stands for a value that resolves to itself and each object that becomes a typed reference becomes one to itself |
| SecondResolution.SecondResolutionIsNoOp | src/core/ResolveParams.cpp:8-17 | Under that condition resolving a resolved document returns it unchanged, whatever else the scope holds |
| SecondResolution.EmptyValueMakesNewReference | src/core/ResolveParams.cpp:33-55 | With one empty value `$${a}{b}` resolves to `${b}` and, resolved again, to b's value |
| SecondResolution.LateReferenceIsResolvedSecond | src/core/ResolveParams.cpp:57-66 | An object whose `$param` is itself a reference resolves to a reference, and only the second time to what that refers to |
| NodeRuns.SkippedDoesNothing | src/core/Interpreter.cpp:57-63 | A divider, or a node whose `_disabled` is there and not null, false or zero, succeeds and leaves the history alone |
| NodeRuns.IfTrueRunsThen | src/core/Interpreter.cpp:64-78 | When the predicate holds on the resolved parameters, the list "then" runs on the history with the test, and without such a list nothing does |
| NodeRuns.IfFalseRunsElse | src/core/Interpreter.cpp:64-78 | When it does not hold, the same goes for "else" |
| NodeRuns.IfFails | src/core/Interpreter.cpp:65-72 | No frame, no predicate type, an unknown one, an unbound name: each its error, in this order |
| NodeRuns.LeafRunsBlock | src/core/Interpreter.cpp:121-126 | A leaf succeeds if and only if its block does, fails with the block's message, and adds exactly that one run to the history |
| NodeRuns.FailingLeafEndsList | src/core/Interpreter.cpp:48-54 | A list ends at a failing leaf with its error; nothing behind it runs |
| NodeRuns.SucceedingLeafGoesOn | src/core/Interpreter.cpp:48-54 | Behind a succeeding leaf the list goes on, on the longer history |
| NodeRuns.LeafFails | src/core/Interpreter.cpp:121-125 | An unregistered type, no frame, an unbound name: each its error, in this order |
| NodeRuns.RepeatOnce | src/core/Interpreter.cpp:79-95 | A repeat whose `count` is 1, absent or no 32-bit integer is its body, without delay |
| NodeRuns.RepeatMore | src/core/Interpreter.cpp:89-93 | With a count above 1 the body is followed by one delay of `interval_ms`, none if that is zero, and by what a repeat of one less does; a failing body ends it |
| NodeRuns.RepeatNone | src/core/Interpreter.cpp:89 | With a count of zero or below nothing runs |
| NodeRuns.SequenceEnters | src/core/Interpreter.cpp:36-46 | With eight calls in flight a sequence is refused, with fewer its nodes run in its own frame, one call deeper and with its id in flight |
| NodeRuns.CallRuns | src/core/Interpreter.cpp:100-119 | A call runs the sequence its resolved `sequenceId` names with its resolved `args`, or fails: no id, in flight, unknown, broken, in this order |
| NodeRuns.CallFails | src/core/Interpreter.cpp:96-102 | No frame, no lookup, an unbound name: each its error, in this order |
| NodeRuns.SelfCallIsCycle | src/core/Interpreter.cpp:106-110 | A sequence that calls itself first is stopped there with its id |
| NodeRuns.FrameHolds | src/core/Interpreter.cpp:22-33 | A frame has under a key the argument, else the last declared default that is not null, else nothing |
| Interpreter.BuildScope | src/core/Interpreter.cpp:22-33 | The two loops build the frame that has the declared defaults overlaid with the arguments |
| Evaluator.OverlayAt | src/core/Interpreter.cpp:27-31 | A key of a frame has the argument's value if there is one and else the value below it, and no other keys are bound |
| Interpreter.Interpreter.RunSequence | src/core/Interpreter.cpp:36-46 | Running over the stacks gives the result and history of the stack-free evaluator, leaves both stacks as found on success and failure, and only enters stacks grown by guarded calls |
| Interpreter.Interpreter.RunSlot | src/core/Interpreter.cpp:48-54 | The same for a list, which stops at its first failing node |
| Interpreter.Interpreter.RunNode | src/core/Interpreter.cpp:56-127 | The same for one node: skipped, control flow, call or leaf, each with its errors in the order the checks are made |
| Interpreter.Interpreter.RunIf | src/core/Interpreter.cpp:64-78 | The same for `if`: the predicate decides the slot, a missing slot is no error |
| Interpreter.Interpreter.RunRepeat | src/core/Interpreter.cpp:79-95 | The same for `repeat`: the counted loop agrees with the evaluator's count-down, delay for delay |
| Interpreter.Interpreter.RunCall | src/core/Interpreter.cpp:96-120 | The same for `call-sequence`, and every stack entered below it extends the caller's by ids not yet on it |
| Interpreter.InFlight | src/core/Interpreter.cpp:107-109 | The scan of the call stack finds an id exactly when it is among the active ones |
| Evaluator.EvalListAppend | src/core/Interpreter.cpp:48-54 | Running a joined list is running its front and then, unless that failed, its rest on the history so far |
| Repetition.ListExtends | src/core/Interpreter.cpp:48-54 | No run takes back anything of the history before it |
| Erasure.EraseRunsSequence | src/core/Interpreter.cpp:56-127 | Erasing all dividers and disabled nodes, in the sequence and in every callee, leaves result and history of every run unchanged |
| Erasure.EraseRunsList | src/core/Interpreter.cpp:48-63 | The same for a list under any activation |
| Erasure.EraseListSkipsNothing | src/core/Interpreter.cpp:57-63 | After erasing, no node of the list would be skipped |
| Erasure.EraseTwice | src/core/Interpreter.cpp:57-63 | Erasing twice is erasing once |
| Repetition.RepeatUnrolls | src/core/Interpreter.cpp:79-95 | Inside any list a repeat with interval 0 may be replaced by as many copies of its body as its resolved count says, none if that is not positive |
| Repetition.RepeatCompletes | src/core/Interpreter.cpp:89-94 | A repeat succeeds if and only if all its iterations do, and else ends with the result and history of the first one that fails |
| Repetition.OwnDelayCounts | src/core/Interpreter.cpp:92 | The delay a repeat adds itself is its interval once after each completed iteration but the last of all |
| Repetition.SuccessfulRepeatDelay | src/core/Interpreter.cpp:79-95 | A successful repeat of count k with interval d, as converted to unsigned, delays max(0, k-1)*d on top of what its body's runs delay, and without a body nothing |
| Substitution.PreKeepsDisabledIff | src/core/Interpreter.cpp:57-61 | Resolving a node's parameters beforehand keeps its being disabled if and only if no typed reference decides that otherwise |
| Substitution.PrePlan | src/core/Interpreter.cpp:56-127 | Under any frame at all a pre-resolved node does at first what the node does under its own frame, if and only if it is skipped either way, resolving keeps its being disabled, or it does nothing anyway |
| Substitution.ReferenceToDisabled | src/core/Interpreter.cpp:57-61 | A leaf whose parameters are one reference to a value that says disabled runs its block, while its pre-resolved form is skipped |
| Substitution.PreRunsList | src/core/Interpreter.cpp:48-54 | Running a list in a frame equals running the pre-resolved list in any frame, the empty one included, when each node in it is skipped either way, or resolves and keeps its being disabled or idles |
| Substitution.CallFreeList | src/core/Interpreter.cpp:48-54 | A list without a live call runs alike at any depth, whatever is in flight |
| Substitution.InlineCall | src/core/Interpreter.cpp:96-120 | Inside any list a permitted call to a call-free callee may be replaced by the callee's body pre-resolved in the frame the call would build, with the same result and history, under the same condition on the body |
| CallDepth.StacksStayDistinct | src/core/Interpreter.cpp:106-119 | Every stack grown by guarded calls over a faithful lookup has pairwise distinct stored ids, so no more of them than there are |
| CallDepth.StoredRunStacksStayDistinct | src/core/Interpreter.cpp:36-46 | In every state a run of a stored sequence reaches, the ids in flight are distinct and no more than the stored sequences |
| CallDepth.SequenceNotTooDeep | src/core/Interpreter.cpp:37-39 | Below a stored sequence not in flight, with at most eight stored ids, "call depth exceeded" is unreachable at any nesting |
| CallDepth.RunNotTooDeep | src/core/Interpreter.h:21 | A run from a stored sequence never exceeds the call depth with at most eight stored ids |
| CheckedPrograms.CheckedIdIsAskedFor | src/core/Interpreter.cpp:100-113 | The id a satisfiable call asks for at run time is the one the check looked at, when it is plain |
| CheckedPrograms.CheckedSequence | src/core/Interpreter.cpp:96-122 | In a sound store with plain ids a sequence not marked broken never ends in unknown block, unknown sequence or missing sequenceId, at any call depth |
| CheckedPrograms.CheckedProgramsDoNotGoWrong | src/core/SequenceStore.cpp:18-113 | The same for every store that any series of loads, replacements, upserts and removals of decoded sequences leads to |
| CheckedPrograms.CallAsksFor | src/core/Interpreter.cpp:100-120 | Under any id at all a call is checked against the id as written and asks for what the id resolves to, with the outcome that has |
| CheckedPrograms.IdThatIsReferenceGoesWrong | src/core/SequenceStore.cpp:29-40 | Under an id that is one reference the check passes and the run asks for what the reference stands for |
| CheckedPrograms.PlainIffFixed | src/core/ResolveParams.cpp:33-55 | The plain ids are exactly the non-empty ones that resolve to themselves in every scope |
| CheckedPrograms.CallsAreSafeIff | src/core/Interpreter.cpp:96-120 | Calls that pass the check under an id never go wrong, in any store and any frame, if and only if the id is plain |
| CheckedPrograms.UnplainIdGoesWrong | src/core/SequenceStore.cpp:29-40 | For every id that is not plain, one load gives a store whose only sequence has that id, passes the check, and goes wrong when run |
| CheckedPrograms.ProgramsAreSafeIff | src/core/Interpreter.cpp:96-122 | Over all stores that any series of mutations leads to, programs with ids from a given set never go wrong if and only if all these ids are plain |
| CheckedPrograms.NewIdIsPlain | src/core/SequenceStore.cpp:72-79 | Assigned ids are non-empty and resolve to themselves |
| CheckedPrograms.RequiredArgsAreBound | src/core/SequenceStore.cpp:41-51 | When a checked call reaches its callee, every required parameter with a key other than `$param` is bound in the new frame |
| CheckedPrograms.RequiredArgIsBoundIff | src/core/SequenceStore.cpp:41-51 | A required parameter without default is bound if and only if the arguments as written are no typed reference or refer to an object with that key |
| CheckedPrograms.ParamKeyIsMissing | src/core/SequenceStore.cpp:41-51 | With the arguments `{"$param": name}` a call to a callee that requires a parameter keyed `$param` passes the check and reaches the callee without it |
| WireFormat.TypeNameIff | src/core/SequenceCodec.cpp:15-45 | Which name each field type has; every other name reads as string |
| WireFormat.SequenceReads | src/core/SequenceCodec.cpp:89-118 | Which key each field of a sequence is read from, in order, and what stands in for it: empty texts, a cooldown of 60000, empty lists |
| WireFormat.ParamReads | src/core/SequenceCodec.cpp:97-107 | The same for a parameter; required is anything but null, false and zero |
| WireFormat.NodeReads | src/core/SequenceCodec.cpp:47-58 | The same for a node, which has one child list for each key of its `children`, with the nodes of the array there or empty |
| WireFormat.TriggerReads | src/core/SequenceCodec.cpp:158-172 | The same for a binding, which is enabled unless it says false |
| WireFormat.FirstOfListIsNamed | src/core/SequenceCodec.cpp:59-65 | Of two unknown types in a list the first is named |
| WireFormat.BelowIsNamedFirst | src/core/SequenceCodec.cpp:50-65 | An unknown type below a node is named before the node's own |
| WireFormat.KnownIff | src/core/SequenceCodec.cpp:59-65 | Exactly the registered types and the four of control flow and layout are known |
| WireFormat.SequenceWrites | src/core/SequenceCodec.cpp:129-156 | Which key each field of a sequence is written under |
| WireFormat.ParamWrites | src/core/SequenceCodec.cpp:137-146 | The same for a parameter; an empty enumeration and a null default are left out |
| WireFormat.NodeWrites | src/core/SequenceCodec.cpp:68-85 | The same for a node: parameters never null, one array per child list, in order |
| WireFormat.TriggerWrites | src/core/SequenceCodec.cpp:180-195 | The same for a binding; null arguments are left out |
| CodecLaws.SequencesAt | src/core/SequenceCodec.cpp:89-121 | Sequences are read one by one, in order |
| WireFormat.SequencesWrite | src/core/SequenceCodec.cpp:129-156 | And written so, one object each |
| WireFormat.TriggersAt | src/core/SequenceCodec.cpp:158-172 | Bindings are read one by one, in order |
| WireFormat.TriggersWrite | src/core/SequenceCodec.cpp:180-195 | And written so |
| SequenceCodec.FieldTypeRoundTrip | src/core/SequenceCodec.cpp:15-45 | Parsing a field type's name gives the type back |
| SequenceCodec.DecodeNodeInto | src/core/SequenceCodec.cpp:47-66 | The recursive decoder yields the decoded tree and keeps the first unknown type met, children before their parent |
| SequenceCodec.EncodeNodeInto | src/core/SequenceCodec.cpp:68-85 | The recursive encoder yields the encoded tree, never with null parameters |
| SequenceCodec.DecodeList | src/core/SequenceCodec.cpp:89-121 | Decoding yields one sequence per item in order, nothing from anything but an array |
| SequenceCodec.DecodeOne | src/core/SequenceCodec.cpp:92-118 | One sequence with its parameters, its nodes and its mark |
| SequenceCodec.EncodeList | src/core/SequenceCodec.cpp:129-156 | Encoding yields one object per sequence in order |
| SequenceCodec.EncodeOne | src/core/SequenceCodec.cpp:132-152 | One object with the sequence's parameters and nodes |
| SequenceCodec.DecodeTriggerList | src/core/SequenceCodec.cpp:158-172 | Decoding yields one binding per item in order, nothing from anything but an array |
| SequenceCodec.EncodeTriggerList | src/core/SequenceCodec.cpp:180-195 | Encoding yields one object per binding in order |
| CodecLaws.NodeRoundTrip | src/core/SequenceCodec.cpp:47-85 | Decoding an encoded node gives it back with its nested lists, but for null parameters |
| CodecLaws.ParamRoundTrip | src/core/SequenceCodec.cpp:97-107 | Decoding an encoded parameter gives it back exactly |
| CodecLaws.SequenceRoundTrip | src/core/SequenceCodec.cpp:89-156 | Decoding an encoded sequence gives it back but for null node parameters and marks set afresh |
| CodecLaws.SequencesRoundTrip | src/core/SequenceCodec.cpp:89-156 | The same for a whole list |
| CodecLaws.ReloadTwice | src/core/SequenceCodec.cpp:89-156 | Encoding and decoding twice is doing it once |
| CodecLaws.DecodedListInOrder | src/core/SequenceCodec.cpp:50-58 | Whatever is decoded, every child map comes out in key order |
| CodecLaws.DecodedMarkIsExact | src/core/SequenceCodec.cpp:59-65 | A decoded sequence is marked broken if and only if a node at some depth has an unknown type |
| CodecLaws.TriggersRoundTrip | src/core/SequenceCodec.cpp:158-195 | Trigger bindings come back exactly |
| Reloading.NormalRunsSequence | src/core/Interpreter.cpp:36-127 | A sequence with null parameters turned into empty ones, over callees treated alike, runs as the original: the same result but for why a callee is broken, the same history but for null parameters |
| Reloading.SavedAndLoadedAt | src/core/SequenceStore.cpp:62-70 | Saving and loading changes null parameters and marks only, and marks exactly the sequences with an unknown type or an unsatisfiable call |
| Reloading.MarksSurviveIff | src/core/SequenceStore.cpp:62-70 | Saving and loading keeps who is marked if and only if the marks were exact |
| Reloading.ReloadedRunsAlike | src/core/SequenceStore.cpp:62-70 | Where the marks are exact every sequence of the reloaded store runs as it ran in the saved one, for blocks that do not tell null parameters from empty ones |
| Reloading.ReloadNamesAnotherType | src/core/SequenceCodec.cpp:50-65 | With unknown types below two keys written out of order, decoding names the first as written, and decoding what was encoded the first in key order |
| SequenceStore.WalkNodes | src/core/SequenceStore.cpp:10-16 | The walk over all nodes with the early-exit visitor finds the first fault in pre-order |
| SequenceStore.Visit | src/core/SequenceStore.cpp:26-52 | One visit finds a call's missing id, unknown callee or first missing required argument, and nothing once a fault is known |
| SequenceStore.SequenceStore.ValidateCallSequenceArgs | src/core/SequenceStore.cpp:18-54 | Marking in place while walking comes to checking every caller against the list from before |
| SequenceStore.SequenceStore.Load | src/core/SequenceStore.cpp:62-66 | The stored blob decoded and checked, nothing when there is none |
| SequenceStore.SequenceStore.Save | src/core/SequenceStore.cpp:68-70 | The blob under the store's key is the encoded list, other blobs stay |
| SequenceStore.SequenceStore.NewId | src/core/SequenceStore.cpp:72-79 | Eight hex digits, which ones is open |
| SequenceStore.SequenceStore.ReplaceAll | src/core/SequenceStore.cpp:81-86 | The given list, with ids exactly where they were missing, checked |
| SequenceStore.SequenceStore.Upsert | src/core/SequenceStore.cpp:88-99 | The first sequence with the id replaced, or the sequence appended, then checked |
| SequenceStore.SequenceStore.RemoveById | src/core/SequenceStore.cpp:101-108 | Removes and checks exactly when the id is stored, else changes nothing |
| SequenceStore.SequenceStore.Lookup | src/core/SequenceStore.cpp:110-114 | The first sequence with the id, if any |
| CheckLaws.CallNeedsCallee | src/core/SequenceStore.cpp:26-40 | A call without a text as id, or with one that no stored sequence has, is at fault for that |
| CheckLaws.CallNeedsArguments | src/core/SequenceStore.cpp:41-51 | A call of a stored sequence is at fault over the first required parameter without default that its arguments lack, and over nothing if none is |
| CheckLaws.MarkedForFirstFault | src/core/SequenceStore.cpp:10-54 | A sequence is marked for the first fault among its nodes, parents before what is below them |
| CheckLaws.MarkStays | src/core/SequenceStore.cpp:25 | A sequence marked before is left as it is |
| CheckLaws.NewIdIff | src/core/SequenceStore.cpp:72-79 | New ids are exactly the texts of eight lower-case hex digits |
| CheckLaws.IdsGivenWhereMissing | src/core/SequenceStore.cpp:81-83 | Replacing gives ids to the sequences that have none and changes nothing else of any |
| CheckLaws.PreOrderStarts | src/core/SequenceStore.cpp:10-16 | A node comes before what is below it, and that before the next node |
| CheckLaws.StoredUnder | src/core/SequenceStore.cpp:60-66 | Sequences are read from the blob "sequences", one per item, and without it there are none |
| CheckLaws.UpsertPuts | src/core/SequenceStore.cpp:88-99 | Upserting replaces the first sequence with the id in its place, or appends |
| CheckLaws.RemoveTakes | src/core/SequenceStore.cpp:101-108 | Removing takes out the first sequence with the id and nothing else |
| CheckLaws.FirstIsFound | src/core/SequenceStore.cpp:110-114 | A lookup finds the first sequence with the id |
| StoreLaws.FirstFaultIsExact | src/core/SequenceStore.cpp:26-52 | The walk finds no fault if and only if every call node at every depth can be satisfied |
| StoreLaws.ValidateIsExact | src/core/SequenceStore.cpp:18-54 | After the check a sequence is broken if and only if it was before or has an unsatisfiable call, and only marks have changed |
| StoreLaws.ValidateTwice | src/core/SequenceStore.cpp:18-54 | Checking again changes nothing |
| StoreLaws.ValidateIgnoresOrder | src/core/SequenceStore.cpp:18-54 | With distinct ids the checked sequences are the same in whatever order they are stored |
| StoreLaws.StoreIsAlwaysSound | src/core/SequenceStore.cpp:62-108 | After any series of mutations every sequence not marked broken has known types and satisfiable calls at every depth in the store as it is |
| StoreLaws.LoadIsExact | src/core/SequenceStore.cpp:62-66 | After a load a sequence is broken if and only if some node has an unknown type or some call cannot be satisfied |
| StoreLaws.MarkOutlivesCause | src/core/SequenceStore.cpp:25 | A caller marked for a missing callee stays marked once the callee is stored |
| Trees.ShiftedReachesSame | src/web/editor.html:717-725 | A path not leading into a removed node, once rewritten, reaches after the removal the list it reached before: the same list, and writing there before or after the removal comes to the same tree |
| Trees.PrefixReachesCutList | src/web/editor.html:717-725 | A path to a list above the removed node, or to its own list, is not rewritten and reaches that list with just the node removed |
| Trees.RemoveUndoesInsert | src/web/editor.html:543-554 | A node inserted anywhere is found there, and removing it gives the tree from before |
| Trees.InsertUndoesRemove | src/web/editor.html:550-554 | Putting a removed node back where it was gives the tree from before |
| Editor.AddedAtRootEnd | src/web/editor.html:529-539 | Without a selection new content goes to the end of the root list |
| Editor.AddedToFirstSlot | src/web/editor.html:529-539 | With a block selected that has child slots, it goes to the end of the first of them |
| Editor.AddedBehindSelected | src/web/editor.html:529-539 | With any other node selected, it goes right behind that node |
| Editor.IsAncestor | src/web/editor.html:653-657 | The element-wise comparison tells whether the path leads through the node |
| Editor.AdjustAfterSrcSplice | src/web/editor.html:717-725 | The element-wise rewriting shifts exactly the index that a removal shifts |
| Editor.Editor.ListAt | src/web/editor.html:513-517 | The loop down from the root arrives at the list of the path |
| Editor.Editor.AddNode | src/web/editor.html:529-549 | The new node is found at the new selection, which is the insertion point, and deleting it there gives the tree from before |
| Editor.Editor.DeleteNode | src/web/editor.html:550-554 | Exactly the node at the path is gone, and inserting it there gives the tree from before |
| Editor.Editor.MoveAcross | src/web/editor.html:727-749 | The moved subtree is found at the new selection, and the tree without it is the old tree without it; a move onto its own place changes nothing |
| Editor.Editor.OnNodeDrop | src/web/editor.html:684-694 | Dropping onto the node itself or below it changes nothing, any other drop is a move to the index before or behind the target |
| Editor.Editor.OnSlotDrop | src/web/editor.html:704-712 | Dropping below the node changes nothing, any other drop moves it to the front of the empty slot |
| Editor.OthersRemain | src/web/editor.html:713-725 | Every node outside the removed subtree is still there, at its rewritten path |
| Editor.DropLandsBesideTarget | src/web/editor.html:684-694 | A node dropped onto another ends up next to it, on the side it was dropped |
| Editor.MoveConserves | src/web/editor.html:727-749 | After a move every node occurs as often as before |
| Editor.MoveIsDetermined | src/web/editor.html:727-749 | What a move may do to the tree is fixed by where the node comes from and goes to |
| QueryCoerce.EnumContains | src/adapters/triggers/QueryCoerce.cpp:24-33 | The scan finds a value if and only if it is one of the parts between commas |
| QueryCoerce.SplitList | src/adapters/triggers/QueryCoerce.cpp:67-77 | The loop yields the parts between commas as texts, in order |
| QueryCoerce.JoinSplit | src/adapters/triggers/QueryCoerce.cpp:67-77 | Joining the parts of any text gives the text back |
| QueryCoerce.SplitJoin | src/adapters/triggers/QueryCoerce.cpp:67-77 | Splitting what was joined from comma-free parts gives the parts back |
| QueryCoerce.CoerceOne | src/adapters/triggers/QueryCoerce.cpp:62-113 | One query text by field type: a value, nothing, or the problem with it |
| QueryCoerce.BoolReads | src/adapters/triggers/QueryCoerce.cpp:88-100 | A bool is true for 1, true, yes, on and false for 0, false, no, off, up to ASCII letter case, and invalid for all else |
| QueryCoerce.TextReads | src/adapters/triggers/QueryCoerce.cpp:63-66 | Strings and MACs are taken as they are, predicates not at all |
| QueryCoerce.IntReads | src/adapters/triggers/QueryCoerce.cpp:78-87 | An int is what strtol makes of the whole of a non-empty text, else invalid |
| QueryCoerce.ListReads | src/adapters/triggers/QueryCoerce.cpp:67-77 | A list has the comma-free parts that the text joins, each as a text, in order |
| QueryCoerce.EnumReads | src/adapters/triggers/QueryCoerce.cpp:101-109 | An enum takes a text as it is if and only if it is among the allowed ones |
| QueryCoerce.CoerceQueryArgs | src/adapters/triggers/QueryCoerce.cpp:36-116 | The three passes over one object come to the three layers on top of each other, stopped at the first invalid text |
| QueryCoerce.CoercedArgsAt | src/adapters/triggers/QueryCoerce.cpp:36-116 | A key has its coerced query value if there is one, else the binding's value, else the declared default, and there are no other keys |
| QueryCoerce.RejectedIff | src/adapters/triggers/QueryCoerce.cpp:78-109 | Coercion is rejected if and only if some parameter's query text is invalid, and names the first such parameter |
| QueryCoerce.DefaultLayerIsRedundant | src/adapters/triggers/QueryCoerce.cpp:42-47 | The frame built from the coerced arguments is the one built from them without the default layer |
| TriggerManager.Trigger.Bind | src/core/Trigger.h:17-24 | Accepted parameters overwrite the table's entry, others leave the table alone |
| TriggerManager.TriggerManager.UnbindAll | src/core/TriggerManager.cpp:10-11 | Exactly the active ids are gone from the tables they went to, in whatever order they are unbound |
| TriggerManager.TriggerManager.ApplyBindings | src/core/TriggerManager.cpp:9-27 | The calls on the trigger objects change all tables, the active map and the flag as clearing and then binding in order does |
| TriggerManager.ClearedIffInSync | src/core/TriggerManager.cpp:10-13 | Clearing empties all tables if and only if each entry is active under its table's type |
| TriggerManager.LastLiveIsLast | src/core/TriggerManager.cpp:14-24 | Where an id is active is decided by the last enabled binding of a registered type with that id |
| TriggerManager.LastHeldIsLast | src/core/TriggerManager.cpp:14-23 | What a table holds is decided by the last enabled and accepted binding of its type with that id |
| TriggerManager.AppliedAt | src/core/TriggerManager.cpp:9-27 | What one call makes of any state, place by place: the list's last accepted live binding, or else what was stale there before; the active type is the last live binding's; the flag depends on the list alone |
| TriggerManager.InSyncIff | src/core/TriggerManager.cpp:14-26 | From any state a call leaves the tables so if and only if, wherever the list brings an entry or one was stale, the last live binding with the id is of that type |
| TriggerManager.StaleEntrySurvives | src/core/TriggerManager.cpp:10-24 | A stale entry is still there after the next call, overwritten if the list brings one for the same place and else unchanged |
| TriggerManager.EntryGoesIff | src/core/TriggerManager.cpp:10-24 | After one more call an entry is absent if and only if that list does not bring it and it was absent or the earlier list's last live binding with the id is of that type |
| TriggerManager.TablesMatchLastList | src/core/TriggerManager.cpp:9-31 | After any series of calls with distinct ids each table holds exactly the enabled, accepted bindings of its type in the last list, and the flag is set if and only if one of its live bindings pauses scanning |
| TriggerManager.SharedIdLeavesEntry | src/core/TriggerManager.cpp:24 | An id under two types leaves an entry that survives a call with an empty list |
| BleMacTrigger.BleMacTrigger.Bind | src/adapters/triggers/BleMacTrigger.cpp:51-66 | A binding with a MAC is stored with its cooldown and a cleared clock, one without changes nothing |
| BleMacTrigger.NewActiveHolds | src/adapters/triggers/BleMacTrigger.cpp:58-65 | A new binding has its MAC in lower case, the given cooldown or 60000, and no fire behind it |
| BleMacTrigger.BleMacTrigger.Unbind | src/adapters/triggers/BleMacTrigger.cpp:68-70 | Exactly this binding is gone |
| BleMacTrigger.BleMacTrigger.OnHit | src/adapters/triggers/BleMacTrigger.cpp:76-85 | The bindings that fire are exactly the due ones, each once, and exactly their clocks are set |
| BleMacTrigger.TableIsPointwise | src/adapters/triggers/BleMacTrigger.cpp:76-85 | Over any series of hits each binding of the table goes its own way |
| BleMacTrigger.FiresAreSpaced | src/adapters/triggers/BleMacTrigger.cpp:81-82 | Any two fires of a binding, as bound once, are at least a cooldown of true time apart, across any number of clock wraps |
| BleMacTrigger.RebindKeepsSpacingIff | src/adapters/triggers/BleMacTrigger.cpp:51-66 | After binding anew all fires keep the cooldown from the last one before, whatever hits come, if and only if a whole cooldown lies between that and the binding or the clock has started over in between |
| BleMacTrigger.FiresInWindow | src/adapters/triggers/BleMacTrigger.cpp:76-85 | Any window of length W holds at most W / cooldown + 1 fires of a binding |
| BleMacTrigger.HitFiresIff | src/adapters/triggers/BleMacTrigger.cpp:81 | On any binding and after any series of hits, one more fires if and only if it is of the device and the true time since the last fire, or since what the binding started with while there was none, reaches the cooldown modulo 2^32 |
| BleMacTrigger.EarlyHitIsSuppressed | src/adapters/triggers/BleMacTrigger.cpp:60-81 | A binding that never fired ignores a hit in the first cooldown after the start of the clock, and after each of its wraps |
| BleMacTrigger.HitAfterWholeWrap | src/adapters/triggers/BleMacTrigger.cpp:81 | Of two hits one whole wrap apart only the first fires |
| MainLoop.Firmware.EnqueueRun | src/main.cpp:59-65 | A request is taken with its id and arguments if none is pending, else turned away without a trace |
| MainLoop.Firmware.Loop | src/main.cpp:227-275 | One pass over the globals is one step of the queue machine, run included |
| MainLoop.Firmware.TryConnectIdle | src/main.cpp:170-189 | What an attempt to join the idle network does to readiness and scanning |
| MainLoop.Firmware.RunPending | src/main.cpp:238-273 | The pending request is consumed with its own id and arguments, and its sequence run if it is stored |
| MainLoop.Firmware.RunFresh | src/main.cpp:251-258 | A run in a new context is a run of the evaluator with nothing in flight, over the stored sequences |
| LoopLaws.RequestIsKept | src/main.cpp:59-65 | A request is kept when none is pending, else it changes nothing |
| LoopLaws.LostConnectionIsNoticed | src/main.cpp:234-237 | A pass that finds the network gone clears the readiness and nothing else |
| LoopLaws.AttemptDecides | src/main.cpp:154-189 | Without readiness a pass makes the attempt that is due: joining makes Wi-Fi ready and starts scanning the first time if a binding needs it, giving up leaves the runtime mode, else nothing changes |
| LoopLaws.LostThenJoined | src/main.cpp:231-237 | After the network was lost, the next pass that joins makes Wi-Fi ready again, with the request still pending |
| LoopLaws.NothingToDo | src/main.cpp:231-238 | Outside the runtime mode a pass changes nothing, nor does a ready one without a request |
| LoopLaws.UnknownIsReported | src/main.cpp:239-246 | A request for a sequence that is not stored is used up and its id reported |
| LoopLaws.StoredSequenceRuns | src/main.cpp:247-273 | A request for a stored sequence runs the first one with the id, with its arguments and nothing in flight; history, error, scanning and readiness afterwards |
| LoopLaws.ReadyIff | src/main.cpp:231-273 | After any steps Wi-Fi is ready if and only if one of them joined and none since then found the network gone or ran a sequence after which it was not in place |
| LoopLaws.ScanningDuringRun | src/main.cpp:247-268 | During a run scanning is off if a trigger asks for that, else as before, and passes do nothing |
| MainLoop.QueueNeverLosesRequests | src/main.cpp:49-65 | In every run the accepted requests are the consumed ones, in order and unchanged, and then the pending one; scanning once started is on after every step |
| MainLoop.EveryStartWasReady | src/main.cpp:232-258 | In every run the starts were made one each in ever later passes with Wi-Fi ready and connected, of the request then pending, and are in order a part of what was consumed |
| MainLoop.HalvesArePass | src/main.cpp:238-273 | With no request in between, the start and the end of a run come to the one pass |
| MainLoop.ArgsSurviveIff | src/main.cpp:49-65 | With requests arriving during runs too, requests come out in the order they were accepted in, each with its own id, and with its own arguments if and only if it did not arrive during a run or has none |
| MainLoop.RequestDuringRunLosesArgs | src/main.cpp:258-261 | A request that arrives during a run is taken after it with its id and without its arguments |
| MainLoop.OnlyBrokenRootsGoWrong | src/main.cpp:243-263 | Over a sound store a run that the loop starts ends in an error the check rules out only if its sequence is marked broken |
| MainLoop.BrokenRootGoesWrong | src/main.cpp:243-263 | A pending sequence that loading marked broken for an unknown type is started by the next ready pass and ends in unknown block |

## Left out

- JSON text: parsing and printing are not modelled; blobs are JSON trees, and a blob that does not parse is not distinguished from an empty list.
- Floating-point numbers, and the text form of arrays and objects inside a text (the constant `SERIALIZED`): they depend on the JSON library.
- What `strtol` accepts, and its range (the constant `STRTOL`): depends on the platform.
- Aliasing of JSON and node storage: documents, nodes and lists are values, so an in-place write is the assignment of a changed value to the field that holds it.
- `std::map` iteration order where only an order of independent effects depends on it: unbinding, and the order in which several BLE bindings fire on one hit.
- Lookups that are not deterministic, and registries or stores that change during a run.
- MainLoop.Firmware.TryConnectIdle: takes the outcome of an attempt as given; the retry clock, the failure counter and the starting of routes and bindings on the first connection are not modelled.
- MainLoop.Firmware.Loop: as a method a pass is atomic, as the comment at src/main.cpp:49-50 assumes (`MainLoop.FineNext` lets requests arrive during the run); LED and timestamps are not modelled, and scanning is assumed to be touched by nothing else.
- TriggerManager.Trigger.Bind: an abstract table per trigger type; the lookup, the callback and the registering of routes or scans that real triggers do on binding are not modelled.
- Freshness of new ids: nothing in the code enforces it, so where distinct ids are needed they are assumed.
- The editor's move up and down, copy, cut, paste and duplicate, its field editors and its rendering: the same splices at the same kind of paths.
- `HttpRouteTrigger`: which handler answers depends on the web server, which is not part of this model.
- Network, TV, WebSocket, HTTP client, Wi-Fi and BLE radio code, the setup and API servers, configuration, default sequences, status LED, Wake-on-LAN and the registry's schema dump: I/O, or easy claims only.
- `Sequence.cooldownMs` is stored and encoded but read by no run.
