# uq, verified

uq is a message queue written in Go. Producers push messages onto a *topic*, an append-only log
numbered by consecutive ids. Consumers read a topic through *lines*: each line has a cursor of its
own, hands every message out once, and, when it was created with a recycle time, keeps what it
handed out *in flight* and hands it out again after that time unless it is confirmed. A background
pass deletes the messages that every line is done with. Topics, lines and messages live as records
in a key-value store, from which a queue is loaded when it starts.

This project models that core and proves what it promises. `dafny verify dfyconfig.toml` checks all
of it with Dafny 4.11.

## How it is laid out

| module | what it holds |
|---|---|
| `Base`, `Decimal` | bytes, results and errors; decimal numbers as `strconv` prints and parses them |
| `StoreKeys`, `Store` | the keys of the records, when two of them are the same string, and the store |
| `LineSpec`, `LineProofs`, `LineHistory` | one line as a value: its operations, its invariant, and the laws of its whole history |
| `TopicSpec`, `TopicProofs` | a topic with its lines and records as a transition system; the invariant of every run |
| `Sweep`, `Passes` | a pass of the collector as a whole: when it stops, what it deletes, what it leaves |
| `Collector`, `Joining`, `HeadRace` | what the collector leaves readable; lines that join while it works; `empty` overtaken by a push |
| `Snapshots`, `Recovery`, `Crash` | what the saved records are good for: loading after Close and loading after a crash |
| `Faultless` | runs in which no write fails: the records follow the topic, and what removal leaves |
| `QueueSpec`, `QueueProofs`, `Lifetime`, `Guarantees` | all topics over one store, with restarts; what clients can rely on |
| `Requests`, `Published` | what clients are answered, for every key and state; from push to pop, and what a new line gets |
| `Names` | request keys and message ids |
| `Wire`, `WireBuffers` | the protobuf encoding of the saved records, as a function and as the generated code |
| `Resp`, `RespSession` | the Redis protocol of the entry: printing, reading and parsing commands |
| `Engine`, `Queue`, `Loader` | lines, topics, the queue and loading as the source runs them: objects and loops |
| `Witnesses` | short runs that exhibit what is not promised |

Code that updates things in place (lines, topics, the queue, the store, the protobuf buffers, the
session) is a class or a method with loops, proved equal to a function or a relation on values. The
lemmas are about those functions and relations. Each operation of a topic is taken as one atomic
step. Two are also cut up: `clean`, which holds only the head lock, into one step per deleted
message, and `empty`, whose last part is a step by itself. Every write or delete may fail, except
where a statement says otherwise. The clock is a parameter of each operation and does not run
backwards; what a pass sees of the clock and of the quit signal is a parameter too. A few definitions that most proofs carry along without looking inside are guarded by the
mark `Opened`, which is always true.

## What was found

Some things the code does are not what one would expect. Each is a lemma:

- `newLine` reads the head without the lock `clean` holds. The new line will always be able to read
  what it has yet to deliver exactly when nothing at or above its start has been deleted by the time
  it joins and a pass under way has nothing left to delete there (`JoinIsSafe`, `CreateDuringPass`);
  otherwise its first message can be deleted under it (`CreateDuringPassLoses`).
- `empty` on a topic moves the head to the tail after it has emptied the lines. The head then passes a
  line exactly when some message pushed since that line began is not finished on it
  (`HeadMoveExactly`, `RunHeadExactly`). That does not happen if nothing is pushed meanwhile
  (`QuietEmpty`) and can happen if something is (`HeadPassesLine`). Nothing is lost by it, but a
  message below the head is never collected.
- A crash after `createTopic` and before the first line is created leaves a store that cannot be
  loaded, whatever other topics there are (`CrashAfterCreateTopic`): creating a topic puts it on the
  index but does not save it. A record left behind by a failed delete does the same to a topic
  created later under its name (`LeftoverStopsLoad`). `CrashLoad` is the exact condition.
- After a crash a line goes back to its last saved state, which forgets nothing it owed
  (`CrashForgetsNothing`), but the messages it goes back to may have been deleted. It can deliver
  all it owes exactly when none at or above it was (`CrashReads`); `CrashStopsLine` is a run of five
  steps after which a line fails on every pop.
- Emptying a topic moves the head without deleting anything. Removing the topic later leaves records
  of it in the store exactly if it was ever emptied while its head was below its tail
  (`RemoveExactly`).
- Names may contain `:`, and then two records can have the same key: message 1 of topic `a` and the
  record of topic `a:1` (`ColonNamesCollide`). `KeysCollideExactly` says when, from the form of the
  names.
- An id from a key with an empty topic part does not lead back to it (`ConfirmFindsPopped`,
  `EmptyTopicPart`). No topic can be created under an empty name, so no successful pop is affected.

## Model

| member | source | states |
|---|---|---|
| `Guarantees.MessageSurvives` | README.md:14 | over every run of the queue, whichever writes fail: a message of a recycling line that was neither confirmed nor emptied is still owed, and the store holds exactly the bytes pushed for it |
| `Guarantees.DeliveriesObeyLaws` | queue/uLine.go:107-281 | over every run the trace of every line obeys the order, redelivery and finality laws, and the deadline of every message in flight is the time of its last delivery plus the recycle time |
| `Guarantees.LowMarksNeverDecrease` | queue/uTopic.go:187-256 | no step lowers the low mark of a line, so the `ending` a pass computes once bounds it to its end |
| `HeadRace.RunHeadExactly` | queue/uTopic.go:504-528 | over every run of a topic, the head never passes a line if and only if, each time the end of `empty` moves it, every message pushed since a line began is finished on that line: confirmed or dropped, or, without recycling, handed out or skipped |
| `HeadRace.HeadMoveExactly` | queue/uTopic.go:516-524 | the same of one move of the head; either way every line can still read all it owes |
| `HeadRace.QuietEmpty` | queue/uTopic.go:504-528 | if nothing is pushed from the emptying of each line until the head is moved, the head passes no line |
| `HeadRace.NextHeadOk` | queue/uTopic.go:187-256 | no other step moves the head past a line |
| `Witnesses.HeadPassesLine` | queue/uTopic.go:504-528 | a concrete run, with a push between the emptying of the line and the move of the head, after which the head is above a message the line has yet to deliver |
| `Guarantees.BatchDrains` | queue/uLine.go:166-243 | once all deadlines have passed, a large enough batch hands out every id owed exactly once: in flight by deadline, then pending in order |
| `Guarantees.PopThenConfirm` | queue/uLine.go:107-281 | what a pop hands out can be confirmed, and that takes away this id and no other |
| `Guarantees.ClientConfirms` | queue/uQueue.go:439-546 | the id string of a successful Pop, given to Confirm, is accepted and marks exactly that message of that line confirmed |
| `Requests.PopAnswers` | queue/uQueue.go:439-471 | for every key that names a topic and a line: Pop succeeds exactly when something is pending or past its deadline, and then hands out the earliest expired message or else the next one, with the bytes pushed for it and a key that Confirm reads as this topic, line and id; each error comes exactly in its case; nothing but that line changes |
| `Requests.PopBadKey` | queue/uQueue.go:440-449 | Pop and MultiPop refuse a key as bad exactly when it is not a topic and a line with a slash between, and then change nothing |
| `Requests.MultiPopAnswers` | queue/uQueue.go:474-510 | the same for a batch: keys and bytes are those of the same messages, in the order of the deliveries recorded, none twice, fewer than asked for only if nothing is left |
| `Requests.ConfirmAnswers` | queue/uQueue.go:513-546 | Confirm accepts exactly the ids in flight on the line named, takes that one out of flight and leaves the deadlines of the others; each error comes exactly in its case and changes nothing |
| `Requests.ConfirmBadKey` | queue/uQueue.go:514-533 | Confirm refuses a key as bad exactly when it is not a topic, a line and a uint64 with slashes between |
| `Requests.MultiConfirmAnswers` | queue/uQueue.go:548-555 | of any list of keys, over any topics, a key is accepted exactly when it names a message in flight that no earlier key names |
| `Requests.MultiConfirmTakes` | queue/uQueue.go:548-555 | afterwards exactly what was in flight and named has been confirmed and is in flight no more |
| `Requests.ClientConfirmsBatch` | queue/uQueue.go:474-555 | the keys of a successful MultiPop on a recycling line, given to MultiConfirm, are all accepted, and exactly the messages of the batch have then been confirmed |
| `Published.RunLog` | queue/uTopic.go:358-402 | over every run the log of a topic is the bodies of the pushes that succeeded since it was created, in order |
| `Published.PushIsStep` | queue/uQueue.go:386-408 | Push by key is a step of the run, and the log grows by the message exactly if it succeeds |
| `Published.MultiPushIsStep` | queue/uQueue.go:411-436 | the same for a batch |
| `Published.PopsWhatWasPushed` | queue/uQueue.go:386-471 | after any run, what Pop hands out as message `id` is the body of push number `id` |
| `Published.PersistAsCreated` | queue/uQueue.go:255-279 | over every run a topic is persistent exactly if it was created so |
| `Published.PersistentKeepsAll` | queue/uTopic.go:273-276 | over every run, whichever writes fail, all that was ever pushed to a topic created as persistent is stored as pushed |
| `Published.NewLineOwes` | queue/uTopic.go:295-322 | a new line owes exactly the ids from 0 to the tail if the topic is persistent, and from the head to the tail if not; it has the recycle time asked for and disturbs no other line |
| `Published.NewLineDelivers` | queue/uTopic.go:295-356 | a batch large enough hands out all of these, in order, with the bytes pushed |
| `Published.NewLineReplays` | queue/uTopic.go:295-356 | over every run of the queue, a line created at any time on a topic that was created as persistent gets by MultiPop everything ever pushed to it; on another topic everything from the head on |
| `QueueProofs.QueueRunInv` | queue/uQueue.go:106-378 | in every run of the queue every topic keeps its invariant and good snapshots, and the saved index names exactly the live topics |
| `QueueProofs.IndexUntouched` | queue/uQueue.go:129-160 | no step of a topic writes the queue index |
| `QueueProofs.RequestsAreSteps` | queue/uQueue.go:439-510 | Pop and MultiPop by key are steps of the run |
| `QueueProofs.ConfirmIsStep` | queue/uQueue.go:513-546 | Confirm by key is a step of the run |
| `QueueProofs.RunRecords` | queue/uTopic.go:52-78 | in a run without failures the saved head, tail and recycle times follow every topic |
| `QueueProofs.RunCloseLoad` | queue/uQueue.go:715-731 | after any run without failures, Close and then load give back every topic and line: head, tail, persist, cursors, in-flight order and deadlines |
| `Lifetime.LifeInv` | queue/uQueue.go:162-253 | over every life of a queue, steps without failures and restarts in any order, every topic keeps its invariant, its history and good snapshots, the index names the live topics and the records follow them |
| `Lifetime.LifeKeepsPromises` | README.md:14 | however many restarts there were, a message of a recycling line that was neither confirmed nor dropped is still owed and stored as pushed, and the laws of delivery hold of the whole trace |
| `Lifetime.RestartSucceeds` | queue/uQueue.go:715-731 | whatever Close wrote, the queue can be loaded from it |
| `Crash.CrashLoad` | queue/uQueue.go:214-253 | after a crash at any point of any run the queue loads with every topic and line, each line owing at least what it owed, if and only if the saved record of each topic is about the topic as it is now: it lists the live lines, and any other name on it will be passed over |
| `Crash.CleanCrashLoad` | queue/uQueue.go:214-253 | in runs that never create a topic under a name whose old record is still there, it loads if and only if every topic has a record |
| `Crash.TopicKeptExactly` | queue/uQueue.go:162-212 | one topic loads with all it owes if and only if its saved record is about it as it is now |
| `Witnesses.LeftoverStopsLoad` | queue/uTopic.go:589-626 | a concrete run with one failed delete in which a topic is removed and created again: every topic has a record and the queue cannot be loaded |
| `Crash.CrashAfterCreateTopic` | queue/uQueue.go:281-313 | after any run, right after a `createTopic` under a name without an old record the whole queue cannot be loaded |
| `Crash.NextSaved` | queue/uTopic.go:52-120 | every step keeps the saved head at or below the live one and a saved topic record listing exactly the lines |
| `Crash.CrashReads` | queue/uTopic.go:130-185 | after a crash at any point of any run, the loaded line can deliver all it owes if and only if the topic is persistent or no message at or above the line was deleted |
| `Crash.FloorIsHead` | queue/uTopic.go:208-256 | in runs that do not empty the topic, what was deleted is what is below the head |
| `Witnesses.CrashStopsLine` | queue/uTopic.go:208-256 | a concrete run after which the loaded line answers every pop with an internal error |
| `Passes.PassCollects` | queue/uTopic.go:208-256 | a call of `clean` that no failure ends deletes from the head on, touching no other record but the saved head, until the quit signal or the time limit stops it; if neither does, the head is then the larger of its old value and the least of the tail and all low marks, and the first message left is owed by a line |
| `Passes.PassInRun` | queue/uTopic.go:208-256 | a pass within any run, anything else happening meanwhile: each of its steps deletes one message; when it has nothing left, the head has reached the end computed at its beginning and every message passed over is gone |
| `Collector.RunFloor` | queue/uTopic.go:225-253 | in every reachable state the last message the collector deleted is not stored |
| `Collector.ReadsExactly` | queue/uTopic.go:187-256 | a line can read everything from its low mark to the tail if and only if it is not below what the collector has deleted |
| `TopicProofs.RunInv` | queue/uTopic.go:187-587 | in every reachable state of a topic, whichever writes fail and however the steps of a pass interleave with pushes, pops, confirms, empties and line removals (a line is not created while a pass has something left to delete): nothing at or above a low mark has been deleted or lies within reach of a pass under way, every id from there to the tail is stored with the bytes pushed for it (all ids, if the topic is persistent), every line is in good order with its history, the saved tail is the tail |
| `TopicProofs.NextInv` | queue/uTopic.go:187-561 | each single step keeps that invariant |
| `TopicProofs.CleanBeginInv` | queue/uTopic.go:187-224 | computing the end of a pass establishes its bound |
| `TopicProofs.CleanStepInv` | queue/uTopic.go:225-253 | deleting one message and moving the head keeps the invariant, also when the delete or the save fails |
| `TopicProofs.PopIsExact` | queue/uTopic.go:404-417 | a pop never misses a read, hands out a pushed id with its bytes, and finds nothing only if nothing is pending and nothing in flight has expired |
| `TopicProofs.MPopIsExact` | queue/uTopic.go:419-432 | each message of a batch was pushed and comes with its bytes; the only failure is that there is none |
| `TopicProofs.MPushIsPushes` | queue/uTopic.go:379-402 | a batch that succeeds equals pushing its messages one by one |
| `TopicProofs.MPushAllOrNothing` | queue/uTopic.go:379-402 | a batch does all of that, or leaves the topic, the readable log and the saved tail as they were |
| `TopicProofs.NextIsLocal` | queue/uTopic.go:30-148 | a step on one topic touches no record another topic owns |
| `Joining.JoinIsSafe` | queue/uTopic.go:295-356 | a line that joins with a start read earlier can read every message it has yet to deliver, after any further steps, if and only if nothing at or above the start was deleted and a pass under way has nothing left to delete at or above it |
| `Joining.JoinReads` | queue/uTopic.go:295-322 | it can read them at the moment it joins if and only if nothing at or above the start was deleted |
| `Joining.CreateDuringPass` | queue/uTopic.go:295-356 | a line created while a pass is under way can always read if and only if the pass has nothing left to delete |
| `Joining.CreateDuringPassLoses` | queue/uTopic.go:225-253 | otherwise the next deletion makes the new line's pops fail |
| `LineProofs.PopInv` | queue/uLine.go:107-164 | a pop keeps a line in good order: in-flight ids distinct and sorted by deadline, `ihead` the smallest of them or the head, `imap` exact on `[ihead, head)` |
| `LineProofs.ConfirmInv` | queue/uLine.go:245-281 | so does a confirm |
| `LineProofs.ConfirmExact` | queue/uLine.go:245-281 | a confirm succeeds on exactly the ids in flight and removes that id and no other |
| `LineProofs.UpdateIheadStops` | queue/uLine.go:91-105 | `updateiHead` stops at the first id still flagged, drops exactly the flags below it and keeps the rest |
| `LineProofs.LowMarkMonotone` | queue/uLine.go:91-105 | pop, confirm and empty never lower the low mark |
| `LineProofs.FrontIsEarliest` | queue/uLine.go:111-131 | looking at the front only is complete: a pop redelivers if and only if some message has expired, and takes an earliest deadline |
| `LineProofs.ScanIsComplete` | queue/uLine.go:174-202 | the scan of mPop takes exactly the first min(n, number expired) |
| `LineProofs.MPopIsRepeatedPop` | queue/uLine.go:166-243 | mPop(n) leaves the line and hands out ids and bodies as n single pops at one instant do |
| `LineHistory.PopTrackedInv` | queue/uLine.go:107-164 | a pop keeps the laws of the history |
| `LineHistory.MPopTrackedInv` | queue/uLine.go:166-243 | so does a batch |
| `LineHistory.ConfirmTrackedInv` | queue/uLine.go:245-281 | so does a confirm |
| `LineHistory.EmptyTrackedInv` | queue/uLine.go:302-320 | so does emptying |
| `LineHistory.ExactlyOnePlace` | queue/uLine.go:107-320 | every id since the start of a recycling line is exactly one of pending, in flight, confirmed or dropped |
| `LineHistory.CountIsOutstanding` | queue/uLine.go:283-300 | the reported count, in wrapping uint64 arithmetic, is the number of ids pending or in flight |
| `LineHistory.FirstDeliveriesIncrease` | queue/uLine.go:107-243 | first deliveries come in increasing id order |
| `LineHistory.NoGaps` | queue/uLine.go:107-320 | no id below the cursor was skipped, except by an `empty` |
| `Snapshots.LineShrinks` | queue/uLine.go:107-320 | what a line owes only shrinks, but for what is pushed |
| `Snapshots.RunSnap` | queue/uTopic.go:130-148 | in every reachable state the saved store of each line, however old, owes all that the line owes |
| `Recovery.FlagsRebuilt` | queue/uTopic.go:168-179 | the flags `loadLine` derives are the live ones on a recycling line |
| `Recovery.LoadTopicRestores` | queue/uQueue.go:162-212 | a closed topic loads back as it was |
| `Recovery.CloseThenLoad` | queue/uQueue.go:214-253 | a closed queue loads back as it was |
| `Recovery.RestoredBehavesSame` | queue/uTopic.go:150-185 | a restored line that differs in unused flags answers every operation as the original would |
| `Recovery.LoadTopicsIff` | queue/uQueue.go:227-247 | the topics on the index load if and only if each of them does |
| `Recovery.LoadLinesIff` | queue/uQueue.go:183-203 | the lines on a topic's record load if and only if none of them lacks a readable store, and those without a recycle time are passed over |
| `Recovery.CrashForgetsNothing` | queue/uTopic.go:150-185 | a line loaded from whatever snapshot a crash leaves is in good order and owes all that the line owed |
| `Faultless.FaultFreeRecords` | queue/uTopic.go:52-78 | without failures each step keeps the saved head, tail and recycle times equal to those of the topic |
| `Faultless.ExportCloses` | queue/uQueue.go:106-127 | what Close writes for a topic is what loading needs |
| `Faultless.RemoveExactly` | queue/uTopic.go:535-626 | after any run without failures, removing the topic leaves none of its records if and only if it was never emptied while its head was below its tail |
| `Faultless.RunLeaks` | queue/uTopic.go:504-528 | in such a run a message below the head is stored if and only if some `empty` moved the head over it |
| `Faultless.RemoveIsLocal` | queue/uTopic.go:589-626 | removing a topic touches no record of anything else |
| `Faultless.EmptyThenRemoveLeaves` | queue/uTopic.go:504-528 | an `empty` and then a `remove` leave exactly the messages below the tail that were stored, those the head was moved over among them |
| `StoreKeys.KeysCollideExactly` | queue/uQueue.go:17-29 | two different keys are one string if and only if a topic name, read as a prefix, a colon and `head`, `tail` or a number, or a line name ending in `:recycle`, names the other record |
| `StoreKeys.MimickedExactly` | queue/uQueue.go:17-29 | the record read off a topic name is the one record with that key |
| `StoreKeys.ReservedExactly` | queue/uQueue.go:17-29 | a topic name is reserved, by its form, if and only if some other record has it for its key |
| `StoreKeys.PlainKeysDistinct` | queue/uQueue.go:17-29 | under names that are not reserved every record has a key of its own |
| `StoreKeys.NoColonIsPlain` | queue/uQueue.go:17-29 | names without `:` and `/`, nonempty and other than the index key, are plain |
| `StoreKeys.ColonNamesCollide` | queue/uTopic.go:30-38 | the key of message 1 of topic `a` is the key of topic `a:1` |
| `StoreKeys.ViewSet` | queue/uQueue.go:70-81 | under plain names a write changes one record and no other |
| `StoreKeys.ViewDel` | queue/uQueue.go:94-104 | so does a delete |
| `Names.JoinSplit` | queue/uQueue.go:440-443 | joining the parts of a key gives the key back |
| `Names.SplitJoin` | queue/uQueue.go:440-443 | splitting joined parts without slashes gives the parts back |
| `Names.MakeIds` | queue/uQueue.go:505-508 | the keys of a batch are the trimmed key, a slash and the number of each message, in the order of the messages |
| `Names.PopKeyExactly` | queue/uQueue.go:440-452 | Pop reads a topic and a line exactly when the trimmed key is the two with a slash between |
| `Names.PopKeyForms` | queue/uQueue.go:440-452 | names that are not empty are read from exactly four keys: with or without a slash at either end |
| `Names.ConfirmKeyExactly` | queue/uQueue.go:514-533 | Confirm reads a topic, a line and a number exactly when the trimmed key is the three with slashes between |
| `Names.ConfirmFindsPopped` | queue/uQueue.go:439-546 | for every key Pop accepts and every uint64, the id string parses back to the same topic, line and number if and only if the topic part is not empty |
| `Names.EmptyTopicPart` | queue/uQueue.go:439-546 | the key `//b` is accepted by Pop and its ids are refused by Confirm |
| `Decimal.FormatInjective` | utils/strings.go:30-33 | different numbers print differently |
| `Decimal.ParseFormat` | queue/uQueue.go:526-532 | parsing a printed number gives it back exactly when it fits a uint64 |
| `Decimal.ValueFormat` | utils/strings.go:30-33 | every decimal text without leading zeros is the text of its value |
| `Decimal.AtoiItoa` | utils/strings.go:22-27 | printing and parsing is the identity on machine integers |
| `Decimal.InitTable` | utils/strings.go:14-19 | the table holds the decimal text of each small number |
| `Decimal.ItoaQuick` | utils/strings.go:22-27 | the table changes no answer |
| `Wire.VarintLength` | queue/uq.pb.go:236-244 | a uint64 takes one to ten bytes |
| `Wire.VarintRoundTrip` | queue/uq.pb.go:236-244 | reading what was written gives back the value and leaves what follows |
| `Wire.InflightRoundTrip` | queue/uq.pb.go:152-177 | any uint64 tid and int64 exptime, negative ones included, round trip |
| `Wire.LineRoundTrip` | queue/uq.pb.go:179-216 | any line store with any list of in-flight messages round trips |
| `Wire.TopicRoundTrip` | queue/uq.pb.go:108-150 | any topic store round trips |
| `Wire.QueueRoundTrip` | queue/uq.pb.go:72-106 | any queue store round trips |
| `Wire.Uint64RoundTrip` | queue/uTopic.go:52-78 | the saved head and tail round trip |
| `WireBuffers.Sov` | queue/uq.pb.go:304-313 | the loop counts exactly the bytes of the varint |
| `WireBuffers.InflightSize` | queue/uq.pb.go:276-285 | `Size` is the length of the encoding |
| `WireBuffers.LineSize` | queue/uq.pb.go:287-302 | the same, nested messages included |
| `WireBuffers.NamesSize` | queue/uq.pb.go:245-274 | the same for lists of names |
| `WireBuffers.EncodeVarint` | queue/uq.pb.go:236-244 | writes exactly the varint at the offset, in bounds, and nothing else |
| `WireBuffers.InflightMarshalTo` | queue/uq.pb.go:162-177 | fills its part of the buffer with the encoding |
| `WireBuffers.LineMarshalTo` | queue/uq.pb.go:189-216 | fills a buffer of exactly the computed size with the encoding |
| `WireBuffers.NamesMarshalTo` | queue/uq.pb.go:82-150 | writes the names one after the other |
| `WireBuffers.LineMarshal` | queue/uq.pb.go:179-216 | allocates by `Size` and returns the encoding |
| `WireBuffers.TopicMarshal` | queue/uq.pb.go:108-150 | the same for a topic |
| `WireBuffers.QueueMarshal` | queue/uq.pb.go:72-106 | the same for the queue |
| `WireBuffers.DecodeVarint` | queue/uq.pb.go:317-340 | the loop reads what the decoding function reads, 64-bit wrap included |
| `WireBuffers.InflightUnmarshal` | queue/uq.pb.go:481-567 | the decoding loop equals the decoding function, errors included |
| `WireBuffers.LineUnmarshal` | queue/uq.pb.go:568-682 | the same for a line |
| `WireBuffers.TopicUnmarshal` | queue/uq.pb.go:388-480 | the same for a topic, with its required field |
| `WireBuffers.QueueUnmarshal` | queue/uq.pb.go:317-387 | the same for the queue |
| `Resp.ReadPrinted` | entry/redisCommand.go:109-166 | a printed command, with any bytes in its arguments and any bytes after it, reads back as itself and leaves exactly those; `parseCommand` agrees |
| `Resp.PipelineRoundTrip` | entry/redisSession.go:149-188 | any list of printed commands followed by any suffix reads back as that list and leaves the suffix |
| `Resp.PrintAllInjective` | entry/redisCommand.go:109-124 | different pipelines, of any lengths, are printed differently |
| `RespSession.PrintBytes` | entry/redisCommand.go:109-124 | the loop prints the command |
| `RespSession.Session.SkipByte` | entry/redisSession.go:312-322 | takes one byte, right or wrong |
| `RespSession.Session.SkipBytes` | entry/redisSession.go:324-332 | stops at the first wrong byte |
| `RespSession.Session.ReadLine` | entry/redisSession.go:334-347 | the line without its last two bytes, whatever they are; too long a line, the end of input, and the panic on a lone line feed |
| `RespSession.Session.ReadInt` | entry/redisSession.go:358-365 | the number on the line, or an error |
| `RespSession.Session.ReadCommand` | entry/redisSession.go:149-188 | the loop equals the reading function in result and in what it leaves, on every stream |
| `RespSession.Buffer.ParseCommand` | entry/redisCommand.go:126-166 | the loop equals the parsing function on every buffer, ignored number errors and missing errors included |
| `Store.Storage.Set` | store/memStore.go:24-30 | writes one key, or fails and changes nothing |
| `Store.Storage.Get` | store/memStore.go:33-42 | what is stored, or that there is nothing |
| `Store.Storage.Del` | store/memStore.go:45-56 | deletes one key, or fails and changes nothing |
| `Store.Storage.SetData` | queue/uQueue.go:70-80 | writes one key, whatever it is, or fails and changes nothing |
| `Store.Storage.GetData` | queue/uQueue.go:82-92 | what is stored under the key, or that there is nothing |
| `Store.Storage.DelData` | queue/uQueue.go:94-104 | deletes one key, whatever it is, or fails and changes nothing |
| `Engine.Line.UpdateIhead` | queue/uLine.go:91-105 | the loop, with measure `head - ihead`, equals the function |
| `Engine.Line.Pop` | queue/uLine.go:107-164 | result and new line are those of `LineSpec.Pop`; a delivery is recorded |
| `Engine.Line.ScanExpired` | queue/uLine.go:174-190 | the scan finds the expired front and reads it, or reports a failed read |
| `Engine.Line.RotateFront` | queue/uLine.go:191-198 | the loop moves the front to the back with new deadlines |
| `Engine.Line.MPop` | queue/uLine.go:166-243 | result and new line are those of `LineSpec.MPop` |
| `Engine.Line.Confirm` | queue/uLine.go:245-281 | result and new line are those of `LineSpec.Confirm`; the confirmation is recorded |
| `Engine.Line.StatCount` | queue/uLine.go:283-300 | computed in wrapping uint64 arithmetic, the count is the number of messages the line owes |
| `Engine.Line.ExportLine` | queue/uLine.go:59-78 | saves exactly the encoding of the line |
| `Engine.Line.Empty` | queue/uLine.go:302-320 | drops all that is pending or in flight and saves the line |
| `Engine.Topic.Push` | queue/uTopic.go:358-377 | the message and the tail are saved and become visible, or the log stays as it was |
| `Engine.Topic.MPush` | queue/uTopic.go:379-402 | the batch becomes visible, or only unreadable bytes above the tail were written |
| `Engine.Topic.Pop` | queue/uTopic.go:404-417 | a step of the one line named, or an error and no change |
| `Engine.Topic.MPop` | queue/uTopic.go:419-432 | the same for a batch |
| `Engine.Topic.Confirm` | queue/uTopic.go:434-447 | the same for a confirm |
| `Engine.Topic.ExportTopic` | queue/uTopic.go:88-120 | saves a record that lists each line once |
| `Engine.Topic.NewLine` | queue/uTopic.go:295-322 | the line starts at the head, or at zero if the topic is persistent, and is saved |
| `Engine.Topic.CreateLine` | queue/uTopic.go:324-356 | the line joins and all its records are saved, or the topic stays as it was |
| `Engine.Topic.RemoveLine` | queue/uTopic.go:535-561 | the line leaves and its records go as far as the store allows, or nothing changes |
| `Engine.Topic.EmptyLine` | queue/uTopic.go:489-502 | the line named is emptied and saved |
| `Engine.Topic.SaveLines` | queue/uTopic.go:130-148 | every line that can be saved is saved, and nothing else is written |
| `Engine.Topic.Empty` | queue/uTopic.go:504-528 | the lines are emptied one by one and then the head moves to the tail; where it stops when a save fails |
| `Engine.Topic.GetEnd` | queue/uTopic.go:187-206 | the head if there are no lines, else the least of the tail and all low marks |
| `Engine.Topic.CleanOne` | queue/uTopic.go:240-252 | one deletion is one step of a pass |
| `Engine.Topic.CleanUpTo` | queue/uTopic.go:224-253 | the loop deletes until a failure, the signal or the time stops it or it has nothing left; the result tells whether it was the signal |
| `Engine.Topic.Clean` | queue/uTopic.go:208-256 | a call is a pass up to the least of the tail and all low marks; if no failure ends it, exactly the messages up to the round that stops it are gone; on a reliable store, for a topic in good order, none does |
| `Engine.Topic.DropLines` | queue/uTopic.go:563-575 | both records of every line go, and no line is left |
| `Engine.Topic.DropMessages` | queue/uTopic.go:577-587 | every message from the head to the tail goes, and nothing else |
| `Engine.Topic.Remove` | queue/uTopic.go:589-626 | only the topic's own records go; with a reliable store exactly those of its lines, its messages and itself |
| `Queue.UnitedQueue.ExportQueue` | queue/uQueue.go:129-160 | saves an index that lists each topic once |
| `Queue.UnitedQueue.Close` | queue/uQueue.go:106-127 | with a reliable store every topic and line has been saved and nothing else was written |
| `Queue.UnitedQueue.NewTopic` | queue/uQueue.go:255-279 | an empty topic whose head and tail are saved |
| `Queue.UnitedQueue.CreateTopic` | queue/uQueue.go:281-313 | the topic joins the map and the index; or, on an error, no topic changes and at most its own three records differ |
| `Queue.UnitedQueue.RemoveTopic` | queue/uQueue.go:644-668 | the topic leaves the map, the index and the store; or nothing changes |
| `Queue.UnitedQueue.Push` | queue/uQueue.go:386-408 | a message without content or a topic that is not there is refused; otherwise it is the step of that topic, and on a reliable store it succeeds |
| `Queue.UnitedQueue.MultiPush` | queue/uQueue.go:411-436 | the same for a batch, refused as a whole if one message has no content |
| `Queue.UnitedQueue.Pop` | queue/uQueue.go:439-471 | the step of the line the key names and the id string of the message, or the error for a bad key, topic or line |
| `Queue.UnitedQueue.MultiPop` | queue/uQueue.go:474-510 | the same for a batch |
| `Queue.UnitedQueue.Confirm` | queue/uQueue.go:513-546 | the same for a confirm |
| `Queue.UnitedQueue.MultiConfirm` | queue/uQueue.go:548-555 | the loop answers each key as Confirm does after the keys before it |
| `Loader.RebuildFlags` | queue/uTopic.go:168-179 | the two loops derive false on `[ihead, head)` and true on what is in flight |
| `Loader.LoadLine` | queue/uTopic.go:150-185 | from any store, under any names: loads a line, skips it without a readable recycle time, or stops the load |
| `Loader.LoadTopic` | queue/uQueue.go:162-212 | from any store: loads a topic with its lines, or reports that the load stops |
| `Loader.LoadQueue` | queue/uQueue.go:214-253 | from any store: loads every topic on the index, nothing if there is no index, or stops at the first topic that fails |
| `Loader.RawQueue` | queue/uQueue.go:214-253 | under plain names this is loading from the records, of which the theorems on Close and crashes speak |

## Left out

- Engine.Topic.Push: ids are unbounded; a topic that has pushed 2^64 messages, where the source wraps, is not modelled. Statements that depend on it ask for a tail below 2^64.
- Engine.Topic.CreateLine: when the topic cannot be saved the source takes `linesLock` while it holds it and stops there; the model does the roll-back that is written after it.
- Engine.Topic.RemoveLine: the same, with the write lock taken under the read lock.
- Engine.Topic.NewLine: the text of a `time.Duration` is modelled as a decimal number of nanoseconds; only that printing and parsing it loses nothing is used.
- Engine.Topic.Clean: what each round sees of the quit signal and of the clock is given to it as a list; where they come from is not modelled.
- Loader.LoadQueue: loading yields the fields of the topics and lines as values; the objects, their locks and goroutines are not built.
- Loader.LoadTopic: the same; a saved head or tail shorter than eight bytes, on which the source panics, stops the load.
- WireBuffers.InflightUnmarshal: an unknown field is an error; the source skips it and keeps its bytes.
- WireBuffers.LineUnmarshal: the same; and a length whose sum with the position overflows an int, on which the source panics, is an error.
- WireBuffers.TopicUnmarshal: the same; and a name length of 2^63 or more, which the source compares as unsigned and so panics on, is an error.
- WireBuffers.QueueUnmarshal: the same.
- Wire.LineRoundTrip: bytes of unknown fields carried along from an earlier decode are not modelled, here and in the other round trips.
- RespSession.Session.ReadCommand: running out of memory on a huge count is not modelled; a panic is an error result.
- RespSession.Buffer.ParseCommand: the same.
- Queue.UnitedQueue.CreateTopic: takes plain names, ones that are not reserved, as do the classes throughout; `PlainTopic` decides it from the form of the name, and every name without `:` or `/` is plain. That the name is still free when the topic joins is assumed: the source gives up its lock in between.
- Engine.Line.Empty: one reading of the tail serves for `head` and `ihead`; the source reads it twice, and a push in between leaves `ihead` one below `head` with nothing in flight.
- Locks and goroutines: that an operation is one atomic step is assumed, except for `clean` and the end of `empty`; the locks of the source do not always make it one.
- Create, remove, empty and stat by key: their parsing is that of Pop with other counts of parts.
- The HTTP and memcached entries, the replies of the Redis entry and its other commands, etcd registration, statistics, administration, and the goleveldb and rocksdb bindings.
