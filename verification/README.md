# wavelog-relay: verified model

wavelog-relay bridges a radio (through rigctld) and WSJT-X to a Wavelog logbook. This project models
its stateful core in Dafny and proves what that core promises, over every run and every input.

**The spool.** Every logged QSO is kept in a JSONL file until Wavelog has answered for it.
`EntryJson` is the line codec, `SpoolFile` the text of the file and its recovery parser,
`FileSystem` the file operations and what a crash may leave of them, `Spool` the spool as a state
machine with a crash between any two file operations, and `QsoQueue` the queue object itself, whose
methods are proved to carry out the plans the machine is made of. `SpoolNumbers` and `SpoolFaults`
follow the sequence numbers and the promised entries through arbitrary file errors, and `SpoolBytes`
carries crash recovery over from characters to bytes.

**The delivery pipeline.** `Delivery` is the listener task, the POST worker, the channel between them
and the spool they share, as one state machine. `Conservation` proves what every run keeps,
`ReplayProgress` that a replay and any new arrival always drain, and `WavelogClient` which HTTP
outcomes are final.

**The rigctld actor.** `Rigctld` is the untagged line protocol as conversations on a stream,
`RigTranscript` the events that can be seen of it and the transcripts each command may leave,
`RigJournal` the runs of the actor and what they promise, `RigActor` the connection and the actor
themselves, which record every event and are proved to be such runs, `RigHealth` the health state
and the poller's cadence.

**Parsers and the radio worker.** `Utf8` and `WsjtxProtocol` are the datagram parser, `Adif` the
field scanner, `Poller` the dedupe worker. `Text` holds number and white-space handling.

## What was found

- **An append in place behind an unfinished line is lost.** `append` writes the line and its newline
  separately, and `open` accepts a complete last line without one. The next append in place is then
  glued to it, and both entries are lost at the next restart although the append returned Ok. A
  failed append that stored a part of its line has the same effect. One more append, and the
  restart sets the whole spool aside as corrupt. `Spool.AcceptedAppendIsLost` is a run of this, from
  every ready state and without any file error, and `Spool.RunThatLosesAll` the one from an empty
  disk. `Spool.PlainAppendKeepsAllIffTerminated` gives the
  exact condition: nothing is lost if and only if the file is empty or ends in a newline. The crash
  theorems are stated for runs in which every append in place meets that condition (`Spool.Safe`);
  `Spool.RunWithoutUnfinishedLineIsSafe` shows that it fails only through a file error or a crash at
  that one cut. Any rewrite (a removal, an eviction) heals the file: `Spool.CallsLeaveFileTerminated`.
- **A crash inside a character makes the whole spool unreadable.** An ADIF is written as it is, and
  `open` reads the file as UTF-8 in one piece. If a crash cuts an append in place inside a character,
  the read fails, `open` returns an error, and the program does not start (src/main.rs:168-175) until
  the file is repaired by hand; the old entries are all still in it. `SpoolBytes.RecoveryAtEveryByte`
  has the condition on the cut, `SpoolBytes.CrashBytesRecover` shows that no other crash of a sound
  spool has this effect, and `SpoolBytes.UnreadableCutIffNotAscii` that an append can meet it if and
  only if its ADIF has a character outside ASCII. The parser's own repair of a torn last line never
  gets to see such a file.
- **An append behind a failed directory sync can be lost.** A rewrite that fails at the sync of the
  directory has already renamed the file. The next append in place syncs the new file only and returns
  Ok, but a crash may still bring the old file back. `SpoolFaults.AppendBehindFailedSyncIsLost` is such
  a run, and `SpoolFaults.AppendIsKeptIffAppendable` the exact condition on the file in front of an
  append: terminated, and no older file that a crash could bring back. Under that condition
  `SpoolFaults.PromisesAreKept` proves conservation on every run, file errors included.
- **A drain that times out puts the rigctld stream out of step.** Behind an empty mode line the actor
  reads the passband line and ignores an error of that read. If it times out, the connection is
  kept, and the late line becomes the reply to the next command. `Rigctld.CommandStaysInSync` has
  the exact condition, `Rigctld.DrainTimeoutMisattributes` the example: `get_freq` returns the
  passband.
- The header comment of `src/qso_queue.rs` (lines 40-43) says that memory is updated after the disk.
  The code does it first; the model follows the code (`QsoQueue.QsoQueue.Append`).
- **A length that ends inside a character ends the process.** The log-line scanner slices the ADIF
  by declared lengths, which count bytes. If one ends inside a UTF-8 character, the slice panics, and
  the release profile aborts on a panic (`Cargo.toml`, line 42). The listener scans a received ADIF
  before it appends it (src/wsjtx/mod.rs:147), so that QSO is not persisted. `Adif.PanicsIffLengthSplits`
  has the exact condition, `Adif.SplitCharacterPanics` the inputs: `<CALL:1>` in front of any
  character outside ASCII. In the pipeline this is one more place for `Delivery.Event.Crash`.
- Latent only: a change of the shutdown watch that does not mean shutdown would make the replay loop
  drop the entry it is sending, for this process run; it stays on the spool.
  `Delivery.ReplaySkipsIffFalseWake` shows that nothing else drops one while the listener goes on.
  The program never makes such a change: its one send on this watch is `true` (src/main.rs:205).

## Assumptions

- A crash keeps any prefix of the bytes that were not synced; a rename is all or nothing, and until
  the directory is synced a crash may bring the old file back. A file that was created stays. The
  spool path names a parent directory. One process owns the file.
- In the spool's state machine file contents are characters. `SpoolBytes.ReadableCrashes` shows that
  these crashes are exactly the crashes between any two bytes whose file can be read; on the others the
  program does not start.
- rigctld's reply lines arrive whole and are read as it sent them. The claims that an answer is the
  command's own are for a rigctld that answers `m` with two lines or one `RPRT` line, and every other
  command with one line; all other claims are for any peer.
- Sequence numbers and times are unbounded naturals. RFPOWER readings are reals.

Operations that fail, crash, or take time are nondeterministic choices (`if *`, events, or a
parameter that says what each attempt would yield).

## Model

| member | source | states |
|---|---|---|
| EntryJson.LineRoundTrip | src/qso_queue.rs:76-81 | every entry decodes from its encoded line, whatever its numbers and text |
| EntryJson.LineIsPrintable | src/qso_queue.rs:225-232 | no control character, hence no line break, occurs in an encoded line |
| EntryJson.ObjectExtends | src/qso_queue.rs:322-323 | a parse never depends on what stands behind the text it consumed |
| EntryJson.ProperPrefixFails | src/qso_queue.rs:324-334 | no proper prefix of an encoded line decodes |
| EntryJson.GluedLinesFail | src/qso_queue.rs:231-232 | two encoded lines without a newline between them do not decode |
| EntryJson.ScarFails | src/qso_queue.rs:322-335 | a line with the start of another entry inside it never decodes |
| EntryJson.PlainTextIsVerbatim | src/qso_queue.rs:226 | text without control characters, quotes and backslashes stands in the line as it is, whatever its alphabet |
| EntryJson.EscapesRead | src/qso_queue.rs:322-323 | the eight short escapes of JSON read as their characters, and no other letter does |
| EntryJson.UnicodeEscapeReads | src/qso_queue.rs:322-323 | every `\u` escape reads as its code unit, and half of a surrogate pair alone as none |
| EntryJson.SurrogatePairReads | src/qso_queue.rs:322-323 | every character above U+FFFF reads from its surrogate pair |
| EntryJson.SpaceIsSkipped | src/qso_queue.rs:322-323 | spaces, tabs and line ends in front of a token are skipped |
| EntryJson.NotJson | src/qso_queue.rs:322-335 | signs, leading zeros and raw control characters are refused |
| EntryJson.BehindLine | src/qso_queue.rs:322-323 | white space behind an encoded line does no harm, and anything else behind it makes it no entry |
| SpoolFile.ParseEntries | src/qso_queue.rs:312-342 | the loop over non-blank lines: all decode, or the last is dropped, or the file is corrupt |
| SpoolFile.CorruptIffBadLine | src/qso_queue.rs:312-342 | a file is corrupt if and only if a non-blank line in front of the last does not decode; otherwise its entries are those lines in order, and exactly a bad last line is dropped |
| SpoolFile.LinesRead | src/qso_queue.rs:313 | lines end at a newline with or without a carriage return, and the last one may have no end |
| SpoolFile.BlankLinesDoNotCount | src/qso_queue.rs:313 | blank lines are passed over wherever they stand, and no other line is |
| SpoolFile.FileRoundTrip | src/qso_queue.rs:267-276 | a rewritten file parses to exactly the list it was written from, with nothing dropped |
| SpoolFile.RecoveryAtEveryCut | src/qso_queue.rs:146-182 | for cuts between characters, whole lines and any prefix of one more line and newline replay the old list, or the old list and the new entry once its line is complete |
| FileSystem.AppendImages | src/qso_queue.rs:226-235 | a crash at any point of an append leaves the old text and a prefix of the line, all of it after the sync |
| FileSystem.EveryCutHappens | src/qso_queue.rs:226-235 | conversely, every prefix of the line and its newline is left by some crash before the sync |
| FileSystem.RewriteImages | src/qso_queue.rs:278-296 | a crash at any point of a rewrite leaves the old file or the whole new one, the new one after the directory sync |
| Spool.OpenRecovers | src/qso_queue.rs:146-176 | opening a stored or torn file replays its list, and plans a rewrite exactly for the torn one |
| Spool.OpenRepairsAllButOneCut | src/qso_queue.rs:146-176 | whatever cut of an append it finds, open leaves a terminated file that replays the same list, except for the complete line without its newline |
| Spool.CrashDuringAppend | src/qso_queue.rs:222-236 | a crash during an append in place to a terminated file leaves the list before or after it, and the list after it once the call is done |
| Spool.CrashDuringRewrite | src/qso_queue.rs:267-298 | the same for a rewrite |
| Spool.PlainAppendKeepsAllIffTerminated | src/qso_queue.rs:226-235 | an append in place to a file holding a list, torn or not, keeps every entry if and only if the file is empty or ends in a newline; behind a torn line the new entry is lost, behind a complete one the last old entry too |
| Spool.AcceptedAppendIsLost | src/qso_queue.rs:146-176 | from every ready state with a terminated file and room for two entries, some run without file errors has an append return Ok whose entry, and the one before it, no restart replays |
| Spool.RunThatLosesAll | src/qso_queue.rs:226-235 | the same as one run from an empty disk: two entries in memory, the second append returned, nothing replayed |
| Spool.AppendBehindCutIsLost | src/qso_queue.rs:226-235 | a successful append behind any cut line is lost at the next restart |
| Spool.AppendBehindGluedLineLosesAll | src/qso_queue.rs:162-171 | one more line behind a glued one, and the restart replays nothing and renames the file aside |
| Spool.FinishIsSound | src/qso_queue.rs:198-254 | when a call returns, its list is on disk, nothing is pending, and disk decoding equals memory |
| Spool.CrashRecovers | src/qso_queue.rs:137-298 | whatever a crash leaves of a sound state, a restart replays exactly the list before or after the interrupted call |
| Spool.CapIsThousand | src/qso_queue.rs:209-213 | the cap keeps a list of up to 1000 entries whole, and the last 1000 of a longer one |
| Spool.StepRefinesList | src/qso_queue.rs:137-254 | refinement of a list under crashes: append means the last 1000 of the old list and the new entry, remove means all but that number, and the promised list changes only when a call returns or is cut off |
| Spool.RunRecovers | src/qso_queue.rs:137-298 | crash safety in every state of every safe run, with any number of crashes and restarts |
| Spool.CallsLeaveFileTerminated | src/qso_queue.rs:222-236 | every call that rewrites or appends leaves a terminated file, so a rewrite heals an unfinished line |
| Spool.NumbersContinue | src/qso_queue.rs:176 | after a restart numbers continue right behind the largest in the file, or at 1 |
| Spool.RunWithoutUnfinishedLineIsSafe | src/qso_queue.rs:226-235 | without file errors, and without a crash that leaves a complete line without newline, every append in place is safe |
| SpoolBytes.RecoveryAtEveryByte | src/qso_queue.rs:146-182 | whole lines and the first bytes of one more line can be read if and only if no character is cut, and then replay the old list, or the old list and the new entry once its line is complete |
| SpoolBytes.ReadableCrashes | src/qso_queue.rs:146 | the crashes between bytes whose file can be read are exactly the crashes between characters |
| SpoolBytes.CrashBytesRecover | src/qso_queue.rs:137-298 | whatever bytes a crash leaves of a sound state, the file is unreadable exactly if an append in place was cut inside a character; otherwise a restart replays the list before or after the interrupted call |
| SpoolBytes.RunRecoversBytes | src/qso_queue.rs:137-298 | the same in every state of every safe run |
| SpoolBytes.UnreadableCutIffNotAscii | src/qso_queue.rs:226-235 | an append in place can be cut to an unreadable file if and only if its ADIF has a character outside ASCII |
| SpoolFaults.PromisesAreKept | src/qso_queue.rs:137-298 | conservation under file errors: if every append in place met a terminated file that no crash could replace by an older one, every entry whose append returned Ok and that was not removed or evicted since is in memory and in whatever a crash leaves |
| SpoolFaults.PromisesEndJustly | src/qso_queue.rs:209-254 | a promised entry is given up only by the remove of its number, or by an append to a full spool that drops it |
| SpoolFaults.AppendIsKeptIffAppendable | src/qso_queue.rs:226-235 | a completed append in place is replayed from whatever a crash leaves if and only if the file was terminated and no older file could come back |
| SpoolFaults.AppendBehindFailedSyncIsLost | src/qso_queue.rs:290-296 | from every sound state with an entry to remove, a failed directory sync and an append that returns Ok lead to a crash that brings back the old list |
| QsoQueue.Disk.Perform | src/qso_queue.rs:226-235 | one file operation, recorded as done or failed; a failed write may have stored a part |
| QsoQueue.RewriteTo | src/qso_queue.rs:267-298 | on Ok the record grows by exactly the five operations of the plan, all done; on error by a prefix of them and the one that failed |
| QsoQueue.AppendTo | src/qso_queue.rs:225-235 | the same for the four operations of an append in place |
| QsoQueue.QsoQueue.Open | src/qso_queue.rs:137-193 | replays what the file recovers to, continues behind its largest number, and is a run of the open call of the spool machine; it fails if and only if its read or an operation was seen to fail |
| QsoQueue.QsoQueue.Append | src/qso_queue.rs:198-238 | memory gains the entry and drops the oldest beyond the cap in any case; the object goes through a run of the append call, to its end on Ok, up to the operation that failed on error; it fails if and only if an operation was seen to fail |
| QsoQueue.QsoQueue.Remove | src/qso_queue.rs:246-254 | memory loses exactly the entries of that number; the object goes through a run of the remove call, with no operation at all if there was none; it fails if and only if an operation was seen to fail |
| Spool.CallEnds | src/qso_queue.rs:198-298 | a plan carried out to its end is the steps of a machine call that returns, and a plan given up those of one that meets a fault |
| SpoolNumbers.TameRecovers | src/qso_queue.rs:312-342 | any file made of cuts of lines with increasing numbers replays increasing numbers, glued and torn lines included |
| SpoolNumbers.RunKeepsNumbers | src/qso_queue.rs:176-214 | on every run, with any crashes and file errors, numbers in memory strictly increase and stay below the next one |
| WavelogClient.WithRetries | src/wavelog/client.rs:228-261 | at most three attempts, the first one that is no missing response and no code of 500 or more, 0, 1 and 5 seconds slept, and always an error to return at the end |
| WavelogClient.PostQso | src/wavelog/client.rs:147-188 | another POST follows a reply if and only if there was none or its code is 500 or more |
| WavelogClient.Push | src/wsjtx/mod.rs:248-255 | resolves the station with retries of its own, and posts with retries only if that succeeded |
| WavelogClient.ResolvesIffActive | src/wavelog/client.rs:192-222 | a lookup resolves to a station if and only if some 2xx reply has it as its first active one, behind nothing but missing replies and codes of 500 or more |
| WavelogClient.FirstActiveIs | src/wavelog/client.rs:213-217 | the station is the first one flagged active |
| WavelogClient.RejectionReason | src/wavelog/client.rs:179-187 | a rejection carries the reason Wavelog gives, or else its status |
| WavelogClient.LookupErrorIsNotFinal | src/wavelog/client.rs:192-222 | no station lookup fails with an error that permits removal |
| WavelogClient.FinalIffAnswered | src/wavelog/client.rs:165-188 | a push is final if and only if the station resolved and some POST got a parseable 2xx answer behind nothing but missing replies and codes of 500 or more |
| WavelogClient.OkIffCreated | src/wavelog/client.rs:147-188 | a push succeeds if and only if the station resolved and the first such answer has the status `created` |
| Delivery.RunKeepsInv | src/wsjtx/mod.rs:95-243 | on every run: the channel within capacity, everything on its way in strictly increasing order below the next number, and every held item either the spool's QSO of its number or gone from the spool |
| Delivery.ReplaySkipsIffFalseWake | src/wsjtx/mod.rs:117-132 | while the listener goes on, a replay entry is dropped unsent exactly at a change of the shutdown watch that does not mean shutdown |
| Conservation.NothingAcceptedIsLost | src/wsjtx/mod.rs:115-185 | conservation: wherever a crash comes, what the next start replays balances the books, without the call in progress or with it; so every QSO whose append returned Ok is replayed, or was taken off by the worker, or evicted by the cap |
| Conservation.PromisesAreKept | src/wsjtx/mod.rs:156-172 | the same under file errors, entry by entry: on every pipeline run in which every append in place met such a file, whatever a crash leaves replays every entry whose append returned Ok and that was not removed or evicted since |
| Conservation.RemovalsAreAnswered | src/wsjtx/mod.rs:257-313 | text by text, removals never outnumber final answers, where pushing a QSO again after a crash counts as another answer |
| Conservation.RemovalHasOwnAnswer | src/wsjtx/mod.rs:248-313 | on every run, every removal has a final answer of its own: to a push of that very item, with no other removal between the two |
| Conservation.RemovalIsJustified | src/wsjtx/mod.rs:248-303 | on every run, an item about to be removed is the one whose push got a parseable 2xx answer with a resolved station, and the worker has done nothing else since |
| Conservation.RemoveDeletesOnlyItsQso | src/wsjtx/mod.rs:306-313 | on every run, a removal takes nothing but the QSO the worker holds, and nothing at all if its number is gone |
| Conservation.HeldItemsAreOwn | src/wsjtx/mod.rs:85-93 | on every run, an item queued or in hand is the spool's QSO of that number if there is one, before and after a call in progress |
| Conservation.HandOffInOrder | src/wsjtx/mod.rs:115-185 | on every run, the worker takes strictly increasing numbers within a process run, so none twice; the channel never exceeds 32 |
| Conservation.ReplayBeforeArrivals | src/wsjtx/mod.rs:115-132 | in every process run, what the worker takes was on the spool when it was opened or was appended since, and all of the former come before any of the latter |
| Conservation.ArrivalsReachWorker | src/wsjtx/mod.rs:156-185 | in every process run, a QSO whose append returned is in the listener's hand, in the channel, or taken by the worker ever after, unless its hand-off met a channel of 32 or a worker that was gone |
| Conservation.HandOffPutsLast | src/wsjtx/mod.rs:174-184 | a QSO goes last into a channel with fewer than 32 items; a full one drops it and the listener receives on; a worker that is gone stops the listener |
| Conservation.AppendIsOfDatagram | src/wsjtx/mod.rs:143-160 | on every run, what is appended is the text of the last datagram |
| Conservation.AppendEntryIs | src/wsjtx/mod.rs:156-160 | the entry appended has the next number, the text of the datagram and the time of its arrival |
| Conservation.TasksStopIff | src/wsjtx/mod.rs:115-243 | the listener stops exactly at a shutdown or when it finds the worker gone, the worker exactly at a shutdown or when the listener is gone and the channel empty |
| Conservation.TasksGoOn | src/wsjtx/mod.rs:160-172 | a file error gives its task back, and a push without a final answer leaves its QSO on the spool and the worker waiting |
| Conservation.EvictionNeedsFullSpool | src/qso_queue.rs:209-220 | an append evicts only from a spool of at least 1000 entries |
| Conservation.RunWithoutUnfinishedLineIsSafe | src/wsjtx/mod.rs:156-172 | the conservation theorem applies to every pipeline run without file errors and without a crash at the newline cut |
| ReplayProgress.SafeRunStarts | src/wsjtx/mod.rs:72-83 | every start in a safe run hands the whole recovered list over as replay |
| ReplayProgress.StepDrains | src/wsjtx/mod.rs:115-185 | every step of a draining pipeline, appends and hand-offs with room included, decreases a measure over replay, arrival, channel and the item in hand |
| ReplayProgress.NeverStuck | src/wsjtx/mod.rs:215-242 | while anything is left to push, some task can move, also with a replay longer than the channel |
| ReplayProgress.ReplayDrainsSpool | src/wsjtx/mod.rs:115-132 | every such run has at most twelve steps per entry and one more, and where it cannot go on the spool is empty in memory and on disk |
| ReplayProgress.ArrivalDrains | src/wsjtx/mod.rs:143-185 | the same for a datagram just received: a bounded number of steps, and where they cannot go on the worker has taken this QSO and the spool is empty |
| ReplayProgress.DatagramIsUnderWay | src/wsjtx/mod.rs:135-160 | a pipeline under way that is receiving takes any datagram |
| Text.NumbersRead | src/rigctld.rs:556-558 | decimals, with a plus sign or a zero in front, read as their number up to the limit and not beyond |
| Text.OnlyDigitsRead | src/rigctld.rs:556-558 | nothing reads as a number that has another character, or no digit at all |
| Text.SignedNumbersRead | src/rigctld.rs:537-540 | signed 32-bit numbers read up to both limits, and nothing behind two signs |
| Text.FirstTokenIs | src/rigctld.rs:567 | the first token is the whole first run without white space |
| Text.AsciiWhitespace | src/rigctld.rs:567 | the white space among the ASCII characters |
| Text.UnicodeWhitespace | src/rigctld.rs:567 | the white space among all others |
| Rigctld.RprtMeansItsCode | src/rigctld.rs:537-548 | an `RPRT` line means its signed 32-bit code to every command, and only zero acknowledges a setting |
| Rigctld.RprtReads | src/rigctld.rs:537-540 | an error line may have white space around its code; without a code or the word in front it is none |
| Rigctld.FrequencyReads | src/rigctld.rs:533-558 | a decimal 64-bit frequency reads back behind any line end, and nothing else reads |
| Rigctld.ModeReads | src/rigctld.rs:567-578 | the reported mode is the whole first word of its line, whatever white space stands around it |
| Rigctld.UsbReads | src/rigctld.rs:567-578 | for example `USB` alone, behind a tab, and in front of a space or a tab |
| Rigctld.PowerReads | src/rigctld.rs:587-602 | a finite reading in the unit interval is passed on unchanged, one outside becomes its nearer end, and no other text reads |
| Rigctld.CommandLines | src/rigctld.rs:550-657 | the exact lines of every command, for every mode |
| Rigctld.SomeRigsSpeak | src/rigctld.rs:550-603 | which of some simple peers keep to the protocol the claims assume |
| Rigctld.ValuesAreSane | src/rigctld.rs:556-602 | frequencies read back, reported powers lie in the unit interval, reported modes are not blank |
| Rigctld.CommandStaysInSync | src/rigctld.rs:550-657 | every command gets the reply its own lines earned and leaves the stream in sync, early exits included, if and only if it did not give up on the line behind an empty mode |
| Rigctld.SessionStaysInSync | src/rigctld.rs:470-498 | the same after any sequence of commands on one connection in which no drain behind an empty mode gave up |
| Rigctld.LateLineShiftsSession | src/rigctld.rs:568-575 | out of sync by one line, a sequence of one-line commands never catches up: each gets the answer to its predecessor |
| Rigctld.DrainTimeoutMisattributes | src/rigctld.rs:568-575 | for any frequency and passband, a timed-out drain makes the next frequency query return the passband |
| RigTranscript.ErrIffBreaks | src/rigctld.rs:550-657 | a command fails with an I/O error if and only if its transcript ends with one, the drain behind an empty mode aside; nothing follows an error |
| RigTranscript.PlaysIsTalk | src/rigctld.rs:550-657 | a transcript of a command that did not fail is its conversation on the stream: same lines read, same reply |
| RigTranscript.PlaysWritesCut | src/rigctld.rs:515-519 | to the byte, a command writes a cut of its own lines, and all of them if its reply is no error |
| RigTranscript.CommandsOnTheWire | src/rigctld.rs:515-519 | the exact bytes of whole commands, each line with its newline |
| RigJournal.OneReplyEach | src/rigctld.rs:285-341 | in every run of the actor, the commands taken have exactly one reply each, in order |
| RigJournal.DisconnectedIffFault | src/rigctld.rs:484-498 | in every run, a reply is `Disconnected` if and only if the event in front of it is an I/O error that the command did not ignore, or the actor was in a backoff |
| RigJournal.OutcomesAreSeen | src/rigctld.rs:287-298 | in every run, the health history is exactly the failed connects, failed commands and served commands that can be seen, in their order |
| RigJournal.AnswersAreOwn | src/rigctld.rs:550-657 | on every connection whose peer keeps to the protocol, each command gets the reply its own lines earned, as long as no earlier command on that connection gave up on a drain |
| RigJournal.BlocksStandWhole | src/rigctld.rs:605-657 | wire atomicity, to the byte: what a command wrote stands in one piece on its connection, whole if it succeeded; behind an I/O error the connection is silent |
| RigJournal.WireIsStream | src/rigctld.rs:515-519 | while a connection is up, its bytes are exactly the lines its peer was given to answer |
| RigJournal.BackoffFollowsFailures | src/rigctld.rs:245-276 | in every run, each delay is set by the failed connects since the last connection, the first not counted if there was none |
| RigJournal.SleepsFollowSchedule | src/rigctld.rs:432-442 | on what can be seen of every run, the sleeps are 0.5, 1, 2, 5 and then always 10 seconds, by the failed connects seen since the last connection |
| RigActor.World.TryConnect | src/rigctld.rs:278-283 | connects or fails, and either can be seen |
| RigActor.Connection.Send | src/rigctld.rs:515-519 | puts one line and its newline on the wire, to which the peer will answer; a failed write leaves any part of them |
| RigActor.Connection.ReadLine | src/rigctld.rs:521-534 | consumes exactly the first unread line, or nothing on error, which it may meet at any time |
| RigActor.Connection.ExecGetFreq | src/rigctld.rs:550-559 | leaves a transcript of one line written and one read, with the one outcome the transcript leads to |
| RigActor.Connection.ExecGetMode | src/rigctld.rs:561-579 | leaves a mode transcript, with the outcome of its exit: write or read error, error line, empty mode with its drain, mode |
| RigActor.Connection.ExecGetPower | src/rigctld.rs:581-603 | as for the frequency; readings are clamped to the unit interval |
| RigActor.Connection.ExecPoll | src/rigctld.rs:608-623 | the three transcripts in order, stopping at the first error that is not a missing power reading |
| RigActor.Connection.ExecSetFreqMode | src/rigctld.rs:643-657 | the frequency, then the mode exactly if the frequency was accepted |
| RigActor.Connection.HandleCommand | src/rigctld.rs:470-482 | every command leaves a transcript of its own, with the outcome that transcript leads to |
| RigActor.Connection.Dispatch | src/rigctld.rs:484-498 | the transcript of the command and then one reply: its value, or `Disconnected` if it met an I/O error |
| RigActor.RigActor.ServeOne | src/rigctld.rs:287-299 | one command served with its one reply and its outcome in the health history; the connection is given up exactly if it failed |
| RigActor.RigActor.Serve | src/rigctld.rs:285-301 | ends with the channel closed and nothing outstanding, or with the connection lost to an I/O error |
| RigActor.RigActor.SleepDraining | src/rigctld.rs:329-341 | one backoff of this delay, and one `Disconnected` to each command that arrives in it, nothing else; a closed channel leaves none outstanding |
| RigActor.RigActor.Run | src/rigctld.rs:244-276 | whatever connects and I/O do, the actor goes through a legal run and all that is seen, replied and recorded is accounted for by it; it exits only with nothing outstanding |
| RigActor.RigActor.AllIsAccountedFor | src/rigctld.rs:244-341 | on the events seen alone: one reply per command in order, the exact reason of every `Disconnected`, and a published health equal to that of the history seen |
| RigHealth.TrailingRunIsMaximal | src/rigctld.rs:402-417 | the failure count is the length of the longest run of equal failures at the end of the history |
| RigHealth.StateAfterFailure | src/rigctld.rs:406-417 | one more failure extends a streak of its kind, saturating, and starts a new one otherwise |
| RigHealth.Health.RecordFailure | src/rigctld.rs:406-417 | the state and the published value stay a function of the history; 1 is returned exactly at a transition |
| RigHealth.Health.RecordSuccess | src/rigctld.rs:421-429 | likewise; true exactly if a streak ended |
| RigHealth.CadenceFollowsHistory | src/poller.rs:46-53 | the poller slows to 15 s exactly if the last three outcomes are failures of one kind |
| Utf8.RoundTrip | src/wsjtx/protocol.rs:139-141 | encoded text decodes to itself |
| Utf8.SomeEncodings | src/wsjtx/protocol.rs:139-141 | one character of each length, byte by byte |
| Utf8.NotUtf8 | src/wsjtx/protocol.rs:139-141 | overlong forms, surrogates, lone continuation bytes and numbers above U+10FFFF are refused |
| Utf8.DecodedIsEncoded | src/wsjtx/protocol.rs:139-141 | only the encoding of a text decodes to it |
| Utf8.BoundarySplits | src/wsjtx/protocol.rs:85-102 | the bytes of a text cut where a character begins are the bytes of the two parts of the text |
| WsjtxProtocol.Cursor.Take | src/wsjtx/protocol.rs:144-161 | moves exactly over the bytes it returns, never past the buffer, and not at all on error |
| WsjtxProtocol.Cursor.ReadU32 | src/wsjtx/protocol.rs:120-123 | reads four bytes, most significant first |
| WsjtxProtocol.Cursor.ReadQString | src/wsjtx/protocol.rs:127-142 | signed length, -1 as null, other negatives rejected, then that many bytes of UTF-8 |
| WsjtxProtocol.ParseLoggedAdif | src/wsjtx/protocol.rs:30-47 | the cursor parser yields what the datagram's fields say, on any bytes |
| WsjtxProtocol.ParsesIffCarries | src/wsjtx/protocol.rs:30-47 | an ADIF is returned exactly for the datagrams that carry it: magic, any schema, type 12, two strings, anything behind |
| WsjtxProtocol.IgnoredIffOtherType | src/wsjtx/protocol.rs:32-42 | a datagram is passed over exactly if it has the magic and a whole header of another type |
| WsjtxProtocol.HeaderBytes | src/wsjtx/protocol.rs:17-18 | every datagram that carries an ADIF starts with the bytes AD BC CB DA and has type 00 00 00 0C |
| WsjtxProtocol.WireNumbers | src/wsjtx/protocol.rs:120-134 | numbers stand with their most significant byte first, and lengths in two's complement |
| WsjtxProtocol.SmallPacket | src/wsjtx/protocol.rs:175-187 | one whole packet, byte by byte |
| WsjtxProtocol.Refusals | src/wsjtx/protocol.rs:30-47 | which error a datagram gets that is cut in its header, has another magic, or a negative length; a null string reads as empty |
| WsjtxProtocol.FieldsOutside | src/wsjtx/protocol.rs:144-157 | a field that ends behind the datagram is truncated, one whose end is no position overflows |
| WsjtxProtocol.PushQString | src/wsjtx/protocol.rs:169-173 | appends the length and the bytes of the text |
| WsjtxProtocol.EncodeLoggedAdif | src/wsjtx/protocol.rs:175-187 | builds the type-12 packet of an id and an ADIF |
| WsjtxProtocol.PacketRoundTrip | src/wsjtx/protocol.rs:175-187 | parsing an encoded packet returns exactly its ADIF, with any bytes behind it |
| WsjtxProtocol.PrefixIsError | src/wsjtx/protocol.rs:144-157 | every proper prefix of an encoded packet is an error |
| Adif.AdifField | src/wsjtx/protocol.rs:79-108 | the cursor loop over bytes ends on every text, and yields what the item-by-item scan does, panics included |
| Adif.LookupIsFirstMatch | src/wsjtx/protocol.rs:77-108 | on bytes, for a record of tagged items, sentinels and filler: the value of the first item whose tag matches ignoring ASCII case, whatever the values contain |
| Adif.RecordIsFirstMatch | src/wsjtx/protocol.rs:77-108 | the same for a record of any characters whose lengths are those of its values in UTF-8 |
| Adif.FieldIsFound | src/wsjtx/protocol.rs:79-108 | one field, behind any header line, with any type behind its decimal length, and any value |
| Adif.CaseIsIgnored | src/wsjtx/protocol.rs:102 | tags match if and only if they differ at most in the case of the letters A to Z |
| Adif.PanicsIffLengthSplits | src/wsjtx/protocol.rs:85-102 | the scanner panics if and only if a declared length ends inside a character, in the first matching field or in front of it |
| Adif.SplitCharacterPanics | src/wsjtx/protocol.rs:98-105 | any tag with length 1 in front of any character outside ASCII makes it panic |
| Adif.AsciiNeverPanics | src/wsjtx/protocol.rs:79-108 | on ASCII it never panics |
| Adif.FoundIsText | src/wsjtx/protocol.rs:102-104 | a value that is found is a piece of the text, cut at whole characters |
| Adif.PlainTagIsSentinel | src/wsjtx/protocol.rs:88-92 | a tag without a colon, such as `EOR` and `EOH`, is skipped as a sentinel |
| Poller.RadioWorker | src/poller.rs:111-180 | each snapshot is skipped exactly if its key was the last one pushed successfully, less than 30 s before; otherwise it is pushed for the reason the history gives |
| Poller.SkippedIff | src/poller.rs:225-234 | a snapshot is skipped if and only if the last successful push showed the same frequency, mode and power bin, less than 30,000 ms before |
| Poller.PushedForReason | src/poller.rs:141-163 | any other snapshot is pushed if Wavelog can be reached, as the initial push, a change, a power change or a heartbeat exactly when it is one |
| Poller.HeartbeatComes | src/poller.rs:225-234 | an unchanged state is pushed at the first snapshot 30,000 ms or more after the last push |
| Poller.Deduper.Record | src/poller.rs:236-243 | a successful push is remembered with its key and time |
| Poller.EqualPushesAreSpaced | src/poller.rs:225-258 | successive successful pushes of one key are at least 30 s apart and count as heartbeats |
| Poller.ChangeIsRetried | src/poller.rs:141-163 | a changed key is tried on every snapshot that carries it until one push succeeds |
| Poller.SkippedDriftIsBounded | src/poller.rs:226-234 | while snapshots are skipped, frequency and mode are as pushed and the power has drifted by at most half a percent of full scale |
| Poller.BinIsNear | src/poller.rs:261-266 | a bin is within 1/400 of full scale of every reading in it, and in 0 to 200 for readings in the unit interval |
| Poller.TiesGoAway | src/poller.rs:264-266 | a reading half way between two bins goes to the one farther from zero |
| Poller.BinsAreMonotone | src/poller.rs:264-266 | a larger reading never falls in a smaller bin |

## Left out

- Sockets, name resolution, multicast binding (src/wsjtx/bind.rs), the HTTP listener and the WebSocket fan-out: library plumbing; the network is a choice of outcomes.
- Configuration, command line, key files, the station table, mode parsing and override tables: each claim is one branch.
- The cached station id (src/wavelog/station.rs): a lookup yields an id or an error; its lifetime is not modelled.
- Logging, error texts, URL building and the HTTP payloads.
- The advisory lock, the creation of parent directories, and the names of files set aside.
- The pipeline without persistence: it keeps nothing across a restart.
- The tick loop of the poller beyond its cadence, and the watch channel: the radio worker sees any sequence of snapshots.
- JSON objects other than those with the writer's three keys in the writer's order: the model's reader rejects them, the real one accepts other orders and extra keys. White space and all string escapes are accepted.
- RigActor.RigActor.Run: stops after a given number of rounds, since the loop has no other bound; the contract holds for every number, so for every finite part of a run.
- RigActor.Connection.ExecGetPower: how a text reads as a 32-bit float is a parameter, and finite readings are reals.
- Adif.AdifField: the tag to look for is compared as it is with the bytes of the text, since the program only looks for ASCII tags.
- Conservation.RemovalsAreAnswered: compares counts, text by text, and so cannot tell a second answer to one QSO from the answer to another; Conservation.RemovalHasOwnAnswer does.
- SpoolFile.RecoveryAtEveryCut: cuts between characters only; SpoolBytes.RecoveryAtEveryByte has the others.
- QsoQueue.QsoQueue.Append: the sequence number does not overflow, as it is a natural number.
- Poller.RadioWorker: rounding of 32-bit floats is not modelled; a push that is cancelled counts as failed.
