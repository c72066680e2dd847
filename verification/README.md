# A verified model of Provium's hard core

Provium runs Lua tests against virtual machines. This project models, in Dafny, the parts of
it whose correctness is hard to see from the code, and proves what they are for: a disk that
keeps its durability promise over every run of commands, power cuts and faults; a monitor
client that strands no caller in any interleaving of its threads; a barrier that releases all
of a round or none; a decoder that does not care how its bytes arrive; a bridge whose
commands, read back word by word, leave the kernel with exactly the rules, interfaces and
queueing disciplines its graph asks for, from either of its two command generators; a
snapshot that comes back; scanners, an eviction policy and a command printer with exact
specifications.

`dafny verify dfyconfig.toml` checks the whole project.

| files | what they model |
|---|---|
| `Options`, `Bytes`, `Decimal`, `StringOrder` | optional values, big-endian integers, decimal text, the order of strings |
| `NbdDisk`, `NbdServer`, `NbdArming`, `NbdWire`, `NbdHandshake`, `NbdSession` | the mediated NBD disk: sector overlay, fault policy and whole runs, arming a policy while commands are judged, the two wire protocols, whole connections |
| `QmpCalls`, `QmpWire`, `QmpEvents` | the QMP client as a step relation: callers and shutdown, the bytes on the socket, waiting for events |
| `Barrier` | the re-usable timed barrier as a step relation |
| `Frame` | the resumable frame decoder and the frame writer |
| `TapName`, `BridgeGraph`, `BridgeHost`, `BridgeRules`, `BridgeCommands`, `BridgeKernel`, `Bridge`, `BridgeSnapshot` | the bridge: its graph, the commands it issues, the rules they leave, a reader of those commands, the interfaces and queues they leave, the plan, saving and restoring |
| `LabTree` | flattening a lab tree into names and rebuilding it |
| `FixtureScan`, `Eviction` | the fixture scanners and the cache eviction |
| `ShellPrinter` | the printed command line and the shell that reads it |

Objects that the source updates in place are classes here (`DiskState`, `Shared`,
`FrameReader`, `Bridge`), loops are loops with invariants, and each method is tied to a
function of the old state about which the theorems are proved. Threads are step relations
whose steps are the code's lock sections, socket calls and channel operations; theorems
about them quantify over every run. Deadlines are steps that may happen at any look at the
clock.

## What turned out not to hold

These are results about the code as it is. Each names a concrete run or input first and then
the exact condition under which the property holds.

- A QMP shutdown that has returned does not mean that every blocked caller has its message. A
  second shutdown finds the pending map empty and returns while the first still holds the
  entries it drained (`QmpCalls.AnyShutdownIsNotEnough`); and when every shutdown has
  returned, the reader may still hold an entry it took before the drain
  (`QmpCalls.EveryShutdownIsNotEnough`). A blocked caller has its message exactly when no
  thread holds its entry (`QmpCalls.NoStrandedCaller`), so all is well once every shutdown
  begun has returned and the reader holds nothing (`QmpCalls.FinishedShutdownsStrandNobody`).
- A QMP command whose send failed may have been executed: the budget can run out after the
  last byte of the line is out (`QmpWire.FailedSendIsExecuted`). `QmpWire.PeerSeesSends`
  says exactly which commands the peer has.
- On a disk image whose size is not a multiple of 512 a write reaching into the last partial
  sector is refused after its whole sectors have been taken, and skips the memory cap
  (`NbdServer.TornWriteOverCap`; exactly when: `NbdServer.FailedCommandLeavesDisk`).
- The comment at `provium-host/src/nbd.rs:315-318` says no range rule can catch a FLUSH. One
  sent with a non-zero length is caught (`NbdServer.FlushWithLengthCanFail`; exactly when:
  `NbdServer.FlushFailsByCounterOnly`). The last byte of the 64-bit address space belongs to
  no failing range, because both range ends saturate there
  (`NbdServer.LastAddressNeverFails`).
- A command asleep in the delay of an older policy while a new one is armed is counted
  towards the new one, whose n-th command then fails one early
  (`NbdArming.StaleCommandFailsEarly`); a command counted between the two stores of an arming
  is forgotten, and the n-th fails late (`NbdArming.LostCountFailsLate`). Commands are counted
  from the arming exactly when what was counted between the stores is the command that was in
  flight (`NbdArming.CountedFromArming`).
- A barrier count of zero releases one caller, not none (`Barrier.CountZeroReleasesOne`), and
  the 64-bit generation makes a caller asleep through exactly 2^64 releases miss its own
  (`Barrier.WrapLosesRelease`; exactly when: `Barrier.TimelyIsExact`).
- Setting latency or drop on a live bridge that had neither installs netem without recording
  it. From then on realising any VM issues the same `tc qdisc add .. root` once more, which
  `tc` refuses, so no interface comes up and none is shaped
  (`BridgeHost.LatencyOnLiveBridgeStopsBoot`; exactly when: `BridgeHost.RefreshedNetemRecord`,
  `BridgeHost.RefusedExactly`). Restoring a snapshot runs into it: one with bridge-wide netem
  and an impaired member leaves that member's interface unshaped
  (`BridgeSnapshot.RestoreLosesShape`; exactly when: `BridgeSnapshot.Restore`).
- Clearing such latency again leaves it in the kernel (`BridgeHost.ClearedLatencyStays`;
  exactly when: `BridgeHost.ClearedNetemGoes`). A reset does clear it, because the bandwidth
  refresh after it deletes the root (`Bridges.Bridge.Reset`).
- `detach` deletes a VM's interface but keeps the shape recorded for it, so a VM that is
  attached again with the same impairment gets a new interface without any shaping
  (`Bridges.ReattachUnshaped`; exactly when: `BridgeHost.FreshTapIsShaped`,
  `BridgeHost.RealizeKeepsTruth`). The record then says one thing and the kernel another, and
  a later impairment puts that right exactly when it calls for something else than the record
  says (`Bridges.RefreshCures`).
- A VM that comes up on a fully partitioned bridge, or beside an isolated VM, can send and
  receive until the next refresh (`BridgeGraph.LateVmEscapesPartition`,
  `BridgeGraph.LateVmEscapesIsolation`; exactly when:
  `BridgeGraph.CompiledRulesStayExact`).
- A bandwidth limit set before the bridge is up never reaches the host: what the plan and the
  live path build limits no rate on the bridge's interface, for any graph
  (`BridgeKernel.PlanMeans`).
- Two bridges whose names differ in punctuation only have one firewall table between them, and
  a refresh of either wipes the other's rules (`BridgeRules.SharedTableIsWiped`; exactly when:
  `BridgeRules.TablesCollide`).
- The plan of a bridge without members lists a netem command that realising no member never
  issues (`BridgeHost.EmptyBridgePlanDiffers`; exactly when: `BridgeHost.EmptyBridgePlan`).
- A snapshot drops symmetric partitions hidden under a whole-bridge cut, and the symmetric
  partitions and the isolation of VMs that are not members
  (`BridgeSnapshot.NonMemberIsForgotten`). `BridgeSnapshot.RoundTripIsIdentity` gives the
  graphs that come back unchanged.
- Empty sub-lab names at the start of a path are lost in the flat name
  (`LabTree.EmptySubLabNameCollides`); below a named sub-lab they are kept. Two VMs share a
  flat name exactly when they differ in leading empty names alone
  (`LabTree.FlatNamesCollide`), and a lab is rebuilt exactly when no VM lies below an
  empty-named sub-lab of the root (`LabTree.FlattenAndRebuild`).

## Model

| member | source | states |
|---|---|---|
| `NbdDisk.DiskState.constructor` | provium-host/src/nbd.rs:365-371 | a newly opened disk shows the backing file, with nothing unflushed |
| `NbdDisk.DiskState.Read` | provium-host/src/nbd.rs:178-206 | the requested slice of the visible disk, for any alignment and any number of sectors; an error past the end or on overflow |
| `NbdDisk.DiskState.Write` | provium-host/src/nbd.rs:210-246 | an accepted write is spliced into the visible disk and nothing beside it changes; the overlay over 64 MiB is committed; the cases refused, including the partial last sector |
| `NbdDisk.DiskState.Flush` | provium-host/src/nbd.rs:249-256 | the backing file becomes the visible disk, no visible byte changes, the flush is counted |
| `NbdDisk.DiskState.PowerCut` | provium-host/src/nbd.rs:398-401 | the visible disk becomes the backing file |
| `NbdDisk.LaySector` | provium-host/src/nbd.rs:194-204 | one held sector is laid over exactly the bytes of the buffer it covers |
| `NbdDisk.AllTaken` | provium-host/src/nbd.rs:224-240 | the sector loop run to its end has spliced the whole write in and dirtied exactly the touched sectors |
| `NbdDisk.StoppedAt` | provium-host/src/nbd.rs:229-233 | the sector loop stopped by the short read of a partial last sector has taken exactly the whole sectors before it |
| `NbdDisk.WriteLands` | provium-host/src/nbd.rs:210-246 | how many bytes a write takes on an image of any size, that it succeeds exactly when that is all of them, and that only then the cap is minded |
| `NbdDisk.DiskState.LaySectors` | provium-host/src/nbd.rs:224-240 | the sector loop, run to its end or stopped by a short base read |
| `NbdServer.Shared.constructor` | provium-host/src/nbd.rs:365-377 | a new server has no policy and an unflushed overlay of nothing |
| `NbdServer.Shared.Consult` | provium-host/src/nbd.rs:286-330 | a command fails exactly when it is at or past the count, its kind is failing, or it shares a byte with the failing range; only an armed policy counts |
| `NbdServer.OverlapHasCommonByte` | provium-host/src/nbd.rs:319-326 | the two saturating comparisons hold exactly when some byte lies in both ranges |
| `NbdServer.Shared.TakeWrite` | provium-host/src/nbd.rs:647-658 | write, then flush when it succeeded and carried FUA, as one step |
| `NbdServer.Shared.Handle` | provium-host/src/nbd.rs:632-673 | new state and reply of every command, with error code, cookie and data; `ReadAnswers` and `OtherAnswers` say which |
| `NbdServer.ReadAnswers` | provium-host/src/nbd.rs:639-646 | over every run, a READ that no rule fails is answered with error 0 and its own slice of the flat disk, and with EIO and no data exactly when a non-empty range does not lie in the image |
| `NbdServer.OtherAnswers` | provium-host/src/nbd.rs:632-673 | the error codes: 5 for a failed command, 0 or 5 for a write, 0 for FLUSH, 22 for an unknown command |
| `NbdServer.KindRules` | provium-host/src/nbd.rs:309-314 | with no counter and no range armed, exactly READ or WRITE fails, as the policy names them |
| `NbdServer.FuaIsBitZero` | provium-host/src/nbd.rs:647-658 | FUA is the lowest flag, whatever the others are |
| `NbdServer.Shared.SetPolicy` | provium-host/src/nbd.rs:408-411 | arming restarts the count and touches no data |
| `NbdServer.Shared.PowerCut` | provium-host/src/nbd.rs:398-401 | a power cut reverts the disk and keeps policy and count |
| `NbdServer.RunKeepsConsistent` | provium-host/src/nbd.rs:171-257 | over every run, a byte outside the unflushed sectors is the same in cache and file, and the size stays |
| `NbdServer.WriteCommits` | provium-host/src/nbd.rs:647-658 | a write succeeds exactly when it fits, and then commits exactly when it carries FUA or crosses the cap |
| `NbdServer.CommitOrKeep` | provium-host/src/nbd.rs:639-673 | one event either makes the whole visible disk durable or leaves the backing file alone |
| `NbdServer.Durability` | provium-host/src/nbd.rs:210-257 | over every run the backing file is the visible disk as it stood at the last commit point |
| `NbdServer.PowerCutRestoresLastCommit` | provium-host/src/nbd.rs:398-401 | after a power cut every read sees exactly the disk of the last commit point |
| `NbdServer.VisibleStep` | provium-host/src/nbd.rs:639-673 | the bytes of a write that land are spliced in; nothing else but a power cut changes what is visible |
| `NbdServer.VisibleIsFlat` | provium-host/src/nbd.rs:178-257 | over every run, on an image of any size, what is read is a flat array with the landing bytes of each write spliced in |
| `NbdServer.AcknowledgedArrives` | provium-host/src/nbd.rs:647-663 | a write is acknowledged exactly when all of it lands; on whole sectors nothing of a refused write does |
| `NbdServer.CapHolds` | provium-host/src/nbd.rs:242-244 | over every run without a torn write the overlay never exceeds 64 MiB |
| `NbdServer.StepKeepsCap` | provium-host/src/nbd.rs:242-244 | one event keeps the cap unless it is a torn write |
| `NbdServer.WholeSectorsNeverTear` | provium-host/src/nbd.rs:224-240 | on an image of whole sectors no run has a torn write |
| `NbdServer.AcknowledgedKeepsCap` | provium-host/src/nbd.rs:242-244 | on any image, every acknowledged command keeps the cap |
| `NbdServer.FailedCommandLeavesDisk` | provium-host/src/nbd.rs:632-637 | a failed command leaves the disk alone exactly unless it is a write straddling the last whole sector, and what that one leaves |
| `NbdServer.TornWriteOverCap` | provium-host/src/nbd.rs:229-244 | a failed write on an unaligned image that leaves more than 64 MiB unflushed |
| `NbdServer.FaultsOverRuns` | provium-host/src/nbd.rs:286-330 | after arming, a command fails exactly when it is the n-th or later since the arming or a rule matches it |
| `NbdServer.ClearedPolicyIsSilent` | provium-host/src/nbd.rs:287-294 | an empty policy fails nothing and counts nothing, over every run |
| `NbdServer.FlushFailsByCounterOnly` | provium-host/src/nbd.rs:309-329 | a FLUSH is matched by a rule exactly through a range it shares a byte with, so never at length zero |
| `NbdServer.FlushWithLengthCanFail` | provium-host/src/nbd.rs:315-328 | a well-formed FLUSH of non-zero length that a range rule answers with EIO, leaving the disk alone |
| `NbdServer.LastAddressNeverFails` | provium-host/src/nbd.rs:321-324 | no range, however wide, catches a command on the last address |
| `NbdArming.ArmedNumber` | provium-host/src/nbd.rs:286-305 | the number every command is judged by, for every interleaving of cloning, counting and the two stores of an arming |
| `NbdArming.CountedFromArming` | provium-host/src/nbd.rs:408-411 | every command under the new policy is judged by its own number exactly when what was counted between the stores is the command that was in flight |
| `NbdArming.NthFails` | provium-host/src/nbd.rs:302-307 | the counter then fails exactly the n-th command under the new policy and every later one |
| `NbdArming.StaleCommandFailsEarly` | provium-host/src/nbd.rs:296-305 | a run in which the first command under a policy that fails the second one fails |
| `NbdArming.LostCountFailsLate` | provium-host/src/nbd.rs:408-411 | a run in which the second command under such a policy passes |
| `NbdArming.UndisturbedConsult` | provium-host/src/nbd.rs:286-330 | with no arming in between, clone and count are the one step of the server model |
| `NbdWire.RequestRoundTrip` | provium-host/src/nbd.rs:599-630 | parsing an encoded request gives it back, payload included, and leaves what follows |
| `NbdWire.HeaderFields` | provium-host/src/nbd.rs:599-630 | the magic and the five fields of a request stand at the bytes the protocol puts them |
| `NbdWire.ReplyFields` | provium-host/src/nbd.rs:677-689 | the same of a reply |
| `Bytes.MostSignificantFirst` | provium-host/src/nbd.rs:599-630 | integers on the wire have their most significant byte first |
| `NbdWire.ParsedIsWellFormed` | provium-host/src/nbd.rs:599-630 | whatever bytes come in, a parsed request fits its field widths and uses up input |
| `NbdWire.ServeAnswers` | provium-host/src/nbd.rs:632-673 | every reply carries the request's cookie and the data length fixed by request and error code |
| `NbdWire.RepliesRoundTrip` | provium-host/src/nbd.rs:677-689 | a client that knows its requests reads back exactly the replies sent |
| `NbdWire.Transmission` | provium-host/src/nbd.rs:594-675 | the request loop, with power cuts and policy changes between any two commands, writes exactly the encoded replies and ends cleanly or not as specified |
| `NbdWire.Meddle` | provium-host/src/nbd.rs:398-411 | power cuts and policy changes from outside are events of the run |
| `NbdWire.InSync` | provium-host/src/nbd.rs:594-675 | after any sequence of encoded requests the server stands exactly at the bytes that follow |
| `NbdWire.StreamNeverDesynchronises` | provium-host/src/nbd.rs:594-689 | one reply per request before the DISC, in order, own cookie, right length, readable by the client, under every policy and disk state |
| `NbdWire.HangUpIsClean` | provium-host/src/nbd.rs:599-605 | a client that goes away ends the session without an error, all its requests answered |
| `NbdHandshake.Options` | provium-host/src/nbd.rs:519-563 | the option loop gives the bytes, outcome and place in the stream of the specification |
| `NbdHandshake.Handshake` | provium-host/src/nbd.rs:509-564 | greeting, client flags and the option loop together |
| `NbdHandshake.OptRoundTrip` | provium-host/src/nbd.rs:520-530 | parsing an encoded option gives it back |
| `NbdHandshake.NegotiationKeepsPlace` | provium-host/src/nbd.rs:519-563 | any number of options before the one that ends negotiation are each answered, and transmission starts right after it |
| `NbdHandshake.OptReplyRoundTrip` | provium-host/src/nbd.rs:579-592 | an option reply reads back with its option, kind and payload |
| `NbdHandshake.ExportInfoFields` | provium-host/src/nbd.rs:566-577 | the export description holds the size and the flush and FUA flags at their places |
| `NbdHandshake.ClientReadsExport` | provium-host/src/nbd.rs:546-552 | a client that asks with GO or INFO reads the disk's size and then the acknowledgement |
| `NbdHandshake.HelloFields` | provium-host/src/nbd.rs:509-515 | the greeting holds the two magics and the handshake flags at their places |
| `NbdHandshake.ExportNameAnswer` | provium-host/src/nbd.rs:534-543 | EXPORT_NAME is answered with size and flags and, unless the client waived them, 124 zeroes |
| `NbdHandshake.OtherOptionAnswers` | provium-host/src/nbd.rs:553-561 | ABORT is acknowledged and every other option refused as unsupported, each reply readable |
| `NbdSession.ServeConnection` | provium-host/src/nbd.rs:499-505 | handshake and transmission over one input stream give the bytes, state and ending of the specification |
| `NbdSession.WholeSession` | provium-host/src/nbd.rs:499-689 | whatever options and requests the client sends before its DISC, each is answered in order and readable, and the bytes after the DISC are left |
| `QmpCalls.CommandIdInjective` | provium-qmp/src/connection.rs:435-438 | two callers never share an id |
| `QmpCalls.StepKeepsInv` | provium-qmp/src/connection.rs:101-161 | every lock section, socket call and channel operation keeps the permit, the order of shutdown, one sender per channel, and the origin of messages |
| `QmpCalls.InvAlways` | provium-qmp/src/connection.rs:292-351 | that invariant over every interleaving |
| `QmpCalls.IdleWriterOwnsStream` | provium-qmp/src/connection.rs:107-112 | the expectation that an idle writer owns its stream never fails |
| `QmpCalls.NoAcquireAfterFailure` | provium-qmp/src/connection.rs:115-126 | a writer that can still be acquired has never had a failed send |
| `QmpCalls.AtMostOneOwnReply` | provium-qmp/src/connection.rs:584-648 | no channel gets two messages, and one that is not Closed is what a reply line with the caller's own id tells: its return value, or without one its error with class and description or their stand-ins, or that it has neither |
| `QmpCalls.ClassifyTells` | provium-qmp/src/connection.rs:619-647 | a reply line is turned into exactly what it tells |
| `QmpCalls.ReplyReachesCaller` | provium-qmp/src/connection.rs:608-647 | the line the reader takes an entry for is the one that reaches that caller, as what it tells |
| `QmpCalls.NoStrandedCaller` | provium-qmp/src/connection.rs:133-161 | after a drain a blocked caller has its one message exactly when no thread holds its entry, and a thread that does can always send |
| `QmpCalls.FinishedShutdownsStrandNobody` | provium-qmp/src/connection.rs:133-161 | once every shutdown begun has returned and the reader holds no entry, every blocked caller has exactly one message |
| `QmpCalls.AnyShutdownIsNotEnough` | provium-qmp/src/connection.rs:153-160 | a run in which a shutdown has returned and a blocked caller has no message yet |
| `QmpCalls.EveryShutdownIsNotEnough` | provium-qmp/src/connection.rs:619-647 | a run in which every shutdown has returned and a blocked caller has no message yet, because the reader took its entry |
| `QmpWire.SendLine` | provium-qmp/src/deadline.rs:192-211 | whatever the socket takes each time, what was written is a prefix of the line, all of it on success, and success whenever the socket makes progress |
| `QmpWire.Position` | provium-qmp/src/deadline.rs:180-181 | the index of the first newline of a chunk, or its length |
| `QmpWire.ReadLine` | provium-qmp/src/deadline.rs:163-190 | exactly the first line of the stream however it is chunked, not a byte past it, and found whenever it is there |
| `QmpWire.OnTheWireAlways` | provium-qmp/src/connection.rs:101-127 | in every interleaving the socket's bytes are accounted for by sends that returned and one that has not |
| `QmpWire.WireIntegrity` | provium-qmp/src/connection.rs:101-142 | whole lines of the successful senders in order, then at most a prefix of one more line |
| `QmpWire.NothingAfterFailure` | provium-qmp/src/connection.rs:115-141 | after a failed send or a severed socket nothing is ever written |
| `QmpWire.PeerReadsCommands` | provium-qmp/src/deadline.rs:197-199 | joined lines split back into exactly those lines |
| `QmpWire.PeerSeesSends` | provium-qmp/src/connection.rs:101-127 | in every interleaving the peer has the successful senders' commands in order, and one more exactly when the sender that has not succeeded has its whole line out |
| `QmpWire.FailedSendIsExecuted` | provium-qmp/src/deadline.rs:200-210 | a run in which the peer has the command of a send that failed |
| `QmpEvents.ScanFindsFirst` | provium-qmp/src/connection.rs:689-699 | the scan gives the first match at or after the mark, or none exactly when there is none; a mark past the end finds nothing |
| `QmpEvents.StepKeepsInv` | provium-qmp/src/connection.rs:382-405 | every look, sleep, append and close keeps what a waiter knows of the log |
| `QmpEvents.WaitEqualsFullScan` | provium-qmp/src/connection.rs:368-406 | in every interleaving success is the first match at or after the mark; Closed and Timeout mean nothing logged so far matched |
| `QmpEvents.StaleEventsIgnored` | provium-qmp/src/connection.rs:359-361 | an event from before the mark is never returned |
| `Barrier.StepKeepsInv` | provium-host/src/lab.rs:192-243 | every arrival, wakeup and timeout keeps the counts of every round |
| `Barrier.InvAlways` | provium-host/src/lab.rs:192-243 | those counts over every interleaving |
| `Barrier.AllOrNothing` | provium-host/src/lab.rs:192-243 | `arrived` is the number of callers waiting in the current round, and every released round has exactly the target number of callers |
| `Barrier.TrueExactlyCountTimes` | provium-host/src/lab.rs:209-235 | once nobody of a released round is asleep, exactly the target number have returned true |
| `Barrier.ReleasedRoundIsFinal` | provium-host/src/lab.rs:230-235 | no caller of a released round ever returns false and nobody joins it |
| `Barrier.GoneStaysGone` | provium-host/src/lab.rs:216-227 | a caller that timed out is counted in no round, ever after |
| `Barrier.MismatchRefused` | provium-host/src/lab.rs:198-208 | the first arrival fixes the count for good: an arrival with a different one, whatever happens before, is refused, changes no counter and is in no round ever after |
| `Barrier.ReleaseSeen` | provium-host/src/lab.rs:233-235 | a waiter sees a release exactly when the releases since it came are not whole turns of the 64-bit counter |
| `Barrier.TimelyIsExact` | provium-host/src/lab.rs:233-241 | a wakeup keeps the counts of all rounds exactly unless the caller gives up on a released round after whole turns of the counter |
| `Barrier.FewRoundsAreTimely` | provium-host/src/lab.rs:209-215 | fewer than 2^64 releases are enough for all of the above |
| `Barrier.CountZeroReleasesOne` | provium-host/src/lab.rs:210-215 | a count of zero makes a round of one caller |
| `Barrier.WrapLosesRelease` | provium-host/src/lab.rs:212-242 | a run in which a released caller returns false after the counter came round |
| `Frame.FrameRoundTrip` | provium-protocol/src/frame.rs:94-129 | decoding an encoded body within the cap gives it back and stops at its end |
| `Frame.CutFrameIsSeen` | provium-protocol/src/frame.rs:94-129 | a frame cut short anywhere is reported with the bytes there are and the bytes there should be |
| `Frame.OversizedIsRefused` | provium-protocol/src/frame.rs:107-113 | a body over the cap is refused by its length alone |
| `Frame.Source.Read` | provium-protocol/src/frame.rs:178-188 | what any reader may do: deliver some bytes in order, be interrupted, time out or fail |
| `Frame.ReadFull` | provium-protocol/src/frame.rs:178-188 | no byte is lost, repeated or reordered, whether it fills the buffer, hits the end or stops on a timeout |
| `Frame.FrameReader.constructor` | provium-protocol/src/frame.rs:82-90 | a new decoder holds nothing |
| `Frame.FrameReader.FillHeader` | provium-protocol/src/frame.rs:94-105 | resuming the header keeps buffered plus remaining bytes the same |
| `Frame.FrameReader.FillBody` | provium-protocol/src/frame.rs:115-122 | resizing and resuming the body keeps buffered plus remaining bytes the same |
| `Frame.FrameReader.Read` | provium-protocol/src/frame.rs:94-129 | the result is what the frame at the start of buffered plus remaining bytes says, exactly 4+len bytes are used, Eof only at a boundary, and a timeout loses nothing |
| `Frame.ReadAll` | provium-protocol/src/frame.rs:64-129 | for every split into reads with interrupts and timeouts anywhere, the same messages and ending as one uninterrupted pass; after a hard error, a prefix of those messages |
| `Frame.EncodedStreamDecodes` | provium-protocol/src/frame.rs:138-169 | a stream of written frames decodes to exactly their bodies and then Eof |
| `Frame.WriteFrame` | provium-protocol/src/frame.rs:138-169 | one write of length and body, or an error and nothing written, exactly at the smaller of the cap and u32 |
| `StringOrder.InOrder` | provium-host/src/bridge.rs:238-246 | members come out once each, in the order of their names |
| `StringOrder.LeIsLexicographic` | provium-host/src/bridge.rs:1452-1458 | the order of names: a prefix first, otherwise the first difference decides |
| `StringOrder.CanonicalPairForgetsOrder` | provium-host/src/bridge.rs:1452-1458 | two pairs have one canonical form exactly when they are the same two names |
| `TapName.Fnv1a64` | provium-host/src/bridge_realize.rs:280-289 | the loop computes 64-bit FNV-1a of `vm:bridge` |
| `TapName.Tap` | provium-host/src/bridge_realize.rs:258-275 | at most 15 characters, the prefix, and no quote that could break a rule |
| `TapName.KnownHash` | provium-host/src/bridge_realize.rs:280-289 | the published FNV-1a value of a one-byte input |
| `TapName.FoldJoins` | provium-host/src/bridge_realize.rs:280-289 | bytes are folded in from first to last |
| `TapName.EncodedReads` | provium-host/src/bridge_realize.rs:270 | the bytes hashed are the UTF-8 of the names |
| `TapName.CleanedAppends` | provium-host/src/bridge_realize.rs:259-262 | each character is kept or dropped for what it is |
| `TapName.TapHoldsHash` | provium-host/src/bridge_realize.rs:263-274 | the name is the prefix, up to four kept characters, and seven digits that read back as the low 28 bits of the hash |
| `TapName.RuleReads` | provium-host/src/bridge.rs:903-910 | the text of a rule, read by its words, drops what comes in on the first interface and goes out on the second |
| `BridgeGraph.CollapsedFor` | provium-host/src/bridge.rs:1097-1112 | the loop gives, on each axis, the largest value of any entry leaving the VM, or none when all are zero |
| `BridgeGraph.WorstIsUnique` | provium-host/src/bridge.rs:1088-1096 | that worst case does not depend on the order of the pairs |
| `BridgeGraph.RecordedReads` | provium-host/src/bridge.rs:1437-1450 | recording changes one entry and no other, and an all-zero one goes |
| `BridgeGraph.TextsDropPairs` | provium-host/src/bridge.rs:872-929 | the rules for a set of pairs drop a frame exactly when its two interfaces are one of the pairs |
| `BridgeGraph.CutExact` | provium-host/src/bridge.rs:872-929 | for any two VMs, which frames the rules compiled for a given set of running VMs drop |
| `BridgeGraph.RulesAreExact` | provium-host/src/bridge.rs:821-930 | for two running VMs, some rule drops a frame from a's interface to b's exactly when the bridge is fully cut, the pair is partitioned, (a, b) is cut one way, or either is isolated |
| `BridgeGraph.UnmentionedIsUnruled` | provium-host/src/bridge.rs:180-190 | no rule is about the interface of a VM that neither the graph nor the running set mentions |
| `BridgeGraph.CompiledRulesStayExact` | provium-host/src/bridge.rs:573-700 | for any two VMs, up since the rules were compiled or not, exactly when the rules are right about the frames from one to the other |
| `BridgeGraph.LateVmEscapesPartition` | provium-host/src/bridge.rs:872-887 | a fully partitioned bridge whose rules miss a VM that came up later, both ways |
| `BridgeGraph.LateVmEscapesIsolation` | provium-host/src/bridge.rs:912-928 | an isolated VM whose rules miss a VM that came up later, both ways |
| `BridgeRules.TableAfterOne` | provium-host/src/bridge.rs:845-883 | how one more command changes the table |
| `BridgeRules.EffectOfDelete` | provium-host/src/bridge.rs:843-845 | the delete command leaves no table |
| `BridgeRules.EffectOfTable` | provium-host/src/bridge.rs:859 | the table command makes an empty table without a chain |
| `BridgeRules.EffectOfChain` | provium-host/src/bridge.rs:860-870 | the chain command hooks it into forwarding |
| `BridgeRules.EffectOfRule` | provium-host/src/bridge.rs:879-883 | a rule command adds that rule to a hooked chain |
| `BridgeRules.SanitizedAt` | provium-host/src/bridge.rs:1315-1319 | the table's name has a word character of the bridge's name in its place and an underscore for any other |
| `BridgeRules.TablesCollide` | provium-host/src/bridge.rs:842 | two bridges share a table exactly when their names differ in punctuation only |
| `BridgeRules.SharedTableIsWiped` | provium-host/src/bridge.rs:842-845 | two bridges of which a refresh of one wipes the rules of the other |
| `BridgeRules.OtherProgramsKeepRules` | provium-host/src/bridge.rs:714-764 | `tc` and `ip` commands leave the rules alone |
| `Bridges.Bridge.constructor` | provium-host/src/bridge.rs:131-137 | a new bridge: empty graph, nothing on the host, a kernel that agrees, interfaces named by `TapName.Tap` |
| `Bridges.Bridge.RefreshPartitions` | provium-host/src/bridge.rs:821-930 | afterwards the table holds exactly the rules of the graph's cuts, interfaces and queues stay; nothing is issued for a bridge that is not up |
| `Bridges.Bridge.CutApart` | provium-host/src/bridge.rs:872-887 | a rule for every ordered pair of different interfaces |
| `Bridges.Bridge.CutPairs` | provium-host/src/bridge.rs:888-900 | a rule each way for every partitioned pair |
| `Bridges.Bridge.CutOneWay` | provium-host/src/bridge.rs:901-911 | a rule one way for every directional partition |
| `Bridges.Bridge.CutIsolated` | provium-host/src/bridge.rs:912-928 | a rule each way between every isolated VM and every other interface |
| `Bridges.Bridge.EnforcedRulesAreExact` | provium-host/src/bridge.rs:821-930 | right after a refresh some rule in force drops a frame from one VM's interface to another's exactly when the graph severs that traffic |
| `Bridges.Bridge.UnmentionedIsUnruledNow` | provium-host/src/bridge.rs:180-206 | right after a refresh no rule in force is about the interface of a VM nothing mentions |
| `Bridges.Bridge.MirroredShapes` | provium-host/src/bridge.rs:603-698 | while the kernel agrees, the interface of every shaped VM is up on the bridge and delays, loses and limits by the worst recorded of what the VM sends, and the bridge's own delays and loses what the graph says |
| `Bridges.Bridge.InstallNetemRoot` | provium-host/src/bridge.rs:1230-1249 | the one command of a netem-only shape |
| `Bridges.Bridge.InstallHtb` | provium-host/src/bridge.rs:1266-1306 | root, class and optional netem child of a rate-limited shape |
| `Bridges.Bridge.RealizeForVm` | provium-host/src/bridge.rs:573-700 | the commands issued and the record kept, whatever was realised before; a refused netem command ends the call with nothing recorded; replayed by their words, the commands keep the kernel what the bridge takes it for |
| `Bridges.Bridge.ChangeNetem` | provium-host/src/bridge.rs:603-631 | the command issued, and that it is refused exactly when a root is added to one that is there or changed on one that is not netem |
| `Bridges.Bridge.ChangeShape` | provium-host/src/bridge.rs:672-685 | the commands issued and what they make of the kernel's chain |
| `Bridges.Bridge.RealizeEach` | provium-host/src/lab.rs:696-702 | one VM after another, going on after a refusal: the commands and record of a pass; the rules do not change |
| `Bridges.Bridge.RealizeUntilRefused` | provium-host/src/bridge.rs:955-957 | one VM after another up to the first refusal, which is the first VM's or nobody's |
| `Bridges.Bridge.RefreshDirectional` | provium-host/src/bridge.rs:939-959 | a pass over every running VM up to the first refusal, none when the bridge is down; no interface is added |
| `Bridges.Bridge.RefreshNetem` | provium-host/src/bridge.rs:714-764 | the commands issued, and that the record changes only when netem is cleared; the kernel stays what the bridge takes it for |
| `Bridges.Bridge.RefreshBandwidth` | provium-host/src/bridge.rs:768-814 | the commands issued in each combination of bandwidth, latency and drop; the kernel stays what the bridge takes it for |
| `Bridges.Bridge.Attach` | provium-host/src/bridge.rs:167-169 | one more member |
| `Bridges.Bridge.Detach` | provium-host/src/bridge.rs:176-206 | every trace of the VM leaves the graph, its interface goes with its chain, the shape recorded for it stays, the rules are the graph's again; the kernel stays what the bridge takes it for |
| `Bridges.DetachedForgets` | provium-host/src/bridge.rs:177-194 | a detached VM is mentioned nowhere in the graph, and nothing about any other VM or the bridge as a whole is lost |
| `Bridges.DetachedSevers` | provium-host/src/bridge.rs:177-194 | between others the same traffic is severed as before; to and from the VM only by a whole-bridge cut or the other's isolation |
| `Bridges.Bridge.Partition` | provium-host/src/bridge.rs:255-259 | the canonical pair is recorded and the rules are the graph's |
| `Bridges.Bridge.Unpartition` | provium-host/src/bridge.rs:262-266 | the canonical pair is gone and the rules are the graph's |
| `Bridges.Bridge.PartitionDirectional` | provium-host/src/bridge.rs:270-277 | one direction is recorded and the rules are the graph's |
| `Bridges.Bridge.UnpartitionDirectional` | provium-host/src/bridge.rs:280-287 | one direction is gone and the rules are the graph's |
| `Bridges.Bridge.IsPartitionedNow` | provium-host/src/bridge.rs:290-294 | the answer, which does not depend on the order of the two names |
| `Bridges.Bridge.SetFully` | provium-host/src/bridge.rs:297-306 | the whole bridge is cut or healed and the rules are the graph's |
| `Bridges.Bridge.Reset` | provium-host/src/bridge.rs:314-341 | impairments and partitions go, topology and isolation stay; the rules follow, and in the kernel the bridge's root is cleared and no interface has a chain; the kernel stays what the bridge takes it for |
| `Bridges.ClearedSevers` | provium-host/src/bridge.rs:314-335 | after a reset exactly isolation severs traffic, nothing is impaired, and members, routes and uplink stay |
| `Bridges.Bridge.Isolate` | provium-host/src/bridge.rs:366-369 | the VM is isolated and the rules are the graph's |
| `Bridges.Bridge.Unisolate` | provium-host/src/bridge.rs:372-375 | the VM is not isolated and the rules are the graph's |
| `Bridges.Bridge.Route` | provium-host/src/bridge.rs:345-351 | one more route |
| `Bridges.Bridge.SetUplink` | provium-host/src/bridge.rs:965-974 | the uplink intent |
| `Bridges.Bridge.AddLatency` | provium-host/src/bridge.rs:390-393 | the latency, the commands issued and the rules kept; the kernel stays what the bridge takes it for |
| `Bridges.Bridge.DropRate` | provium-host/src/bridge.rs:397-400 | the drop rate cut off at 100, the commands issued and the rules kept; the kernel stays what the bridge takes it for |
| `Bridges.Bridge.BandwidthLimit` | provium-host/src/bridge.rs:404-407 | the bandwidth, the commands issued and the rules kept; the kernel stays what the bridge takes it for |
| `Bridges.Bridge.AddDirectionalLatency` | provium-host/src/bridge.rs:488-502 | one axis of one entry, an all-zero entry collected. On a stuck bridge the host does not change; on any other the record fits the graph, and the kernel's chains do exactly unless an interface stands on a leftover record the graph calls for |
| `Bridges.Bridge.SetDirectionalBandwidth` | provium-host/src/bridge.rs:520-531 | the same for bandwidth |
| `Bridges.Bridge.DirectionalDropRate` | provium-host/src/bridge.rs:535-546 | the same for the drop rate, cut off at 100 |
| `Bridges.RefreshCures` | provium-host/src/bridge.rs:672-698 | a refresh cures an interface of its leftover record exactly when the graph calls for something else than the record says |
| `Bridges.Bridge.OnRecordIsShaped` | provium-host/src/bridge.rs:665-672 | a record that fits the graph is true of the kernel exactly when no interface stands on a leftover record |
| `Bridges.RecordedKeeps` | provium-host/src/bridge.rs:1437-1450 | no all-zero entry and no percentage over 100 is ever recorded |
| `Bridges.PlanFor` | provium-host/src/bridge_realize.rs:68-229 | the four phases of the plan, members in order |
| `Bridges.PlanShape` | provium-host/src/bridge_realize.rs:141-225 | the plan's chain for one shape |
| `BridgeHost.PlanTc` | provium-host/src/bridge_realize.rs:93-226 | the plan's `tc` commands are the bridge's netem and then each member's chain |
| `BridgeHost.RealizeTc` | provium-host/src/bridge.rs:603-685 | the `tc` commands of realising one VM are exactly its netem and shape changes |
| `BridgeHost.PassTc` | provium-host/src/bridge.rs:573-700 | a pass over distinct VMs from an unrealised bridge issues netem once and each chain once, in order |
| `BridgeHost.PlanMatchesLive` | provium-host/src/bridge_realize.rs:128-226 | for every bridge with a member, the plan's `tc` commands equal, in order, those of realising all members |
| `BridgeHost.EmptyBridgePlan` | provium-host/src/bridge_realize.rs:93-116 | without members they agree exactly when the bridge has no netem |
| `BridgeHost.EmptyBridgePlanDiffers` | provium-host/src/bridge_realize.rs:93-116 | a bridge with latency and no member, for which they differ |
| `Decimal.DigitsRead` | provium-host/src/bridge.rs:617-624 | a formatted number reads back |
| `BridgeCommands.ClausesRead` | provium-host/src/bridge.rs:617-624 | the netem clauses read as the latency for the delay and the drop rate for the loss |
| `BridgeCommands.NetemRootReads` | provium-host/src/bridge.rs:1230-1249 | the netem command reads as adding or changing that netem on that interface |
| `BridgeCommands.HtbRootReads` | provium-host/src/bridge.rs:1272-1274 | the first command of a rate limit reads as a class-based root |
| `BridgeCommands.HtbClassReads` | provium-host/src/bridge.rs:1275-1282 | the class reads with the bandwidth as its rate and its ceiling |
| `BridgeCommands.NetemChildReads` | provium-host/src/bridge.rs:1282-1304 | the child reads as netem below that class with that latency and drop rate |
| `BridgeCommands.TokenBucketReads` | provium-host/src/bridge.rs:800-812 | the token bucket reads with the bandwidth as its rate |
| `BridgeCommands.BurstIsTenMilliseconds` | provium-host/src/bridge.rs:1263-1277 | the burst is ten milliseconds' worth of bytes and at least a frame |
| `BridgeCommands.BridgeUpReads` | provium-host/src/bridge.rs:591-602 | the first two commands make the bridge and bring it up |
| `BridgeCommands.TapReads` | provium-host/src/bridge.rs:632-640 | the interface command makes that interface, whoever owns it |
| `BridgeCommands.JoinReads` | provium-host/src/bridge.rs:641-642 | the interface is enslaved to the bridge and brought up |
| `BridgeCommands.DelLinkReads` | provium-host/src/bridge.rs:199-203 | detaching deletes that interface |
| `BridgeKernel.ShapeComes` | provium-host/src/bridge.rs:1230-1306 | on a bare interface the commands for a shape leave exactly that shape |
| `BridgeKernel.ShapeChanges` | provium-host/src/bridge.rs:672-685 | changing a shape leaves exactly the new one, and nothing is refused |
| `BridgeKernel.NetemChanges` | provium-host/src/bridge.rs:603-631 | changing the bridge's netem leaves the new one, or the old root exactly when the command is refused |
| `BridgeKernel.RealizeAgrees` | provium-host/src/bridge.rs:573-700 | replayed by their words, the commands of realising a VM take a kernel that is what the bridge takes it for to one that is again, refused or not |
| `BridgeKernel.PassAgrees` | provium-host/src/bridge.rs:939-959 | the same for a pass over any VMs |
| `BridgeKernel.RefreshNetemAgrees` | provium-host/src/bridge.rs:714-764 | the same for a netem refresh |
| `BridgeKernel.RefreshBandwidthAgrees` | provium-host/src/bridge.rs:768-814 | the same for a bandwidth refresh |
| `BridgeKernel.DetachAgrees` | provium-host/src/bridge.rs:199-203 | the same for a deleted interface |
| `BridgeKernel.NftKeepsKernel` | provium-host/src/bridge.rs:821-930 | `nft` commands change no interface and no queue |
| `BridgeKernel.AgreesOnOne` | provium-host/src/bridge.rs:687-698 | what the bridge takes the kernel for leaves no choice of kernel |
| `BridgeKernel.PlanAgrees` | provium-host/src/bridge_realize.rs:68-229 | replayed by their words, the plan's commands leave the kernel of a bridge with every member up |
| `BridgeKernel.PlanBuildsLive` | provium-host/src/bridge_realize.rs:68-229 | plan and live path build the very same interfaces and queues |
| `BridgeKernel.ShapeMeans` | provium-host/src/bridge.rs:1088-1112 | the queue for a VM delays, loses and limits by the largest recorded value on each axis |
| `BridgeKernel.PlanMeans` | provium-host/src/bridge_realize.rs:68-229 | what they build for any graph: every member's interface impairs by the worst it sends, the bridge's own delays and loses what the graph says and limits no rate |
| `BridgeHost.PassLeaves` | provium-host/src/bridge.rs:687-698 | where a pass leaves the record of interfaces, netem and shapes |
| `BridgeHost.SecondPassIsSilent` | provium-host/src/bridge.rs:566-569 | from any state, a second pass over the same VMs issues no command exactly when the first was not refused |
| `BridgeHost.RefreshedNetemRecord` | provium-host/src/bridge.rs:714-764 | after a netem refresh realising is refused exactly when netem is asked for and none was on record, and the command refused is the one just issued |
| `BridgeHost.RefusedExactly` | provium-host/src/bridge.rs:603-631 | in every reachable state, realising is refused exactly on a live bridge that asks for netem and has none on record |
| `BridgeHost.PassKeepsSane` | provium-host/src/bridge.rs:687-698 | graph, record and kernel root keep hanging together over a pass |
| `BridgeHost.LatencyOnLiveBridgeStopsBoot` | provium-host/src/bridge.rs:390-393 | latency set on a live bridge without netem, after which realising is refused |
| `BridgeHost.ClearedNetemGoes` | provium-host/src/bridge.rs:733-744 | asking for no netem clears the kernel's root exactly when netem is on record or the root is bare |
| `BridgeHost.ClearedLatencyStays` | provium-host/src/bridge.rs:733-735 | latency set and cleared on a live bridge that stays in the kernel |
| `BridgeHost.FreshTapIsShaped` | provium-host/src/bridge.rs:664-685 | a fresh interface gets its whole chain exactly unless the call is refused or a leftover record equals the wanted shape |
| `BridgeHost.RealizeKeepsTruth` | provium-host/src/bridge.rs:664-698 | when record and kernel agree, realising a VM keeps them so exactly unless it makes a new interface for a shape that is on record already |
| `BridgeHost.TapRootIsFree` | provium-host/src/bridge.rs:675-683 | no root on a VM's interface is ever refused: one that is there is on record and cleared first |
| `BridgeHost.PassChains` | provium-host/src/bridge.rs:672-698 | a pass gives an interface a new chain exactly when the record calls for one |
| `Bridges.ReattachUnshaped` | provium-host/src/bridge.rs:176-206 | detach, attach, impair and realise: the new interface comes up with no chain and nothing is issued after it, while the record says it is shaped |
| `BridgeSnapshot.TakeSnapshot` | provium-host/src/lab.rs:529-584 | every field of the saved bridge, with exactly the cut pairs of members and every non-zero impairment once |
| `BridgeSnapshot.Restore` | provium-host/src/lab.rs:630-639 | the graph put together from any starting graph; on a new bridge, rules that enforce it, a kernel that is what the bridge takes it for, and chains that fit the graph exactly when there is no bridge-wide netem or no impaired member |
| `BridgeSnapshot.RestoreLosesShape` | provium-host/src/lab.rs:708-739 | a snapshot of one VM with latency on the bridge and on the VM, whose restore does not shape the VM |
| `BridgeSnapshot.Populate` | provium-host/src/lab.rs:696-702 | members attached and realised; on a new bridge rules and chains fit the graph |
| `BridgeSnapshot.Reapply` | provium-host/src/lab.rs:706-747 | everything recorded is put back in the source's order; rules stay in line; on a stuck bridge no interface changes, and exactly when it gets stuck; otherwise the record stays in line and the kernel's chains are what it says exactly when no interface stands on a leftover record |
| `BridgeSnapshot.DirectionalRebuilt` | provium-host/src/lab.rs:729-739 | the per-axis calls rebuild the very impairment map |
| `BridgeSnapshot.RoundTripFields` | provium-host/src/lab.rs:529-584 | members, whole-bridge impairments, routes, uplink, directional partitions and impairments come back equal |
| `BridgeSnapshot.RoundTripAnswers` | provium-host/src/lab.rs:706-747 | for distinct members the restored bridge gives the same partition and isolation answers, severs the same traffic and shapes alike |
| `BridgeSnapshot.RoundTripIsIdentity` | provium-host/src/lab.rs:536-555 | the restored graph is the saved one exactly when no symmetric partition or isolation concerns a VM that is not a member, or is hidden under a whole-bridge cut |
| `BridgeSnapshot.NonMemberIsForgotten` | provium-host/src/lab.rs:551-555 | an isolated VM that is not a member is forgotten |
| `BridgeSnapshot.SecondTripIsExact` | provium-host/src/lab.rs:529-584 | saving and restoring a restored bridge changes nothing |
| `LabTree.GatherInto` | provium-host/src/lab.rs:1331-1366 | the flat names of exactly the VMs of the tree, one each |
| `LabTree.SplitInvertsFlat` | provium-host/src/lab.rs:1385-1389 | a flat name splits back into its path exactly when the path does not start with an empty sub-lab name |
| `LabTree.SplitFlatStrips` | provium-host/src/lab.rs:1350-1365 | for every path without a slash, splitting its flat name gives the path less its leading empty names |
| `LabTree.FlatNamesCollide` | provium-host/src/lab.rs:1350-1365 | two places share a flat name exactly when they differ in leading empty names alone |
| `LabTree.FlatNamesAreDistinct` | provium-host/src/lab.rs:1331-1366 | two VMs of a lab with no VM below an empty-named sub-lab of the root have different flat names, which split back |
| `LabTree.EmptySubLabNameCollides` | provium-host/src/lab.rs:1358-1363 | two VMs with one flat name when a sub-lab of the root has an empty name |
| `LabTree.CreatePathAddsNoVm` | provium-host/src/lab.rs:1396-1405 | walking and creating sub-labs adds and loses no VM |
| `LabTree.PutVmAddsOne` | provium-host/src/lab.rs:650-669 | restoring a VM adds exactly that VM |
| `LabTree.Preflight` | provium-host/src/lab.rs:620-627 | refused exactly when a name is already taken, and otherwise no VM is added |
| `LabTree.RestoreVms` | provium-host/src/lab.rs:620-682 | refused exactly when a name is taken or repeated; otherwise exactly the named VMs are added |
| `LabTree.FlattenAndRebuild` | provium-host/src/lab.rs:1331-1405 | for every lab without slashes, rebuilding is refused exactly when two VMs collide, and gives the same VMs in the same places exactly when none lies below an empty-named sub-lab of the root |
| `FixtureScan.NoHitInsideMarker` | provium-host/src/fixture.rs:279-290 | a marker starting inside another is never a hit |
| `FixtureScan.JumpLosesNothing` | provium-host/src/fixture.rs:281-310 | jumping past a whole marker skips no hit |
| `FixtureScan.ScanQuotedArg` | provium-host/src/fixture.rs:279-311 | exactly the hits found by looking at every position, in order |
| `FixtureScan.HitsAreExact` | provium-host/src/fixture.rs:279-311 | those are all marker calls at identifier boundaries and nothing else, once each, ascending |
| `FixtureScan.SortedIsSourceOrder` | provium-host/src/fixture.rs:252-257 | scanning marker by marker and sorting by position is one pass in source order |
| `FixtureScan.HitIsCall` | provium-host/src/fixture.rs:281-308 | a hit is exactly a marker at an identifier boundary, white space, a parenthesis, white space, and the name between two equal quotes |
| `FixtureScan.ScanFixtureDeps` | provium-host/src/fixture.rs:251-258 | the names of exactly the calls of either marker, in source order |
| `FixtureScan.FindMatchingCloseParen` | provium-host/src/fixture.rs:392-424 | the least index that closes depth zero outside quoted, escape-aware literals, or none when there is none |
| `FixtureScan.CloseIsItsOwn` | provium-host/src/fixture.rs:392-424 | behind any well-formed argument list, however it nests and whatever its literals hold, the first closing place is the list's own parenthesis |
| `FixtureScan.SkipLiteral` | provium-host/src/fixture.rs:398-412 | the inner loop ends just past the closing quote and passes over no closing parenthesis |
| `Eviction.SortSorts` | provium-host/src/fixture.rs:711 | oldest first |
| `Eviction.SortKeeps` | provium-host/src/fixture.rs:711 | the same entries, each as often, and the same total |
| `Eviction.EvictOldest` | provium-host/src/fixture.rs:713-742 | the removal loop settles a prefix, with exact counts, and stops as soon as the rest fits |
| `Eviction.EvictTo` | provium-host/src/fixture.rs:697-749 | kept plus evicted is the total for every pattern of failures; evicted are the least recently used that could be removed; sparing the last would exceed the cap; without failures the rest fits |
| `ShellPrinter.QuoteReadsBack` | provium-host/src/console.rs:191-201 | a printed word reads back as itself whatever precedes the rest of the line |
| `ShellPrinter.EscapeReadsBack` | provium-host/src/console.rs:199 | inside quotes an escaped word adds exactly itself |
| `ShellPrinter.PrintedCommandReadsBack` | provium-host/src/console.rs:188-204 | for every program and arguments, splitting the printed line with quote removal gives them back |

## Left out

- NbdDisk.DiskState.Write: backing-file I/O errors are not modelled except the short read of a partial last sector; `flush` empties the overlay before writing, so nothing is claimed when writing fails.
- NbdServer.Shared.Consult: policy and counter are read in one step; `NbdArming` has the two steps and the arming between them, for one arming at a time. The delay is a pause of any length. A `fail_range` whose byte arithmetic exceeds 64 bits is excluded, as the source's multiplication overflows there.
- NbdServer.CapHolds: says nothing of runs with a torn write, which can exceed the cap as `TornWriteOverCap` shows.
- The NBD accept loop, its shutdown flag and the socket itself: bytes in and bytes out are parameters.
- QmpCalls.StepKeepsInv: JSON is not parsed; a line is an event, or a reply with an id and at most a return and an error. The 64-bit id counter does not wrap in the model.
- QmpCalls.ClassifyTells: the description made up for a reply with neither return nor error names the command in the source and not here.
- BridgeKernel.RealizeAgrees: the kernel is interfaces, their bridge, whether they are up, and one root discipline each with at most one class and child; a command that does not apply is refused whole.
- QmpWire.ReadLine: the UTF-8 check of the finished line is left out; so is the QMP greeting exchange around it.
- QmpEvents.WaitEqualsFullScan: event data are opaque and the caller's predicate is any pure function of the event.
- Frame.FrameReader.Read: msgpack is an arbitrary function from bodies to messages.
- NbdDisk.DiskState.Flush: a failing write or sync is left out, for the same reason as in `Write`.
- NbdWire.Transmission: the shutdown flag and socket errors are left out.
- Frame.WriteFrame: the message is its encoded body; a failing writer is not modelled.
- Bridges.Bridge.RefreshPartitions: `nft` commands succeed, so the early return on a failing one is left out, and the commands of other bridges are not in the trace, though `TablesCollide` names those that would share the table; the pairs of a set are visited in any order.
- Bridges.Bridge.SetUplink: the intent only; the NAT commands depend on the host's routes and are left out.
- Bridges.Bridge.RealizeForVm: of the failures only the refusal of a root on the bridge's own interface is modelled; by `TapRootIsFree` none on a VM's interface happens. That the kernel agrees is stated for VMs whose interface names differ from each other's and the bridge's, since 28 bits of hash cannot guarantee it; interfaces made by others, privileges and concurrent realisation are left out.
- BridgeGraph.RulesAreExact: asks that the VM names involved have different interface names, since 28 bits of hash cannot guarantee it.
- Unplugging, replugging and tearing down a bridge, and capture guards: they issue fixed commands or count handles, and no result above depends on them.
- BridgeSnapshot.Restore: one bridge at a time; VM processes, NIC attachments and the snapshot's JSON are left out.
- LabTree.FlattenAndRebuild: for labs without a slash in a name, since a slash in a name cannot be told from a level; a lab is a value, so sharing of sub-labs between handles and locks are not captured; maps are walked in any order, and VMs carry nothing but their names.
- Eviction.EvictTo: the directory listing is a parameter, with lab directories' sizes already summed; lock files are left out.
- FixtureScan.ScanFixtureDeps: works on characters where the source indexes bytes; all characters it tests for are ASCII. The `push_file` scanner and its opt-out are left out.
- ShellPrinter.PrintedCommandReadsBack: reserved words and assignments are read as plain words; a bare tilde, like every other character a shell gives a meaning, ends the splitting with no result, and the printer never leaves one bare; arguments that are not Unicode are replaced before printing and are not modelled.
- The scheduler and resource pool, the VM life cycle, the agent and its operations, Lua bindings, profiles and builds: wrappers, I/O, or code outside these components.
