# A verified model of the box runtime's stateful core

This project models, in Dafny, the parts of the box runtime whose correctness is a statement about
whole runs or whole byte streams, and proves those statements. `dafny verify dfyconfig.toml` checks
all of it.

| module | models |
|---|---|
| `ComposeOrder`, `ComposeProject` | the boot order of a compose file (a three-colour depth-first search), a project going up and coming down |
| `SpdyFrames`, `SpdyStreams`, `SpdyWire`, `SpdyClient` | SPDY/3.1 framing, assignment of streams to channels by open order, what frames mean per stream, and a reader for the client's end written from the SPDY draft |
| `SpdyExec`, `SpdyForward` | the exec relay and port forwarding over SPDY |
| `PortForward`, `Sessions` | the port-forward bridge and its framing, one-shot session tokens |
| `Ipam`, `Network` | address allocation in a CIDR block, connecting and disconnecting boxes |
| `LogTail`, `Rotation`, `RotatingWriter`, `AuditLog` | tailing a growing console log, the two rotation schemes |
| `NetProxy` | the connection tables of the userspace network proxy |
| `CriStore` | the persistent CRI state, with crashes |
| `Health` | the health state of a box |
| `Common`, `Bytes`, `Framing` | shared definitions; `Framing` proves once, for any length-prefixed format, what both wire formats need |

An object that updates its fields is a class whose methods are tied to a function on states (`Next`,
`Apply`, ...); the lemmas then speak about every sequence of operations. Two tasks that share a
connection, a file or a flag are a machine whose steps interleave freely. Loops over a hash map
choose the next key with `:|`, so what is proved holds for every iteration order. Clocks, the TCP
stack, the order in which bytes arrive and the point of a crash are parameters of a run.

## Where code and documentation differ

The model follows the code. Each of the first six has a lemma with the exact condition and one with an
input for which the code goes wrong.

- `run_log_processor` promises that no final line is lost (src/core/src/log.rs:209-212). A line
  written between the read that finds the end of the file and the look at the stop flag is lost or
  cut in two: `LogTail.TailIsExact` says exactly when, `LogTail.LastLineLost` is such a run.
- The subnet 255.255.255.254/30 is accepted, and the addition that finds its first host wraps to
  0.0.0.0 in a release build: `Ipam.InsideBlock`, `Ipam.WrapsAround`, `Network.AddressesAreInside`.
- `capacity` counts the addresses that can be allocated only if the network address has no host bits
  set, and nothing clears them: `Ipam.CapacityIsExact`, `Ipam.MiscountedHostBits` (10.0.0.1/24).
- `data_frame` writes a payload of 2^24 bytes or more with a truncated length, and it is misread:
  `SpdyFrames.StreamRoundTrip`, `SpdyFrames.MisreadPayload`. A control frame of a port forward has a
  32-bit length, so its format lets such a payload through: `SpdyForward.ClientDecodesExactlyWhen`.
  An exec chunk reaches `data_frame` through a transport that is not part of this model.
- A client that opens two streams with one identifier gets two FINs on it: `SpdyExec.OneFinEach`,
  `SpdyExec.ClosedTwice`.
- `state` compares two counts, so names that are not in the file can make it report Running with a
  service missing: `ComposeProject.StrangersMislead`, `ComposeProject.MisledByOne`. A file without
  services is Stopped, never Running, unless strangers are registered; then it is Partial.
- `RotatingWriter` keeps one archive fewer than `max_file` (one if that is 0, 1 or 2), because it
  shifts before it removes; the audit log removes first and keeps `max_files` (one if that is 0).
- The head comment of src/cri/src/spdy.rs says that SYN_REPLY is never sent; the code sends one for
  every SYN_STREAM.

## Model

| member | source | states |
|---|---|---|
| `ComposeOrder.DependsOn.Services` | src/core/src/compose.rs:255-261 | the dependency names, a list unchanged, a map's keys each once in any order |
| `ComposeOrder.TopoVisit` | src/core/src/compose.rs:384-418 | a visit ends, keeps finished services sorted and unfinished ones a path of the graph, only ever adds to the order, and every error it reports is true of the file |
| `ComposeOrder.ServiceOrder` | src/core/src/compose.rs:370-382 | for every iteration order, Ok exactly when all dependencies are defined and the graph has no cycle; then a duplicate-free permutation with every dependency first |
| `ComposeOrder.ClosingEdge` | src/core/src/compose.rs:390-396 | meeting an in-progress service means there is a cycle through it |
| `ComposeOrder.FinishKeepsState` | src/core/src/compose.rs:416-417 | finishing a service whose dependencies are listed keeps the order sorted and takes it off the path |
| `ComposeOrder.PathMovesLeft` | src/core/src/compose.rs:370-418 | in a sorted order every dependency path leads strictly to the left |
| `ComposeOrder.SortedMeansAcyclic` | src/core/src/compose.rs:370-418 | a sorted permutation exists only for a graph without cycles and undefined names |
| `ComposeProject.Project.constructor` | src/runtime/src/compose.rs:81-88 | a new project has nothing running |
| `ComposeProject.FindUnknownCondition` | src/runtime/src/compose.rs:429-450 | finds a dependency with an unknown condition exactly when there is one |
| `ComposeProject.Project.WithBaseDir` | src/runtime/src/compose.rs:52-89 | a project is made exactly when images, ports and conditions are valid and the order exists, and it holds a boot order of its services; what a rejection says is true of the file |
| `ComposeProject.Project.State` | src/runtime/src/compose.rs:92-100 | the state is the comparison of counts that `StateIsExact` and `StrangersMislead` judge |
| `ComposeProject.Project.RegisterService` | src/runtime/src/compose.rs:245-247 | the service is registered, the others stay |
| `ComposeProject.Project.UnregisterService` | src/runtime/src/compose.rs:250-252 | the service is no longer registered, the others stay |
| `ComposeProject.Project.ShutdownOrder` | src/runtime/src/compose.rs:260-264 | as long as the boot order, with mirrored positions |
| `ComposeProject.RunningAfter` | src/runtime/src/compose.rs:245-264 | after every step of a boot, complete or not, and the whole shutdown after it, the running services are a leading segment of the boot order |
| `ComposeProject.BoxesAreTheirOwn` | src/runtime/src/compose.rs:245-252 | every running service is registered with the box started for it |
| `ComposeProject.EveryStepIsClosed` | src/runtime/src/compose.rs:245-264 | after every step of a boot, complete or not, and the whole shutdown after it, the running services are closed under dependency and `state` tells the truth; at the end nothing runs |
| `ComposeProject.LeadingSegmentIsClosed` | src/runtime/src/compose.rs:245-264 | every leading segment of a boot order is closed under dependency |
| `ComposeProject.StateIsExact` | src/runtime/src/compose.rs:92-100 | Stopped exactly when nothing runs and Running exactly when everything does, if only services of the file are registered |
| `ComposeProject.ReportedRunning` | src/runtime/src/compose.rs:92-100 | for any registered names, Running is reported exactly when something runs and strangers and missing services balance |
| `ComposeProject.StrangersMislead` | src/runtime/src/compose.rs:92-100 | for any registered names, the state is right if and only if there are no strangers or they do not number as many as the missing services |
| `ComposeProject.MisledByOne` | src/runtime/src/compose.rs:92-100 | two services, one of them missing and one stranger: reported as Running |
| `SpdyFrames.DataRead` | src/cri/src/spdy.rs:146-198 | a DATA frame is read with its 31-bit identifier, its FIN and the part of the payload its 24-bit length counts |
| `SpdyFrames.PingRead` | src/cri/src/spdy.rs:201-205 | a PING is read back with its identifier |
| `SpdyFrames.SynReplyRead` | src/cri/src/spdy.rs:95-110 | a SYN_REPLY is skipped as a whole |
| `SpdyFrames.SynStreamRead` | src/cri/src/spdy.rs:162-169 | a SYN_STREAM is read with its 31-bit identifier, whatever its flags and header block |
| `SpdyFrames.ClientPingRead` | src/cri/src/spdy.rs:171-174 | the twelve bytes of a client's PING are read with its identifier |
| `SpdyFrames.DataReadBack` | src/cri/src/spdy.rs:146-198 | nothing but its encoding is read as a DATA frame, if no flag but FIN is set |
| `SpdyFrames.AllReadable` | src/cri/src/spdy.rs:146-185 | whatever the bytes, stream identifiers read from them have 31 bits and payloads fewer than 2^24 bytes |
| `SpdyFrames.FrameNeedsAll` | src/cri/src/spdy.rs:146-158 | no proper part of a frame is read as a frame |
| `SpdyFrames.CutStream` | src/cri/src/spdy.rs:95-205 | a writer cut off after any byte delivers a leading part of the frames, and not all of them |
| `SpdyFrames.FrameRoundTrip` | src/cri/src/spdy.rs:95-205 | a written frame that fits is read back and what follows it is untouched |
| `SpdyFrames.OverlongRead` | src/cri/src/spdy.rs:188-198 | a payload that does not fit is read as a different frame, without an error |
| `SpdyFrames.StreamRoundTrip` | src/cri/src/spdy.rs:95-205 | the bytes of any list of frames are read back as exactly that list if and only if every payload is below 2^24 |
| `SpdyFrames.MisreadPayload` | src/cri/src/spdy.rs:188-198 | a payload of 2^24 bytes is read as an empty frame followed by its own bytes |
| `SpdyStreams.ExpectedChannels` | src/cri/src/spdy.rs:209-224 | exactly the channels of the session, each once, in the protocol's order |
| `SpdyStreams.CollectStreams` | src/cri/src/spdy.rs:228-268 | for every interleaving of frames, the i-th channel gets the i-th SYN_STREAM identifier, frames are consumed and answered up to the last needed one and no further, and it fails exactly on an end inside a payload before that |
| `SpdyStreams.AnswersMirrorFrames` | src/cri/src/spdy.rs:228-268 | one reply per consumed SYN_STREAM, one echo per consumed PING, in order, and nothing else |
| `SpdyStreams.AssignedAt` | src/cri/src/spdy.rs:239-247 | the map holds the i-th identifier for the i-th channel and no other channel |
| `SpdyStreams.DistinctIdsDistinctStreams` | src/cri/src/spdy.rs:239-247 | distinct client identifiers give distinct streams |
| `SpdyClient.ReplySeen` | src/cri/src/spdy.rs:95-110 | a peer that follows the draft reads a SYN_REPLY of that stream, without FIN, with its header block |
| `SpdyClient.PongSeen` | src/cri/src/spdy.rs:201-205 | and a PING with its identifier |
| `SpdyClient.SeenRoundTrip` | src/cri/src/spdy.rs:95-205 | and every frame that fits, leaving what follows untouched |
| `SpdyClient.SeenExactly` | src/cri/src/spdy.rs:95-205 | the client sees exactly the frames written, header blocks included, if and only if every payload is below 2^24 |
| `SpdyClient.StreamsAgree` | src/cri/src/spdy.rs:146-185 | on any bytes, the server's reader and the client's cut the same frames and agree on their data |
| `SpdyClient.ClientSeesAnswers` | src/cri/src/spdy.rs:228-268 | whatever bytes open the streams, the client finds one SYN_REPLY per stream it opened, in order, and one echo per PING |
| `SpdyExec.LiveWire` | src/cri/src/spdy.rs:340-427 | while both tasks run, the wire holds exactly what the chunks and PINGs so far make it hold |
| `SpdyExec.CompletedOutput` | src/cri/src/spdy.rs:375-427 | in every run that completes, an output stream carries the guest's chunks for it, in order, then one FIN and nothing after it |
| `SpdyExec.CompletedError` | src/cri/src/spdy.rs:399-417 | the error stream carries a status body exactly when a nonzero exit was seen, then one FIN |
| `SpdyExec.ReportedCode` | src/cri/src/spdy.rs:378-402 | the code is that of the exit event, and zero if the events just end |
| `SpdyExec.FinishInOrder` | src/cri/src/spdy.rs:406-418 | the closing sequence: status and FIN on error, FIN on stdout, FIN on stderr, each if opened |
| `SpdyExec.CompletedEchoes` | src/cri/src/spdy.rs:340-427 | every PING handled was echoed once, in order |
| `SpdyExec.OneFinEach` | src/cri/src/spdy.rs:399-417 | every opened stream gets exactly one FIN if and only if no two share an identifier |
| `SpdyExec.ClosedTwice` | src/cri/src/spdy.rs:399-417 | a run in which one identifier for two streams is closed twice |
| `SpdyExec.NothingAfterwards` | src/cri/src/spdy.rs:423-427 | once a task has ended, nothing more happens |
| `SpdyExec.StdinWhileLive` | src/cri/src/spdy.rs:340-372 | the guest's input is exactly what the client sent on the stdin stream, closed once if a frame with FIN on it was read and not at all otherwise |
| `SpdyExec.StdinGrows` | src/cri/src/spdy.rs:340-372 | what the guest was given is never taken back, and no write is empty |
| `SpdyExec.ClosedAfterTheLastByte` | src/cri/src/spdy.rs:354-360 | the close comes right after all that was sent up to and with the first FIN |
| `SpdyExec.ClientGone` | src/cri/src/spdy.rs:364-369 | when the client goes away the guest has all of its input and exactly one close |
| `SpdyExec.CollectedIds` | src/cri/src/spdy.rs:228-320 | the streams opened by any bytes have 31-bit identifiers, and distinct ones if the client chose distinct ones |
| `SpdyExec.StreamOf` | src/cri/src/spdy.rs:317-320 | each channel uses the stream at its own place in the client's open order |
| `SpdyExec.ClientReadsOutput` | src/cri/src/spdy.rs:95-427 | end to end, a client that decodes all bytes of a session gets, on the stream it opened for stdout or stderr, exactly the bytes the guest wrote there |
| `SpdyExec.ClientReadsStatus` | src/cri/src/spdy.rs:95-427 | and on the one it opened for errors the status of a nonzero exit, or nothing |
| `SpdyExec.GuestReadsInput` | src/cri/src/spdy.rs:228-372 | and the guest gets what the client wrote on the stream it opened for stdin |
| `SpdyForward.CollectPair` | src/cri/src/spdy.rs:745-784 | for every interleaving of frames, the first two SYN_STREAMs are the error and the data stream, and frames are answered up to there |
| `SpdyForward.RunKeepsInv` | src/cri/src/spdy.rs:823-938 | in every state of every run, control frames and written frames agree with what each side sent |
| `SpdyForward.GuestSeesPrefix` | src/cri/src/spdy.rs:823-881 | at every moment what the guest can decode is a leading part of what the client put on the data stream |
| `SpdyForward.GuestSeesAll` | src/cri/src/spdy.rs:823-881 | once the client is done, the guest has seen a CLOSE if and only if everything is out, and then all data and exactly one CLOSE, last |
| `SpdyForward.GuestSeesClientBytes` | src/cri/src/spdy.rs:823-881 | through both formats, what the guest has is a leading part of what the client's own frames carry on the stream |
| `SpdyForward.ClientSeesPrefix` | src/cri/src/spdy.rs:884-923 | at every moment what the client can decode on the stream is a leading part of the guest's DATA up to its first CLOSE |
| `SpdyForward.ClientDecodesExactlyWhen` | src/cri/src/spdy.rs:884-923 | the client can decode exactly what was written if and only if every guest payload is below 2^24 bytes |
| `SpdyForward.ClientSeesAll` | src/cri/src/spdy.rs:884-938 | in a run ended by the guest's CLOSE the client has all of its DATA, exactly one FIN, last on the stream, and an echo of every PING handled |
| `SpdyForward.GuestNeverWaits` | src/cri/src/spdy.rs:884-923 | until the run has ended, anything the guest sends can be taken once the writer is idle, which it can always be made |
| `SpdyForward.ClientNeverWaits` | src/cri/src/spdy.rs:823-881 | likewise for the client |
| `PortForward.FrameRoundTrip` | src/cri/src/streaming.rs:837-881 | a frame is read back whatever follows it |
| `PortForward.ReadIsEncoding` | src/cri/src/streaming.rs:837-881 | nothing but its encoding is read as a frame |
| `PortForward.FrameNeedsAll` | src/cri/src/streaming.rs:857-881 | no proper part of a frame is read as a frame |
| `PortForward.StepKeepsInv` | src/cri/src/streaming.rs:733-790 | every step of either direction keeps the bytes handed over equal to the frames' and the client's bytes equal to the guest's DATA up to its first CLOSE |
| `PortForward.RunKeepsInv` | src/cri/src/streaming.rs:733-790 | so it holds in every state of every run |
| `PortForward.GuestSeesPrefix` | src/cri/src/streaming.rs:733-758 | at every moment, however reads and writes were cut, what the guest can decode is a leading part of what the client sent |
| `PortForward.GuestSeesAll` | src/cri/src/streaming.rs:733-758 | once the client's stream has ended, the guest has seen a CLOSE if and only if all bytes are out, and then it has all of the client's bytes and exactly one CLOSE, last |
| `PortForward.ClientSeesGuest` | src/cri/src/streaming.rs:760-790 | the client has exactly the stream's DATA payloads up to the first CLOSE, which ends the bridge |
| `PortForward.GuestNeverWaits` | src/cri/src/streaming.rs:760-776 | until the bridge has ended, whatever the guest sends can be taken |
| `PortForward.ClientNeverWaits` | src/cri/src/streaming.rs:733-758 | and whatever the client sends, once the frame before it is out, which it can always be |
| `PortForward.ControlBytes` | src/cri/src/streaming.rs:837-855 | the control frames of the bridge, byte by byte |
| `Framing.WholePieces` | src/cri/src/streaming.rs:837-881 | for any format, whole frames written in a row are read back in order |
| `Framing.CutAnywhere` | src/cri/src/streaming.rs:837-881 | for any format, a writer cut off after any byte delivers a leading part of the frames, and not all of them |
| `Sessions.SessionStore.constructor` | src/cri/src/streaming.rs:158-165 | no sessions at first |
| `Sessions.SessionStore.PruneExpired` | src/cri/src/streaming.rs:112-126 | exactly the sessions whose expiry has come are gone |
| `Sessions.SessionStore.Register` | src/cri/src/streaming.rs:238-250 | expired sessions go and the new one is stored with its expiry |
| `Sessions.SessionStore.Connect` | src/cri/src/streaming.rs:298-312 | a live session of the named operation is granted and removed, any other request is refused and removes only what expired |
| `Sessions.StoredIsOutstanding` | src/cri/src/streaming.rs:238-312 | whatever is stored was registered and not granted since |
| `Sessions.OutstandingIsStored` | src/cri/src/streaming.rs:238-312 | whatever was registered, not granted and not expired is stored |
| `Sessions.GrantedExactlyWhen` | src/cri/src/streaming.rs:238-312 | over every interleaving, a request succeeds if and only if its token was registered for that operation, not granted since, and has not expired; it gets the session registered |
| `Sessions.GrantedOnce` | src/cri/src/streaming.rs:298-312 | no token is granted twice |
| `Sessions.OutstandingAnswer` | src/cri/src/streaming.rs:298-312 | how any request for an outstanding token is answered: by expiry and operation alone |
| `Sessions.AnsweredExactly` | src/cri/src/streaming.rs:298-312 | over every interleaving, the whole answer: not found exactly when no registration is outstanding and younger than 60 seconds, otherwise the operation decides |
| `Sessions.MismatchDoesNotConsume` | src/cri/src/streaming.rs:298-312 | after a mismatch, a later request for the same token, if it was not granted since, is answered by its registration alone: the right one in time gets the registered session |
| `Sessions.SegmentsDiffer` | src/cri/src/streaming.rs:137-143 | different operations have different path segments |
| `Sessions.SegmentNames` | src/cri/src/streaming.rs:137-143 | the three path segments |
| `Ipam.New` | src/core/src/network.rs:248-281 | accepted exactly for prefixes 1 to 30 and a network address with a successor |
| `Ipam.Allocate` | src/core/src/network.rs:309-327 | the loop finds what the search function finds, which `LowestFreeIsLowest` characterises |
| `Ipam.LowestFreeIsLowest` | src/core/src/network.rs:309-327 | the address found is free and every lower candidate is in use; none is found only if all are in use |
| `Ipam.BroadcastIsLast` | src/core/src/network.rs:294-299 | the bitwise-or is the last address of the block, and the block ends within 32 bits |
| `Ipam.InsideBlock` | src/core/src/network.rs:294-327 | an allocated address lies strictly between gateway and broadcast if and only if network + 2 is below 2^32, and then it has the network's prefix |
| `Ipam.WrapsAround` | src/core/src/network.rs:315-316 | 255.255.255.254/30 hands out 0.0.0.0 first |
| `Ipam.UsableCount` | src/core/src/network.rs:294-327 | how many addresses the loop can ever return |
| `Ipam.CapacityIsExact` | src/core/src/network.rs:302-306 | `capacity` is that number if and only if the network address has no host bits set |
| `Ipam.MiscountedHostBits` | src/core/src/network.rs:302-306 | 10.0.0.1/24 is accepted and has a capacity it cannot fill |
| `Ipam.MacInjective` | src/core/src/network.rs:331-337 | different addresses have different MAC addresses |
| `Ipam.MacText` | src/core/src/network.rs:331-337 | the text of a MAC address, octet by octet |
| `Ipam.MacExample` | src/core/src/network.rs:331-337 | the MAC address of 10.88.0.2 |
| `Network.KeptAliases` | src/core/src/network.rs:466-470 | exactly the aliases that are not empty and not the box's name, as often as they were given |
| `Network.KeptInOrder` | src/core/src/network.rs:466-470 | they keep their order |
| `Network.NetworkConfig.constructor` | src/core/src/network.rs:423-436 | a new network has no endpoints |
| `Network.NetworkConfig.Create` | src/core/src/network.rs:423-436 | a network exists exactly for the accepted subnets |
| `Network.NetworkConfig.UsedIps` | src/core/src/network.rs:459-459 | exactly the addresses of the endpoints, for every order of the map |
| `Network.NetworkConfig.ConnectWithAliases` | src/core/src/network.rs:445-477 | a connected box is refused, a full subnet is an error, otherwise the endpoint gets the lowest free address and only it is added |
| `Network.NetworkConfig.Disconnect` | src/core/src/network.rs:480-487 | the endpoint is returned and removed, or the box was not connected and nothing changes |
| `Network.StepEffect` | src/core/src/network.rs:445-487 | a connect or disconnect changes nothing but the box it names |
| `Network.HistoryKeepsInv` | src/core/src/network.rs:445-487 | after any history, endpoints have distinct usable addresses and the MAC of their address |
| `Network.AddressesAreDistinct` | src/core/src/network.rs:445-487 | after any history, two boxes have different addresses and different MAC addresses |
| `Network.AddressesAreInside` | src/core/src/network.rs:445-487 | after any history, every address lies inside the block with its prefix if and only if network + 2 is below 2^32 |
| `Network.NewAddressIsLowest` | src/core/src/network.rs:458-460 | every usable address below a newly given one is in use |
| `Network.FullExactlyWhen` | src/core/src/network.rs:451-460 | after any history, connecting a new box fails if and only if there are as many endpoints as allocatable addresses |
| `Network.FullAtCapacity` | src/core/src/network.rs:294-327 | which is `capacity`, for a network address without host bits |
| `Network.RoomAfterDisconnect` | src/core/src/network.rs:445-487 | after a disconnect any box that is not connected can be |
| `LogTail.TrimStripsLineEnds` | src/core/src/log.rs:205-205 | only trailing line ends are stripped, and all of them |
| `LogTail.TrimmedAt` | src/core/src/log.rs:205-205 | each line is trimmed by itself, in place |
| `LogTail.PiecesPartition` | src/core/src/log.rs:182-207 | the lines of a text are a partition of it, each with its only newline last |
| `LogTail.RunKeepsInv` | src/core/src/log.rs:182-207 | in every state of every schedule, exactly the completed lines were returned and the rest is buffered |
| `LogTail.RunKeepsHead` | src/core/src/log.rs:186-195 | what was returned before a flush is the lines of the text up to it |
| `LogTail.TailIsExact` | src/core/src/log.rs:182-207 | for every growth of the file and every schedule, a finished run returned exactly the lines of the final content if and only if nothing was appended between the last empty read and the look at the flag that first found it set |
| `LogTail.LastLineLost` | src/core/src/log.rs:186-195 | a run that loses the last line |
| `LogTail.ReaderNeverWaits` | src/core/src/log.rs:182-207 | whatever the VM does, the reader has a step to take until it has finished |
| `LogTail.LooksAgain` | src/core/src/log.rs:187-197 | a look at a flag that is not set leads back to reading |
| `LogTail.ReaderCatchesUp` | src/core/src/log.rs:182-207 | before the stop, whenever the reader is behind, every step it takes brings it closer to the file |
| `LogTail.LinesArriveBeforeTheStop` | src/core/src/log.rs:182-207 | from every state of every run before the stop, the reader alone gets to where every completed line is returned and the rest is held |
| `LogTail.ReaderProgresses` | src/core/src/log.rs:182-207 | once the flag is set every step brings the reader closer to the end |
| `Rotation.ShiftUp` | src/core/src/log.rs:403-409 | after the renames every slot holds what was one below it |
| `Rotation.ArchivedShift` | src/core/src/log.rs:403-415 | shifting and filling slot 1 appends the active file to the archived lines |
| `Rotation.RotateContiguous` | src/core/src/log.rs:402-420 | a rotation keeps archives contiguous and the end of what was archived |
| `RotatingWriter.Writer.constructor` | src/core/src/log.rs:385-389 | the tracked size starts as the size of the file |
| `RotatingWriter.Writer.WriteLine` | src/core/src/log.rs:391-400 | the line is appended, and the file is rotated once it has reached the limit |
| `RotatingWriter.Writer.Rotate` | src/core/src/log.rs:402-420 | every slot after a rotation, for any archives before it |
| `RotatingWriter.KeepsTheEnd` | src/core/src/log.rs:391-420 | after any writes, exactly min(rotations, limit) archives exist, and they and the active file are the end of everything written, without gap or repeat |
| `RotatingWriter.NothingLostYet` | src/core/src/log.rs:391-420 | until more files were archived than are kept, nothing is missing |
| `RotatingWriter.StaysBelowLimit` | src/core/src/log.rs:391-400 | after every write the active file is below a nonzero limit |
| `RotatingWriter.ArchivesAreFull` | src/core/src/log.rs:396-398 | a file is archived only when it has reached the limit |
| `AuditLog.Audit.constructor` | src/runtime/src/audit.rs:35-60 | the tracked size starts as the size of the file |
| `AuditLog.Audit.LogEvent` | src/runtime/src/audit.rs:70-117 | nothing if disabled; otherwise a full file is rotated first and the event appended |
| `AuditLog.Audit.Rotate` | src/runtime/src/audit.rs:120-155 | every slot after a rotation, for any files before it |
| `AuditLog.KeepsTheEnd` | src/runtime/src/audit.rs:70-155 | after any events and restarts, exactly min(rotations, limit) rotated files exist, they and the active file are the end of the event history, and the tracked size is the real one |
| `AuditLog.NothingLostYet` | src/runtime/src/audit.rs:70-155 | until more files were moved aside than are kept, no event is missing |
| `AuditLog.SizeIsBounded` | src/runtime/src/audit.rs:80-116 | the active file outgrows the limit by less than its last event |
| `AuditLog.ArchivesAreFull` | src/runtime/src/audit.rs:80-83 | a file is moved aside only when it has reached the limit |
| `NetProxy.AddKeepsBalance` | src/netproxy/src/lib.rs:298-303 | taking in one new handle keeps the socket set equal to the DNS handle and the disjoint union of all tables |
| `NetProxy.DropKeepsBalance` | src/netproxy/src/lib.rs:446-465 | letting go of handles together with their sockets keeps it too |
| `NetProxy.PromotedHolds` | src/netproxy/src/lib.rs:340-364 | promotion loses exactly the failed connections and duplicates none |
| `NetProxy.CleanedHolds` | src/netproxy/src/lib.rs:446-465 | cleanup loses exactly the connections that are gone and duplicates none |
| `NetProxy.PromotedExactly` | src/netproxy/src/lib.rs:340-364 | by the socket states alone: which connections are active and which still wait after promotion |
| `NetProxy.CleanedExactly` | src/netproxy/src/lib.rs:446-465 | by the socket states alone: which connections are active after cleanup |
| `NetProxy.DroppedExactly` | src/netproxy/src/lib.rs:350-356 | the sockets that go are those of connections that are Closed, TimeWait or CloseWait |
| `NetProxy.PassKeepsOrder` | src/netproxy/src/lib.rs:340-364 | a pass keeps the order, and promoted connections come after the active ones |
| `NetProxy.AcceptedExactly` | src/netproxy/src/lib.rs:296-303 | accepting adds exactly the arrivals of a forward, behind those that wait |
| `NetProxy.PromotePending` | src/netproxy/src/lib.rs:341-363 | no lookup misses; established connections follow the active ones in order, failed ones go with their sockets, the rest stay |
| `NetProxy.CleanActive` | src/netproxy/src/lib.rs:448-464 | no lookup misses; exactly the connections that are gone leave with their sockets |
| `NetProxy.ProxyEngine.constructor` | src/netproxy/src/lib.rs:196-236 | the set holds the DNS socket and nothing else |
| `NetProxy.ProxyEngine.OpenGuestTcp` | src/netproxy/src/lib.rs:313-336 | a new socket, and the next local port of the wrapping counter |
| `NetProxy.ProxyEngine.AcceptConnections` | src/netproxy/src/lib.rs:278-310 | every arrival waits in its forward with a socket of its own, and the sockets that were there stay |
| `NetProxy.ProxyEngine.PromoteEstablished` | src/netproxy/src/lib.rs:340-364 | the promotion of every forward, with tables and set in agreement |
| `NetProxy.ProxyEngine.Cleanup` | src/netproxy/src/lib.rs:446-465 | the cleanup of every forward, with tables and set in agreement |
| `NetProxy.ProxyEngine.RunOnce` | src/netproxy/src/lib.rs:244-266 | one turn accepts, promotes and cleans every forward and keeps the agreement, whatever the TCP stack does; every handle that is looked up is there |
| `NetProxy.ProxyEngine.Run` | src/netproxy/src/lib.rs:238-274 | so does every run |
| `NetProxy.PortsAreDistinct` | src/netproxy/src/lib.rs:323-327 | local ports stay in 49152..65535, and any 16384 consecutive ones are distinct |
| `CriStore.SnapshotRoundTrip` | src/cri/src/persistent_store.rs:30-48 | loading a snapshot gives back the stores, whatever the order of its lists |
| `CriStore.PersistentCriStore.constructor` | src/cri/src/persistent_store.rs:21-27 | the stores start empty |
| `CriStore.PersistentCriStore.Load` | src/cri/src/persistent_store.rs:30-39 | the stores become what the file says, and an unreadable file is an error |
| `CriStore.PersistentCriStore.Snapshot` | src/cri/src/persistent_store.rs:43-46 | the lists hold exactly the stored records, for every order of the maps |
| `CriStore.PersistentCriStore.WriteTmp` | src/cri/src/state.rs:55-55 | the first disk step of a save, as crashes see it |
| `CriStore.PersistentCriStore.Rename` | src/cri/src/state.rs:56-56 | the second disk step of a save, as crashes see it |
| `CriStore.PersistentCriStore.Persist` | src/cri/src/persistent_store.rs:42-48 | a snapshot of the stores is saved, and afterwards the file loads as exactly what is in memory |
| `CriStore.PersistentCriStore.Mutate` | src/cri/src/persistent_store.rs:52-167 | every mutator is a step of a run without a crash, returns exactly the records that disappeared, and leaves file and memory in agreement |
| `CriStore.PersistentCriStore.Change` | src/cri/src/persistent_store.rs:52-167 | each change is the specified one, whether anything changed is reported, and exactly the records that disappeared are returned |
| `CriStore.PersistentCriStore.Mark` | src/cri/src/container.rs:232-294 | the guarded transitions happen exactly from their state, the others from any |
| `CriStore.PersistentCriStore.RemoveAllOf` | src/cri/src/container.rs:297-306 | exactly the containers of the sandbox are removed and returned |
| `CriStore.StartEffect` | src/cri/src/container.rs:232-258 | what a start records, from which state, and that nothing else changes |
| `CriStore.ExitEffect` | src/cri/src/container.rs:260-294 | what an exit records, from which state, and that nothing else changes |
| `CriStore.AddAndRemoveEffect` | src/cri/src/container.rs:177-192 | adding stores exactly the given record and removing removes exactly the named one |
| `CriStore.UpdateEffect` | src/cri/src/sandbox.rs:128-136 | a sandbox gets the new state and keeps the rest |
| `CriStore.SandboxEffect` | src/cri/src/container.rs:297-306 | every container of the sandbox goes and no other |
| `CriStore.CrashIsAtomic` | src/cri/src/state.rs:46-70 | a crash at any point followed by a load gives exactly the stores before the mutation or after it, the latter exactly when the rename happened |
| `CriStore.RunIsSurviving` | src/cri/src/persistent_store.rs:30-167 | over any run with crashes and restarts, stores and file are what the mutations that reached their rename make of an empty state |
| `CriStore.FirstExitIsKept` | src/cri/src/container.rs:244-294 | with only the guarded transitions, through crashes and restarts, a container never moves back and its first exit record never changes |
| `CriStore.RunsBeforeItExits` | src/cri/src/container.rs:244-294 | and between created and exited it was running |
| `CriStore.ExitIsRecorded` | src/cri/src/container.rs:273-294 | a surviving exit of a running container: in every later state it has exactly that finish time, exit code and OOM flag, and its other fields from before |
| `CriStore.StartIsRecorded` | src/cri/src/container.rs:244-258 | a surviving start: in every later state it has exactly that start time |
| `Health.BoxRecord.ApplyProbeResult` | src/cli/src/health.rs:148-169 | the record after a probe, and only the health fields change |
| `Health.BoxRecord.ApplyBootResult` | src/cli/src/boot.rs:86-124 | a boot resets health, process, signal and exit fields, updates the restart count as asked, keeps the socket path unless given one, and adds each missing anonymous volume once, after the old ones |
| `Health.HealthIsHistory` | src/cli/src/health.rs:148-169 | for every probe sequence since a boot, the counter is the trailing failures capped at u32::MAX, and the status is unhealthy iff they reach max(1, retries), else healthy iff any probe succeeded, else starting |
| `Health.DueExactlyWhen` | src/cli/src/health.rs:125-145 | under a monotone clock a probe is due exactly when the start period is over and the interval has passed since every earlier probe |
| `Health.ProbesAreSpaced` | src/cli/src/health.rs:125-145 | under a monotone clock any two probes are at least max(1, interval) seconds apart |
| `Health.NothingToProbe` | src/cli/src/health.rs:125-152 | no probe without a health check or on a box that is not running, and no effect of a late result on one |

## Left out

- The log tail, the exec relay and the two port-forward relays are machines of steps, not methods with loops, because a file, a flag or a connection changes between any two steps of theirs.
- `serve_attach` and the TTY relay of src/cri/src/spdy.rs: the exec relay again, with PTY frames or a broadcast channel on the guest's side.
- The exec relay's writes are whole frames; a last frame cut short because the client went away in the middle of it is not modelled.
- The OPEN handshake of both port forwards and HTTP request parsing: straight-line code around what is modelled.
- zlib header blocks (any short byte string), gzip (an archive is its content), JSON and YAML (a file is a complete state or torn), UUIDs (tokens are assumed fresh) and the text form of addresses and subnets.
- Port mapping syntax: a service carries the parser's verdict.
- The console noise filter, text that is not UTF-8, and appends that end inside a character.
- I/O errors, except an end of stream inside a frame and a state file that does not parse.
- Concurrent callers of the persistent store: no lock spans mutation, snapshot and save, so only one mutation at a time is modelled.
- Network proxy payload bytes, DNS forwarding, and the accept loop over the listeners, whose result is a parameter. `SocketSet::add` is assumed to return a handle that is not in the set.
- Overflow of chrono durations and timestamps, and of 64-bit byte counters.
- `Ipam6`, network policies and peer endpoints: nothing harder than what is here.
