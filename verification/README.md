# Verification of multio's message aggregation

A Dafny model of the parts of multio whose correctness is hard to see from any one function, with proofs
of what they promise. multio is an I/O server: clients send descriptions of their part of a grid, masks
and fields, and a server assembles and routes them.

`dafny verify dfyconfig.toml` checks everything.

| files | what they model |
|---|---|
| `Bits`, `BinaryUtils`, `Arithmetic` | machine words, and the bit-counting helper the codec uses |
| `MaskRuns`, `MaskHeader`, `MaskFormat`, `MaskEncode`, `MaskDecode`, `MaskRoundTrip` | the mask codec: two payload formats, the sizing pass, the encoders, the two stateful iterators, and the round trips |
| `Domains`, `Partition`, `Mappings`, `Registry` | local domains with halos, scatter and index collection, the registry of domains, its two notions of being complete, and how long they last |
| `Messages`, `Rounds`, `MaskAssembly`, `Listener`, `Dispatcher` | the server's components |
| `FieldAssembly`, `GlobalMask`, `Network`, `Progress`, `Pacing`, `SingleClient`, `TwoClients` | the protocol: what the server holds after any history, what that means in every run of clients, channels, listener and dispatcher, which runs end, how clients have to synchronize, the smallest use of it all, and the smallest misuse |
| `SharedMetadata`, `MessageHeader`, `MetadataRuns`, `MultioClient` | copy-on-write metadata, cached field identifiers, and the fan-out of a Flush |
| `Matcher` | the compilation of nested matcher configurations |
| `PdtCategories`, `PdtChoices`, `DecisionTree` | which product definition template (Code Table 4.0 of WMO FM 92 GRIB Edition 2) a choice of category values selects, and the decision tree that finds it |
| `Parametrization`, `Trigger`, `IOStats` | three small state machines |
| `Sets`, `Wrappers` | facts about finite sets, and shared result types |

Classes with mutable fields are modelled as classes. A method is proved against a function of the old
state (`Handle`, `Step`, `AddMask`, ...), and the results about runs are lemmas about these functions.

What the model takes for granted, beyond what the code checks:

- Masks have at least one and fewer than 2^32 values. Grids have fewer than 2^31 cells; a local domain is
  a non-empty rectangle inside its grid, with any halo. Anything else runs into undefined behaviour or
  integer overflow in the source.
- Two messages have the same field identifier exactly when their metadata are equal: the identifier is
  the printed metadata.
- Clients open first and close last, agree on the domains, declare as partial size the total local size
  of all peers of a domain, describe their domain before they send masks on it, and send only
  parametrization values on which they agree and messages over which no plan raises (`GoodClients`). These
  are conditions on the clients' scripts; the interleaving is arbitrary.
- A mask payload does not make the decoder read past its buffer (`Defined`); payloads it throws on are
  covered.
- Parametrization payloads are little-endian, with IEEE 754 floating-point values.
- Being built in rounds needs the masks of a field to be separated by synchronizations where several peers
  send it more than once (`Paced`). `PacedIffBuilt` shows that this condition on the scripts is exact, and
  `BuiltFromOneClient` gives scripts and a run for which it fails.

Results that differ from what one might expect of the source:

- The decoder assembles run lengths in `int`, so a run longer than 2^31 comes back wrong, while reading
  the same payload value by value still works if that run is the last one (`LongRunIsMisread`,
  `LongRunHidesTheNext`).
- The comment on the header reserves two bits for the format; the code uses one, and gives the second to
  the start value. The error message that names 1^32-1 means 2^32-1.
- The documentation of the parametrization allows sending a key again with the same value; with a NaN in
  the value this raises.
- `bitWidth` is one short for 2^63.
- The trigger raises if a listed value appears after a later one, at the next change or, at the latest,
  in its destructor.
- The decision tree never goes back to a default, so it can miss a selector all of whose values are given
  (`MissedSelector`; `FoundIffNotDiverted` says exactly when).
- Masks are counted, not told apart by sender, so a client that runs ahead has a field built from two of
  its own masks (`BuiltFromOneClient`).
- The consistency flag of a domain map is never cleared, so the map goes on to count as complete when a
  further peer registers (`FlagMeansPartition`).

## Model

| member | source | states |
|---|---|---|
| BinaryUtils.NextPowOf2IsNext | src/multio/util/BinaryUtils.h:28-46 | for every word from 1 up to 2^63 - 1 the bit-smearing loop gives the least power of two that is at least the word |
| BinaryUtils.BitWidthIsDigits | src/multio/util/BinaryUtils.h:66-102 | the halving recursion counts the binary digits of every 64-bit word but one: it is right if and only if the word is not 2^63 |
| BinaryUtils.BitWidthBounds | src/multio/util/BinaryUtils.h:88-102 | the width used for run lengths is the least one that holds the value |
| MaskRuns.RunsDescribe | src/multio/domain/MaskCompression.h:47-56 | writing out the runs of a non-empty mask, alternately from its first value, gives the mask back |
| MaskRuns.RunsExpand | src/multio/domain/MaskCompression.h:47-56 | conversely the maximal runs are the only positive lengths that spell the mask |
| MaskRuns.MaskInRun | src/multio/domain/MaskCompression.h:47-56 | every value of the mask is that of the run it lies in, runs alternating from the first value |
| MaskHeader.HeaderRoundTrip | src/multio/domain/MaskCompression.cc:29-86 | encoding a header fails exactly on the two conditions of the source; decoding an encoded header gives it back if and only if the header is representable (width 1 to 64 and a start value only for run length) |
| MaskHeader.HeaderBytesAre | src/multio/domain/MaskCompression.cc:62-86 | the five bytes of a header as numbers: format, start value and width less one in the first, which is zero for a bit mask, then the size with its most significant byte first |
| MaskHeader.DecodedHeaderIs | src/multio/domain/MaskCompression.cc:29-50 | what any five bytes, whatever follows them, are read as |
| MaskEncode.ComputeMaskRunLengthProperties | src/multio/domain/MaskCompression.h:94-134 | one pass finds the number of maximal runs, the least width that holds the longest of them, the first value, and the exact size of the encoded buffer |
| MaskEncode.ComputeBufferSizeMaskBitMask | src/multio/domain/MaskCompression.cc:91-93 | shifts and masks give the header size plus one byte per started group of eight values |
| MaskFormat.WidthFits | src/multio/domain/MaskCompression.h:127-128 | every run fits the chosen width; the width is at most 32, and is 32 exactly when some run is longer than 2^31 |
| MaskEncode.RunLengthWriter.WriteBits | src/multio/domain/MaskCompression.h:192-217 | one round of the loop appends exactly the next bits of the field to the bits written so far, zeroes each byte before using it, steps over byte boundaries, and leaves the header untouched |
| MaskEncode.RunLengthWriter.WriteCounter | src/multio/domain/MaskCompression.h:189-218 | appends the counter less one as one big-endian field, however it straddles bytes; never writes at or past the end of the buffer and never trips its assertion |
| MaskEncode.UpToRoom | src/multio/domain/MaskCompression.h:128-131 | at every value of the mask the sized buffer has room for the field of the open run |
| MaskEncode.UpToEnd | src/multio/domain/MaskCompression.h:183-236 | after the last field the bits written are all fields of all runs, width times number of runs, and nothing else |
| MaskEncode.WriteRuns | src/multio/domain/MaskCompression.h:220-234 | the encoder loop writes the fields of all runs of the mask in order |
| MaskEncode.EncodeMaskRunLength | src/multio/domain/MaskCompression.h:240-243 | the buffer is the header followed by all run fields, filled up with zero bits |
| MaskEncode.EncodeMaskBitMask | src/multio/domain/MaskCompression.h:139-165 | the buffer is the header followed by the values, least significant bit first, filled up with zero bits |
| MaskEncode.EncodeMask | src/multio/domain/MaskCompression.h:248-260 | the buffer is no longer than either format |
| MaskFormat.StreamField | src/multio/domain/MaskCompression.h:189-218 | field number j of the bit stream holds run j less one, bit by bit |
| MaskDecode.HoldsAtEnd | src/multio/domain/MaskCompression.cc:158-195 | once all bits of a field of at most 32 bits are in, the accumulator is the value of the field, except that a field with its 32nd bit set is sign-extended by the `int` arithmetic |
| MaskDecode.SignExtended | src/multio/domain/MaskCompression.cc:171-178 | widening a negative `int` to 64 bits keeps the low 32 bits and sets the others |
| MaskDecode.HoldsLow | src/multio/domain/MaskCompression.cc:169-175 | the branch that finishes a field adds exactly the missing bits |
| MaskDecode.HoldsHigh | src/multio/domain/MaskCompression.cc:176-181 | the branch that crosses into the next byte adds exactly the bits up to the boundary |
| MaskDecode.RunLengthIterator.ReadField | src/multio/domain/MaskCompression.cc:163-190 | the loop reads the field at the cursor and leaves the cursor after it |
| MaskDecode.RunLengthIterator.UpdateValue | src/multio/domain/MaskCompression.cc:158-195 | the iterator moves to the state that the step function gives |
| MaskDecode.MaskPayloadIterator.Advance | src/multio/domain/MaskCompression.cc:241-267 | the value iterator moves to the state that the step function gives, in both formats |
| MaskRoundTrip.RunLengthRoundTrip | src/multio/domain/MaskCompression.cc:99-195 | iterating over the encoding of any non-empty mask below 2^32 values yields exactly its maximal runs and then the end if and only if no run is longer than 2^31 |
| MaskRoundTrip.RunLengthBitsRoundTrip | src/multio/domain/MaskCompression.cc:202-302 | reading the run-length encoding value by value gives the mask if and only if every run but the last is at most 2^31 long |
| MaskRoundTrip.BitMaskRoundTrip | src/multio/domain/MaskCompression.cc:202-302 | reading the bit-mask encoding value by value gives the mask, always |
| MaskRoundTrip.EncodeMaskRoundTrip | src/multio/domain/MaskCompression.h:248-256 | `encodeMask` and then decoding is the identity if and only if the bit mask was chosen or every run but the last is at most 2^31 long |
| MaskRoundTrip.ShortMaskRoundTrip | src/multio/domain/MaskCompression.h:240-260 | every mask of at most 2^31 values survives both formats and both ways of decoding |
| MaskRoundTrip.LongRunIsMisread | src/multio/domain/MaskCompression.cc:158-195 | a mask of 2^31 + 1 equal values does not come back as its single run, although its values do |
| MaskRoundTrip.LongRunHidesTheNext | src/multio/domain/MaskCompression.cc:202-302 | an input on which the round trip fails: for a run of more than 2^31 values followed by one other value `encodeMask` picks run length, and the mask does not come back |
| MaskRoundTrip.RejectedIs | src/multio/domain/MaskCompression.cc:29-50 | a payload on which the decoder throws, in its own bytes: no five bytes, or a bit mask whose size is not five and one bit for each value |
| MaskRoundTrip.DecodesUnique | src/multio/domain/MaskCompression.cc:241-281 | a payload decodes to at most one sequence of values |
| Domains.IndexBounded | src/multio/domain/Domain.cc:142-149 | the index of a point inside the local domain is computed without 32-bit overflow and lies in the grid |
| Domains.IndexInjective | src/multio/domain/Domain.cc:142-149 | two inside points with the same index are the same point |
| Domains.OriginIs | src/multio/domain/Domain.cc:142-149 | the value of an inside point fills exactly one cell, that of a halo point none |
| Domains.PointWrites | src/multio/domain/Domain.cc:107-149 | in the entries of the definition: the value of a data point, counted row by row, is written to the cell of the point if that lies in the local domain, and nowhere else |
| Domains.OnlyPointsWrite | src/multio/domain/Domain.cc:107-149 | and nothing else is written: every written value is that of such a point |
| Domains.StructuredToGlobal | src/multio/domain/Domain.cc:159-196 | raises exactly on a wrong global or local size; otherwise, in the entries of the definition, the value number (j - def[9]) * def[8] + (i - def[7]) of every point of the local domain is in cell (def[4] + j) * def[0] + def[2] + i, and all other cells are unchanged |
| Domains.UnstructuredToGlobal | src/multio/domain/Domain.cc:63-71 | for a global field of any length that holds the listed cells: raises exactly on a wrong local size; otherwise every listed cell holds its last listed value and all others are unchanged |
| Domains.ToBitmask | src/multio/domain/Domain.cc:107-150 | for every payload that does not make the decoder run past its buffer: raises exactly for an unstructured domain, a too large partial size, a payload the decoder throws on, or a wrong mask or part size; otherwise places the decoded values, in the entries of the definition, as `toGlobal` places a field |
| Domains.CollectStructured | src/multio/domain/Domain.cc:198-234 | adds exactly the cells of the points in the local domain, in the entries of the definition; the duplicate assertion trips exactly when an earlier domain wrote one of them, never because of the domain itself |
| Domains.CollectIndices | src/multio/domain/Domain.cc:50-60 | both kinds of domain add exactly the cells they write, or raise on the stated conditions |
| Domains.CellsAreWritten | src/multio/domain/Domain.cc:152-157 | the collected indices are the cells that some local value is written to |
| Partition.ConsistencyImpliesPartition | src/multio/domain/Mappings.cc:72-90 | if the local sizes add up to the global size and so does the number of collected indices, exactly one value of exactly one part is written to each cell |
| Partition.PartitionImpliesConsistency | src/multio/domain/Mappings.cc:77-87 | conversely the parts of a partition pass the index count |
| Partition.CellOwnersValue | src/multio/domain/Domain.cc:186-195 | once all parts of a partition have been scattered, a cell holds the value of its one owner |
| Partition.GatherOrderIrrelevant | src/multio/domain/Domain.cc:186-195 | scattering all parts of a partition gives the same field in every order and from every initial field |
| Mappings.IsComplete | src/multio/domain/Mappings.h:38-50 | the loop compares the total local size, in 32-bit arithmetic, with the partial size of the first peer |
| Mappings.DecodedIs | src/multio/domain/Mappings.cc:34-49 | what a domain message is read as: definition, global, local and partial size of an unstructured domain, the twelfth number or the whole grid as partial size of a structured one; nothing else is accepted |
| Mappings.TotalInsert | src/multio/domain/Mappings.h:43-47 | registering a new peer adds its local size to the total |
| Mappings.Mappings.Add | src/multio/domain/Mappings.cc:21-51 | only the first domain of a peer counts; a rejected message raises and still creates the entry |
| Mappings.Mappings.CheckDomainConsistency | src/multio/domain/Mappings.cc:72-90 | succeeds exactly if the map was found consistent before or the indices of all parts can be collected and are as many as the global size; success sets the flag and nothing else |
| Mappings.CompleteAndConsistent | src/multio/domain/Mappings.cc:72-90 | a map complete by size for the whole grid whose parts pass the index count partitions the grid |
| Registry.RunKeeps | src/multio/domain/Mappings.h:52-56 | no later operation clears the consistency flag or removes a registered domain |
| Registry.MorePartition | src/multio/domain/Mappings.cc:21-51 | parts that are added to a partition leave it one if and only if they write no cell of the grid |
| Registry.FlagMeansPartition | src/multio/domain/Mappings.h:38-56 | after a first successful check and any further registrations and checks the flag is set and the map counts as complete, whatever has registered since; its parts still partition the grid if and only if no peer that writes a cell has registered since |
| Registry.PartitionWhileNoneAdded | src/multio/domain/Mappings.h:38-56 | where every registered domain writes some cell, the flag stands for a partition exactly while no peer has registered since the check |
| MaskAssembly.MaskStore.Add | src/multio/domain/Mask.cc:32-63 | stores the part, whether its payload decodes or not; if the domain map is complete and as many parts as peers are there, builds the bitmask and forgets the parts; raises exactly without a domain map or when some part does not decode or fit, and then keeps the part |
| MaskAssembly.MaskStore.CreateBitmask | src/multio/domain/Mask.cc:65-83 | succeeds exactly if every stored part decodes and fits its domain, and then stores the encoding of the assembled mask under the domain and the level of the message |
| MaskAssembly.BitmasksAfter | src/multio/domain/Mask.cc:28-36 | a mask that completes its field replaces the bitmask of its own domain and level; every other domain and level keeps the bitmask it had or has none |
| MaskAssembly.EncodedGlobalMask | src/multio/domain/Mask.cc:68-80 | starting from false everywhere, scattering the parts in order and encoding the result |
| Rounds.RoundsIffLockstep | src/multio/domain/Mask.cc:51-63 | a counter that fires on every n-th contribution collects exactly one of each peer per round if and only if no peer contributes again before all others have caught up |
| Rounds.RoundsHoldNth | src/multio/domain/Mask.cc:51-63 | in rounds, round k holds the k-th message of every peer |
| Rounds.SameRounds | src/multio/domain/Mask.cc:51-63 | two interleavings of the same clients have the same messages in the same round |
| Rounds.AccumulateSize | src/multio/server/Listener.cc:157-160 | the number of complete rounds and of messages left over are quotient and remainder |
| Listener.Listener.Receive | src/multio/server/Listener.cc:132-179 | one pass of the loop raises exactly for an unknown tag or a message on a connection that is not open, and otherwise changes connections, counters and queue as the step function says |
| Listener.Listener.Start | src/multio/server/Listener.cc:130-180 | the loop receives messages up to the first that raises, or the first after which no connections are left |
| Listener.QueueHolds | src/multio/server/Listener.cc:152-173 | the queue holds every data message once, in receive order, and the last of every n synchronizations |
| Listener.QueueHoldsOnly | src/multio/server/Listener.cc:132-179 | and nothing else: whatever is in the queue is a domain, mask, parametrization or other data message or a synchronization |
| Listener.SyncsQueued | src/multio/server/Listener.cc:152-163 | the number of queued synchronizations is the number received divided by the client count, and `syncCount_` is the remainder |
| Listener.Barrier | src/multio/server/Listener.cc:152-173 | if no client sends its next synchronization before the current one is queued, everything a client sends before its k-th synchronization is in the queue ahead of the k-th queued one |
| Listener.BarrierIff | src/multio/server/Listener.cc:152-173 | the barrier is exact: once the k-th Synchronization is queued, every data message that can still come is one that its peer sends after its own k-th synchronization if and only if every peer has sent k of them |
| Listener.OneRunsAhead | src/multio/server/Listener.cc:152-163 | a history in which a peer is behind: of two connected peers one synchronizes twice, which queues the first Synchronization although the other has sent none |
| Listener.ConnectionsAre | src/multio/server/Listener.cc:135-151 | in every interleaving of well-behaved clients the connections are those opened and not closed, and no message raises |
| Listener.MoreUntilAllSent | src/multio/server/Listener.cc:222-224 | the loop has more to do exactly while some client has not sent everything |
| Listener.StopsExactly | src/multio/server/Listener.cc:130-180 | the loop stops at the very message after which all clients have opened and closed, and the queue has then received every data message once, in receive order |
| Dispatcher.Dispatcher.Process | src/multio/server/Dispatcher.cc:59-84 | domains are registered, masks aggregated, parameters stored, and everything else leaves all three alone; raises exactly when the component does, or a plan |
| Dispatcher.Dispatcher.Dispatch | src/multio/server/Dispatcher.cc:40-57 | the loop handles the queue in order up to the first exception, whichever component raises it |
| FieldAssembly.CompleteWhenAll | src/multio/domain/Mappings.h:38-50 | if every domain declares the total local size of all peers, the map is complete exactly when every peer has registered |
| FieldAssembly.MaskBuilds | src/multio/domain/Mask.cc:32-63 | in a history in which clients describe their domain before they send masks, a mask raises nothing, and completes its field exactly when all peers have registered and as many masks are there |
| FieldAssembly.HoldsAlways | src/multio/server/Dispatcher.cc:59-84 | after every such history nothing has raised, the registry holds the domains described, the parameters are the agreed ones, every build scattered its parts over the domains, and every bitmask encodes the latest build with its key |
| FieldAssembly.BuiltInRounds | src/multio/domain/Mask.cc:32-83 | a field is built once per round, from exactly one mask of each peer, if and only if no peer sends its next mask of the field before every peer has sent the current one |
| FieldAssembly.CountsOnly | src/multio/domain/Mask.cc:51-63 | without lockstep, once all peers have described their domains, the field is built from every n masks that arrive, whoever sent them |
| GlobalMask.AssembledCell | src/multio/domain/Mask.cc:68-75 | a cell that no part covers stays false, any other holds the value of the last part that covers it |
| GlobalMask.OwnersValue | src/multio/domain/Mask.cc:73-75 | if overlapping parts agree, a cell holds the value of any part that covers it |
| GlobalMask.OrderIrrelevantIff | src/multio/domain/Mask.cc:73-75 | assembling gives the same mask in every order of arrival if and only if parts that cover the same cell agree on it |
| GlobalMask.DisjointAgree | src/multio/domain/Domain.cc:142-149 | parts over disjoint domains always agree |
| Network.ReachableKeeps | src/multio/transport/MpiTransport.cc:196-209 | in every reachable state of clients, channels, listener and dispatcher: nothing is lost or reordered on a channel, listener and server are what their inputs make them, synchronizations are in lockstep, and a client is never past a barrier that was not queued |
| Network.NeverRaises | src/multio/server/Listener.cc:130-180 | in every reachable state the next message of every channel is received, and the next of the queue handled, without an exception |
| Network.AnyClientSends | src/multio/transport/MpiTransport.cc:196-209 | nothing but the barrier restricts a client: whenever it has something left and all its synchronizations were handled, it can put its next message on its channel |
| Network.AnyHeadIsReceived | src/multio/server/Listener.cc:130-180 | in every reachable state the head of any channel can be received |
| Network.HeadIsHandled | src/multio/server/Dispatcher.cc:40-57 | in every reachable state the head of the queue can be handled |
| Network.BuiltOncePerRound | src/multio/domain/Mask.cc:32-63 | in every reachable state a paced field has been built exactly once for each complete round of the masks handled so far, at the last part of the round, from one mask of each peer |
| Network.BuiltCells | src/multio/domain/Mask.cc:65-80 | in every reachable state the cells of a build that no part covers are false, and those covered hold the owner's value |
| Network.BitmaskDecodes | src/multio/domain/Mask.cc:28-30 | in every reachable state there is a bitmask for a domain and level if and only if some mask with that domain and level has been built, and it decodes, by runs and by values, to the cells of the last one |
| Network.SameInEveryRun | src/multio/domain/Mask.cc:65-80 | in any two runs of the same clients the builds of the same round of a paced field have the same cells, whatever the order of arrival, if the parts agree where they overlap |
| Network.SameWithDisjointDomains | src/multio/domain/Mask.cc:65-80 | and always if the domains are pairwise disjoint |
| Network.OnceIsPaced | src/multio/transport/MpiTransport.cc:196-209 | a field that every client sends at most once needs no synchronization between its masks |
| Network.FinishedState | src/multio/server/Listener.cc:130-188 | when everything has been handled all clients have synchronized equally often, the listener has stopped, and its queue has every data message once |
| Network.FinishedField | src/multio/domain/Mask.cc:32-83 | when everything has been handled, a paced field of which every peer sent r masks has been built exactly r times and no part is left |
| Progress.RunsEnd | src/multio/server/Listener.cc:130-188 | no run is longer than three steps for every message there is to send: sending it, receiving it, handling it |
| Progress.GoalReached | src/multio/transport/MpiTransport.cc:196-209 | from every reachable state, any point in the clients' scripts that no client has to pass a missing synchronization for can be reached, with everything up to it received and handled |
| Progress.NeverStuck | src/multio/transport/MpiTransport.cc:196-209 | if all clients synchronize equally often no reachable state is stuck before the end |
| Progress.CanFinish | src/multio/transport/MpiTransport.cc:196-209 | if all clients synchronize equally often, every run can be continued until everything has been sent, received and handled |
| Progress.EndsIffEqualSyncs | src/multio/transport/MpiTransport.cc:196-209 | the end can be reached if and only if all clients synchronize equally often |
| Pacing.PacedIffInStep | src/multio/domain/Mask.cc:32-63 | a field is paced, which is a condition on the clients' scripts alone, if and only if in every run its masks arrive in lockstep |
| Pacing.PacedIffBuilt | src/multio/domain/Mask.cc:32-83 | and if and only if in every run each of its builds has exactly one mask of each peer |
| Pacing.AloneIsPaced | src/multio/domain/Mask.cc:51-63 | a field with a single peer is always paced, however often it is sent |
| Pacing.OneSender | src/multio/domain/Mask.cc:51-63 | if all clients have described their domains and one of them goes on alone, the server builds the field from every n masks of that client |
| SingleClient.ClientIsGood | src/multio/domain/Mask.cc:32-63 | the assumptions about clients can be met: one client that describes a grid, sends any mask on it and closes |
| SingleClient.ServerHasMask | src/multio/domain/Mask.cc:65-83 | once such a client has finished, the server has built its field once, and the cells are the mask it sent, through encoding, channel, queue, scatter and decoding |
| SingleClient.ServerGetsMask | src/multio/domain/Mask.cc:65-83 | and such a state can be reached |
| TwoClients.BuiltFromOneClient | src/multio/domain/Mask.cc:32-83 | an input that shows it: two clients that share a grid and send two masks each without synchronizing, and the run in which the field is built from both masks of the first, the cell of the second being false whatever it sends |
| SharedMetadata.OwnBlock | src/multio/message/SharedMetadata.cc:38-44 | a handle whose block has use count one shares it with no other live handle |
| SharedMetadata.Handle.Modify | src/multio/message/SharedMetadata.cc:38-44 | the returned block is private if the handle was acquired or not shared, otherwise it is the shared one; the contents stay, all use counts stay right, and the lazy copy flag is cleared exactly by copying |
| SharedMetadata.Handle.Set | src/multio/message/SharedMetadata.cc:38-44 | every other live handle reads what it read before, except exactly those that share the block of a handle that was not acquired |
| MessageHeader.Header.Set | src/multio/message/MessageHeader.cc:57-60 | clears the cached identifier; through an acquired or unshared handle no other header changes and all cached identifiers stay right |
| MessageHeader.Header.FieldId | src/multio/message/MessageHeader.cc:112-117 | returns the text of the current metadata and keeps every cached identifier right |
| MessageHeader.Header.AcquireMetadata | src/multio/message/MessageHeader.cc:72-74 | sets the lazy copy flag and changes nothing that is read |
| MetadataRuns.Execute | src/multio/message/SharedMetadata.cc:34-53 | in every run of creating, copying, acquiring, modifying, printing and dropping headers, up to the first modification through a shared handle that was not acquired, all headers read as if each held its own metadata and every identifier printed is that of the metadata at that time |
| MultioClient.NamePlan | src/multio/server/MultioClient.cc:195-200 | a copy of the message carries the plan's name, and every other message reads as before |
| MultioClient.DispatchFlush | src/multio/server/MultioClient.cc:192-202 | each plan is handed a message that names it and is otherwise the original; what one plan was handed is still so when the last one has been served; the original is unchanged |
| Matcher.Construct | src/multio/message/MetadataMatcher.cc:220-295 | the recursive construction with its loop over lists builds the specified tree or raises |
| Matcher.MatchesKeys | src/multio/message/MetadataMatcher.cc:67-115 | the loop over the keys, with its test of the first allowed value's type, gives the specified result or exception |
| Matcher.Matches | src/multio/message/MetadataMatcher.cc:312-341 | the short-circuiting loops give the specified result or exception |
| Matcher.CompiledUniform | src/multio/message/MetadataMatcher.cc:15-64 | every compiled set of allowed values has values of one type, so that looking at one of them is enough |
| Matcher.AllowedAreListed | src/multio/message/MetadataMatcher.cc:15-58 | an entry is compiled to exactly the integers, reals or texts it lists, or to its one value; a value of another type than these is recognised as such |
| Matcher.MatchMeans | src/multio/message/MetadataMatcher.cc:15-115 | a match block of one key map compiles if and only if every entry can be represented; it raises if and only if its own flag, or else its parent's, is set and the first key that does not hold has a value of another type; otherwise it holds if and only if every key is there with a listed value |
| Matcher.ListsMean | src/multio/message/MetadataMatcher.cc:188-216 | of a match block with a list of key maps one must hold, of an ignore block none may |
| Matcher.EntriesFrom | src/multio/message/MetadataMatcher.cc:70-107 | walking the sorted keys raises exactly if a type mismatch comes before any other failure, and otherwise tells whether all keys hold |
| Matcher.BlockMeans | src/multio/message/MetadataMatcher.cc:188-216 | a match or ignore block compiles exactly if it is well formed, and means the disjunction of its key maps, negated if asked for, also for a list of one |
| Matcher.CompiledMeans | src/multio/message/MetadataMatcher.cc:220-295 | for every configuration, metadata and predicate: construction succeeds if and only if the configuration is accepted, and the tree then raises if and only if the configuration does in evaluation order, and otherwise gives its boolean meaning, negated if asked for |
| Matcher.MeaningPreserved | src/multio/message/MetadataMatcher.cc:220-341 | on metadata without a type mismatch the compiled matcher of an accepted configuration never raises and is its boolean meaning |
| DecisionTree.BuildDecisionMap | share/multiom/generate_knowledge/InferPDT.py:52-102 | the recursion builds the specified tree in whatever order the set of values is visited, or raises |
| DecisionTree.BuiltWhenDistinct | share/multiom/generate_knowledge/InferPDT.py:52-102 | a table with rows has a tree if and only if all categories have recorded values and the rows are pairwise distinct |
| DecisionTree.BuiltWhenEmpty | share/multiom/generate_knowledge/InferPDT.py:52-102 | a table without rows has a tree if and only if there is a first category with recorded values, and inference on it always raises |
| DecisionTree.InferIsLookup | share/multiom/generate_knowledge/InferPDT.py:27-49 | for every dictionary, inference returns the template of the row that fits it and raises if and only if no row does, where fitting is defined on the flat table |
| DecisionTree.FindsEveryRow | share/multiom/generate_knowledge/InferPDT.py:27-49 | every listed selector is found under the dictionary that spells it out, where a category missing in the selector is the same as one given as none |
| DecisionTree.FindsOnlyListed | share/multiom/generate_knowledge/InferPDT.py:27-49 | a returned template belongs to a listed selector all of whose values occur in the dictionary |
| DecisionTree.FoundIffFits | share/multiom/generate_knowledge/InferPDT.py:27-49 | where no template is listed twice, inference returns the template of a listed selector if and only if the selector fits the dictionary |
| DecisionTree.FoundIffNotDiverted | share/multiom/generate_knowledge/InferPDT.py:41-49 | a selector all of whose values are in the dictionary is found if and only if at no category where it has none the dictionary's value is that of another selector that agrees with it on the categories before |
| DecisionTree.MissedSelector | share/multiom/generate_knowledge/InferPDT.py:27-49 | an input on which a selector is missed: two selectors over two categories, all values of the first are in the dictionary, and inference raises |
| PdtCategories.CountProduct | share/multiom/generate_knowledge/PDT.py:483-494 | combining categories independently multiplies the numbers of combinations that select a template |
| PdtCategories.CombinationsAreWays | share/multiom/generate_knowledge/PDT.py:439-496 | as many generated combinations select a template as there are ways to choose, category by category and level by level, a value whose groups are exactly the template's groups among those of the category |
| PdtChoices.CombinationsAreChoices | share/multiom/generate_knowledge/PDT.py:439-496 | the generated combinations are one for each choice of a value of every category and, below each chosen value, of every category there; the selector has exactly the names of these categories with those of the chosen values, the last where a name repeats; the combination selects exactly the templates whose groups are, in each of these categories, those of the chosen value |
| PdtCategories.ChoiceIsUnambiguous | share/multiom/generate_knowledge/PDT.py:439-496 | if the values of each category have distinct groups, at every level, a template is selected by at most one combination |
| PdtCategories.SameGroupsAmbiguous | share/multiom/generate_knowledge/PDT.py:444-481 | two plain values of a category with the same groups are both chosen for a template with these groups |
| PdtCategories.MappedIsFirst | share/multiom/generate_knowledge/PDT.py:549-558 | of several selected templates with the fewest keys the first is taken |
| PdtCategories.CheckSelectors | share/multiom/generate_knowledge/PDT.py:680-708 | loading succeeds exactly if every template is assigned exactly one combination |
| PdtCategories.NeverSeveralSelectors | share/multiom/generate_knowledge/PDT.py:702-708 | with distinct groups the check for several selectors of one template can never fail |
| PdtCategories.CheckUnique | share/multiom/generate_knowledge/PDT.py:387-414 | the recursive loops pass a template exactly if no category they look at has two listed values; they look below listed values only |
| PdtCategories.CheckedWay | share/multiom/generate_knowledge/PDT.py:387-414 | a template that passes the check on values and groups is selected by at most one combination, if every category has at most one value without groups and groups below such values, where the check does not look, are distinct |
| PdtCategories.CheckedNeverSeveral | share/multiom/generate_knowledge/PDT.py:702-708 | so the later check for several selectors cannot fail for it either |
| Parametrization.Parametrization.UpdateKey | src/multio/message/Parametrization.cc:196-210 | a new key is stored; for a stored key nothing changes, and the call raises exactly if the value is another one: not identical, or for floating-point values of another precision, length or numbers, where zeros of any sign are the same and a NaN is the same as nothing |
| Parametrization.Parametrization.UpdateMetadata | src/multio/message/Parametrization.cc:134-145 | stores the entries up to the first conflict and raises exactly if there is one |
| Parametrization.Parametrization.UpdateMessage | src/multio/message/Parametrization.cc:167-193 | raises without any change exactly for a malformed payload description, and otherwise stores payload and metadata up to the first conflict |
| Parametrization.PayloadIs | src/multio/message/Parametrization.cc:149-193 | what a payload is stored as, by the name of its element type: bytes, integers in two's complement of 4 or 8 bytes, or binary floating-point numbers of 4 or 8 bytes, piece by piece, dropping what is left over |
| Parametrization.PlainHas | src/multio/message/Parametrization.cc:134-145 | the metadata are stored without the two keys that describe a payload |
| Parametrization.PieceAt | src/multio/message/Parametrization.cc:153-161 | piece k starts at k times the size of an element |
| Parametrization.UnsignedDigit | src/multio/message/Parametrization.cc:153-161 | byte k of an element is digit k to the base 256 |
| Parametrization.FloatFrom | src/multio/message/Parametrization.cc:153-161 | sign, exponent and fraction stand in this order from the top of the number |
| Parametrization.TwoValues | src/multio/message/Parametrization.cc:196-210 | a key that is given two values: the second raises if and only if it is another value |
| Parametrization.SucceedsWhenCompatible | src/multio/message/Parametrization.cc:134-210 | updates succeed if and only if entries of the same key are equal, among themselves and with what is stored; every new key then has the value of its first entry |
| Parametrization.StoredOnce | src/multio/message/Parametrization.cc:196-210 | through every later run of updates, failing ones included, a stored key keeps its value |
| Parametrization.OrderIrrelevant | src/multio/message/Parametrization.cc:134-210 | any two orders of the same updates both succeed, with the same keys and equal values, or both raise |
| Parametrization.AgreedSucceed | src/multio/message/Parametrization.cc:134-210 | updates whose values equal values agreed beforehand never raise, and leave only such values |
| Parametrization.SentTwice | src/multio/message/Parametrization.cc:196-210 | sending a value twice succeeds if and only if it has no NaN in it |
| Trigger.MetadataChangeTrigger.UpdateEventsIssued | src/multio/sink/Trigger.cc:239-249 | the catch-up loop ends; it issues the events after the last issued one up to the last value seen, or runs into the assertion exactly when that lies behind |
| Trigger.MetadataChangeTrigger.Trigger | src/multio/sink/Trigger.cc:214-232 | one message changes the state as specified, and raises exactly when the catch-up does |
| Trigger.CompletesInOrder | src/multio/sink/Trigger.cc:201-249 | a run, destructor included, raises nothing if and only if the listed values appear in the configured order; it has then issued the events of all values up to the last one seen, each once and in order |
| Trigger.PrefixSoFar | src/multio/sink/Trigger.cc:214-249 | at every message of such a run the events issued are a prefix of the values that does not go past the last value seen |
| Trigger.IssuedAtOnce | src/multio/sink/Trigger.cc:214-249 | while values come in order, every message with another value than the last one listed issues the events up to that one at once, and every other message issues none |
| Trigger.RunsAre | src/multio/sink/Trigger.cc:201-249 | while values come in order nothing raises; after a value out of order the destructor raises, and so does every message with another value than the last one seen |
| IOStats.Counters.Log | src/multio/sink/IOStats.cc:64-84 | count, sum and sum of squares are those of the sizes logged, modulo 2^64 |
| IOStats.Counters.ScaledVariance | src/multio/sink/IOStats.cc:141-150 | the number under the square root is the sum of the squared distances of all pairs of sizes, modulo 2^64, even if counters or products have overflowed |
| IOStats.VarianceIsSpread | src/multio/sink/IOStats.cc:149 | count times sum of squares exceeds the squared sum by the squared distances of all pairs |
| IOStats.TrueWhenItFits | src/multio/sink/IOStats.cc:149 | the unsigned subtraction never wraps below zero, and is the true value if and only if that fits 64 bits |

## Left out

- Empty masks: the source gives them a run-length buffer of size zero and then writes to it.
- Run-length widths above 32 bits in the decoder, which no encoder output has.
- Payload bytes read as 32-bit integers or floating-point values in domains and fields: domain definitions
  are given as integers, and field values are generic.
- Threads: every call under a lock is one atomic step, the queue is unbounded, and the listening thread
  that fills the transport's stream is the channel.
- Several servers: each client sends everything to one.
- Interrupts, failure handling and retries.
- What plans do with a message: a message carries whether some plan raises over it, and plans leave domain
  registry, mask store and parameters alone.
- Moved-from handles: a move is modelled as handing over the same handle.
- Headers built from a printed identifier, whose cache holds the text they were built from.
- Nested metadata as values: their comparison returns after the first shared key.
- Lists of floating-point values in a matcher are read in single precision; the model starts from the
  values as they are stored, as mathematical reals.
- Combinations with default values left out (`emitWithDefaultExcluded`), which loading does not use, and
  the parsing of the category file.
- Sending events over the network, floating-point timings and the square root in the statistics.
- The statistics keep read and write counters of the same kind; one set of them is modelled. Squaring a
  size is taken not to overflow the signed length type.
- Rule tables, encoder caches, encoding generation, transports other than the barrier, sinks and tools.
