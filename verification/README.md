# Verification model of the MPC library's hard core

This project models, in Dafny, the parts of the library that have real state, branching or
arithmetic, and proves what they are for. Words are natural numbers with explicit widths, memory is
explicit where ownership or junk bits matter, and threads are interleaved steps over shared state.

- `Barrier`, `SendRounds`, `ReceiveRounds`: the parallel transport, where N threads share one
  channel. Condition variables are guards, and a run is any sequence of enabled steps.
- `Programs`, `Sessions`, `GroupMessages`: all parties at once, every thread sending and receiving;
  when they get through, what they receive, and the group messages of a job as the instance.
- `Wire`, `WireFormat`, `Converter`, `BitConvert`: the converter. `Wire` is the format as functions that
  write and read; `WireFormat` tells it byte by byte without them; `Converter` is the cursor object with
  its three modes and its error field, proved against both; `BitConvert` is the bit vector object's own
  conversion.
- `AccessTree`, `FlatParser`, `FlatMeaning`, `TreeBuilder`, `AccessPipeline`: access structures from
  the flat C arrays through the public tree to the internal one.
- `Field`, `Lagrange`, `Polynomials`, `ShareTrees`, `SecretSharing`, `Hiding`: sharing a secret over an
  access structure, getting it back, and what a set of parties that does not satisfy it can see.
- `Booth`, `BoothStreams`, `PointMul`, `GeneratorMul`: signed-window recoding of scalars, and the two
  multiplication loops that use it.
- `Bits`, `WideWords`, `CarrylessMul`: 128- and 256-bit words and carry-less multiplication.
- `BitVector`, `Buffers`, `Cmems`: packed bit vectors, buffers with inline or heap storage, and the
  flattened lists of the C boundary.
- `KeyBlobs`, `TwoPartyBlobs`: acceptance of key blobs, and detaching and attaching private scalars.
- `Arithmetic`, `CInt`, `Counting`, `Sequences`, `Options`, `Errors`: shared definitions.

Where the code differs from what one would expect, the model follows the code:

- `send` discards the result of the underlying send and always returns success
  (`SendReportsSuccess`, `AllRefused`).
- The write pass of the converter accepts a `vector<bool>` past its 16-bit count and vectors past the
  element limit; `FieldRoundTripExactly` says exactly which fields come back.
- Booth recoding misses scalars of the declared width backwards with one-bit windows, and forwards
  when the width is a multiple of the window size (`WidthsCovered`); `StreamReconstructs` gives the
  exact range.
- `bits_t::alloc` leaves old words in place when the limb count does not change.
- `bits_to_limbs` adds 64 and then subtracts 1 before dividing, so it overflows for counts above
  INT_MAX - 64 (`MAX_BITS`), which the assertions of its callers admit. `LimbCountExact` gives the exact
  range; every operation is modelled on all counts its assertions admit and says whether it is defined.
- The check of the share-point names in a multi-party blob is by size and one-way containment, which
  is equality only if no name is repeated. Every caller validates the job first, so this matters for
  the function taken alone (`RepeatedNameAccepted`); composed with the validation it is exact
  (`LoadKey`).
- A refused send shifts every later message on its channel by one, unnoticed by both ends
  (`RefusalsShift`).
- `receive_all` of the parallel transport loops over the buffers it was given: fewer than senders pass
  with empty messages (`MissingAreEmpty`), and more can index past the senders (`DecodeAll` says when).
- `receive_all` of the callback transport frees a block twice when the callback succeeds with one block
  as data and as sizes; its guard against that is on the error path only (`SharedFreedTwice`).
- `attach_private_scalar` refuses the point at infinity, so a zero share cannot be attached again; a
  detached two-party share of 0 is an empty byte string, which is refused as well.

## Model

| member | source | states |
|---|---|---|
| `Barrier.PhaseStep` | demo-cpp/common/mpc_job_session.cpp:7-59 | Every step of every thread keeps the control invariant of the barrier: a round gathers all threads, thread 0 alone works, and the round drains before the next starts. The same skeleton serves `send`, `receive` and `receive_all`. |
| `Barrier.MeasureStep` | demo-cpp/common/mpc_job_session.cpp:61-151 | Every step uses up part of a finite budget, early exits of thread 0 included, so no run is infinite. |
| `Barrier.SomeEnabled` | demo-cpp/common/mpc_job_session.cpp:153-248 | While some call is outstanding, some guard is true: no wait can block everybody. |
| `Barrier.NoOverlap` | demo-cpp/common/mpc_job_session.cpp:8-11 | The gate keeps rounds apart: a thread past the gate of a round has seen every thread return from the round before. |
| `Barrier.CountersReset` | demo-cpp/common/mpc_job_session.cpp:145-150 | When no thread is inside a call, the ready and the active counter are both 0. |
| `SendRounds.InvStep` | demo-cpp/common/mpc_job_session.cpp:7-59 | Every step of `send` keeps: the deposited slots are those of this round and what the transport was handed is exactly the bundles of the rounds that were sent. |
| `SendRounds.SendRunSafe` | demo-cpp/common/mpc_job_session.cpp:7-59 | In every interleaving the transport has been handed, in order, exactly one bundle per round holding that round's N messages, and rounds do not overlap. |
| `SendRounds.SendRunLive` | demo-cpp/common/mpc_job_session.cpp:7-59 | Every run is bounded, and a run that cannot be extended has completed all calls of all threads. |
| `SendRounds.RunExtends` | demo-cpp/common/mpc_job_session.cpp:7-59 | The runs the two theorems speak of are all of them: every enabled move extends a run. |
| `SendRounds.SendReportsSuccess` | demo-cpp/common/mpc_job_session.cpp:39-58 | In every run every call of every thread returns success, so its code is the transport's answer for its round if and only if that answer was success. |
| `SendRounds.AnswersUnseen` | demo-cpp/common/mpc_job_session.cpp:39-58 | Whatever else the transport answers, the same schedule hands over the same bundles and returns the same codes. |
| `SendRounds.RefusalsUnseen` | demo-cpp/common/mpc_job_session.cpp:39-58 | For every run there is one with the same moves in which every bundle is refused and all calls return what they returned. |
| `SendRounds.AllRefused` | demo-cpp/common/mpc_job_session.cpp:39-58 | For whatever there is to send there is a complete run in which every bundle is refused and every call returns success. |
| `ReceiveRounds.InvStep` | demo-cpp/common/mpc_job_session.cpp:61-248 | Every step keeps the invariant for every answer the decode loop reads in bounds: transport errors, any number of buffers, bundles that do not decode, bundles of the wrong size. |
| `ReceiveRounds.DecodeRows` | demo-cpp/common/mpc_job_session.cpp:199-213 | Decoded rows have N messages, and a successful decode has one for every sender that was answered. |
| `ReceiveRounds.DecodeAll` | demo-cpp/common/mpc_job_session.cpp:199-213 | The loop looks up a sender past the last if and only if the answer has more buffers than senders and the first of them, one more than there are senders, are all good; otherwise it computes the rows and the verdict. |
| `ReceiveRounds.MissingAreEmpty` | demo-cpp/common/mpc_job_session.cpp:171-213 | A transport that answers with fewer buffers than senders and reports success passes: the missing senders look as if they had sent empty messages. |
| `ReceiveRounds.BundledExpected` | demo-cpp/common/mpc_job_session.cpp:199-236 | With one good bundle for each of different senders a call returns success and the messages of its thread. |
| `ReceiveRounds.ExpectedReports` | demo-cpp/common/mpc_job_session.cpp:61-248 | For every answer the code handles, what a call is expected to return is what the answer calls for, told from the answer alone. |
| `ReceiveRounds.ReadsInBounds` | demo-cpp/common/mpc_job_session.cpp:226-240 | A thread about to index the shared table finds every sender there, answered or not, with at least N entries. |
| `ReceiveRounds.ReceiveRunSafe` | demo-cpp/common/mpc_job_session.cpp:61-248 | In every run every call reports what the transport answered to its round: the transport's error and no data; or success, and the thread's own message of the last bundle of each sender, exactly if every bundle deserializes to N messages; or else no data and the code of the first bundle that does not, E_BADARG for bytes after it and E_FORMAT otherwise. All N calls of a round return the same code, and when nobody is inside a call both counters are 0. |
| `ReceiveRounds.ReceiveRunLive` | demo-cpp/common/mpc_job_session.cpp:61-248 | Every run is bounded and, when it cannot be extended, all calls of all threads have returned, errors included. |
| `ReceiveRounds.RunExtends` | demo-cpp/common/mpc_job_session.cpp:61-248 | Every legal move extends a run. |
| `Programs.SoloBalanced` | include-internal/cbmpc/internal/protocol/mpc_job.h:240-254 | With one thread for each party, nobody has taken more from a channel than was sent to it. |
| `Programs.CompletesWithoutKnot` | include-internal/cbmpc/internal/protocol/mpc_job.h:240-271 | Programs complete if and only if there is no knot: no places, reachable or not, short of the ends from which nobody can move. |
| `Programs.CompletesWhenTimed` | include-internal/cbmpc/internal/protocol/mpc_job.h:240-271 | Programs of sends and receives complete if and only if their calls can be given times that never decrease along a program and put every receive after the sends it needs. |
| `Sessions.InvStep` | demo-cpp/common/mpc_job_session.cpp:7-248 | All parties at once, each sending and receiving on N threads through the three barriers, over a transport that may refuse sends and answer receives with errors or other bytes: every step of every thread keeps every channel equal to what was taken of the sends and not yet received, and every fetch equal to what its call is matched with. |
| `Sessions.SessionsAreFifo` | demo-cpp/common/mpc_job_session.cpp:7-248 | Multiplexing refines N independent networks of first-in-first-out channels, faults included: in every interleaving thread i's receive returns success and, for each party it names, what thread i of that party sent in the matching send that was taken; a faulty receive returns what its answer calls for. |
| `Sessions.ThreadsAgree` | demo-cpp/common/mpc_job_session.cpp:61-248 | Whatever the transport refused or got wrong, any two threads of a party return the same code from the same call, success if that call was not faulty. |
| `Sessions.FaultsReported` | demo-cpp/common/mpc_job_session.cpp:61-248 | A receive the transport got wrong reports it in every thread: the code of the transport, or that of the first bundle that is not good. |
| `Sessions.RefusalsShift` | demo-cpp/common/mpc_job_session.cpp:39-58 | The n-th message taken from a channel is the one of the (n + r)-th send to it, where r of those before were refused: refused sends shift all that follows, and no call says so. |
| `Sessions.RunRefines` | demo-cpp/common/mpc_job_session.cpp:7-248 | Seen from the transport, every run of the N-threaded parties is an order of calls of the one-threaded ones. |
| `Sessions.SessionsComplete` | demo-cpp/common/mpc_job_session.cpp:7-248 | N threads deadlock exactly where one would, with the same faults: runs are bounded, and a run that cannot be extended has finished every thread if and only if the programs complete with one thread for each party. |
| `Sessions.RunExtends` | demo-cpp/common/mpc_job_session.cpp:7-248 | Every enabled move of any thread of any party extends a run. |
| `GroupMessages.RoundsComplete` | include-internal/cbmpc/internal/protocol/mpc_job.h:274-291 | Any number of group messages complete if and only if the parties cannot be placed in rounds so that everybody who has not finished waits for somebody it has waited for more often than that one has sent. |
| `GroupMessages.NeverAheadCompletes` | include-internal/cbmpc/internal/protocol/mpc_job.h:274-291 | They complete if by the end of every round whoever was waited for in it has sent as often as it was waited for; sends may run ahead. |
| `GroupMessages.AgreedRoundsComplete` | include-internal/cbmpc/internal/protocol/mpc_job.h:274-291 | In particular they complete if in each of them whoever is waited for sends. |
| `GroupMessages.RoundCompletes` | src/cbmpc/protocol/mpc_job.cpp:5-43 | One group message completes if and only if whoever is waited for sends. |
| `GroupMessages.MatchedInRound` | src/cbmpc/protocol/mpc_job.cpp:5-43 | If in every round exactly those who are waited for send, the receive of a round is matched with sends of that round. |
| `GroupMessages.GroupMessagesArrive` | include-internal/cbmpc/internal/protocol/mpc_job.h:274-314 | Over N threads and any number of rounds: a run that cannot be extended has taken every thread through all rounds, and every message was received in the round it was sent in. |
| `Wire.LenRoundTrip` | src/cbmpc/core/convert.cpp:131-218 | The 1 to 4 byte length code is inverted by its reader, for every length up to the limit and whatever follows. |
| `Wire.PackRoundTrip` | src/cbmpc/core/buf.cpp:527-547 | Bits packed eight to a byte come back. |
| `Wire.FieldRoundTrip` | src/cbmpc/core/convert.cpp:5-238 | Reading what was written gives the same field and uses exactly its bytes, whatever follows. |
| `Wire.FieldRoundTripExactly` | src/cbmpc/core/convert.cpp:220-238 | Exactly which fields come back: a `vector<bool>` longer than its 16-bit count or a vector past the element limit is written without complaint and lost. |
| `Wire.LongFlagsLost` | src/cbmpc/core/convert.cpp:220-238 | Every `vector<bool>` of more than 32767 entries fails to come back. |
| `Wire.LongVectorRejected` | include-internal/cbmpc/internal/core/convert.h:119-141 | Every vector past the element limit is refused by the reader although the writer emits it. |
| `Wire.MessageRoundTrip` | include-internal/cbmpc/internal/core/convert.h:73-77 | A whole message comes back through readers of the same types, and nothing is left over. |
| `Wire.SerializeRoundTrip` | include-internal/cbmpc/internal/core/convert.h:244-276 | `deser` of `ser` is the identity on writable and readable messages. |
| `Wire.BundleRoundTrip` | include-internal/cbmpc/internal/core/convert.h:119-141 | The bundles of the transport are read back. |
| `WireFormat.UIntIs` | src/cbmpc/core/convert.cpp:37-85 | An unsigned integer is its digits in base 256, most significant first: these bytes are written, and no others are read as it. |
| `WireFormat.SIntIs` | src/cbmpc/core/convert.cpp:31-68 | A signed integer is stored modulo 256^w and read back into the signed range. |
| `WireFormat.LenCodeWritten` | src/cbmpc/core/convert.cpp:131-163 | A length is written in the shortest of its codes, its number with the leading bits 0, 10, 110 or 111 in front. |
| `WireFormat.ReadLenDenotes` | src/cbmpc/core/convert.cpp:163-218 | On any bytes the reader gives a length and uses u bytes if and only if the first u bytes are a code of it within the limit. |
| `WireFormat.CodeWritten` | src/cbmpc/core/convert.cpp:5-238 | What is written for each type of field, byte by byte and without the functions that write: booleans as 1 and 0, a `vector<bool>` cut to its 16-bit count, zero padding of bit vectors. |
| `WireFormat.ReadDenotes` | src/cbmpc/core/convert.cpp:5-238 | On any bytes reading gives a value and uses u bytes if and only if the first u bytes denote it, for each type of field; any byte but 0 is true. |
| `WireFormat.CodeAllWritten` | include-internal/cbmpc/internal/core/convert.h:244-262 | A message is what is written for its fields, one after another. |
| `WireFormat.VerdictMeans` | include-internal/cbmpc/internal/core/convert.h:264-276 | The verdict of a strict reader on any bytes: the fields they denote; or none because only a proper prefix denotes any; or none at all. |
| `WireFormat.UnbundleDenotes` | include-internal/cbmpc/internal/core/convert.h:119-141 | A bundle holds messages if and only if its bytes denote a vector of them. |
| `Converter.Cursor.SetError` | src/cbmpc/core/convert.cpp:121-129 | The first error is kept. |
| `Converter.Cursor.ConvertUInt` | src/cbmpc/core/convert.cpp:11-85 | Fixed-width integers: the write half emits the digits in base 256, the read half decodes them or fails without moving. |
| `Converter.Cursor.ConvertSInt` | src/cbmpc/core/convert.cpp:24-85 | Signed integers through the unsigned type of the same width. |
| `Converter.Cursor.WriteLen` | src/cbmpc/core/convert.cpp:131-163 | The byte-wise masks and shifts emit the length code of the format. |
| `Converter.Cursor.ReadLenCode` | src/cbmpc/core/convert.cpp:163-218 | The branch ladder of the reader decodes exactly the format, rejects lengths past the limit, and keeps reads in bounds. |
| `Converter.Cursor.ConvertBuf` | src/cbmpc/core/buf.cpp:305-325 | Buffers in all three modes: size, write, read. |
| `Converter.Cursor.ConvertBits` | src/cbmpc/core/buf.cpp:527-547 | Bit vectors in all three modes, as sequences of bits; `BitConvert` has the object. |
| `BitConvert.PackIsPacked` | src/cbmpc/core/buf.cpp:527-547 | The packed form of the wire format is the bytes of the object, padding zero. |
| `BitConvert.WriteVec` | src/cbmpc/core/buf.cpp:527-537 | The write half on the object itself: whatever junk the last limb holds, the length code and the packed visible bits are written and the value is unchanged. |
| `BitConvert.ReadVec` | src/cbmpc/core/buf.cpp:527-547 | The read half on the object itself: on any bytes the verdict is that of the format and the value is the decoded bits, whatever stale words the limbs held. |
| `Converter.Cursor.ConvertStr` | src/cbmpc/core/convert.cpp:87-112 | Strings with their signed 16-bit length, negative lengths refused. |
| `Converter.Cursor.ConvertFlag` | src/cbmpc/core/convert.cpp:5-9 | True is written as the byte 1 and false as 0; any byte but 0 is read as true, and only a missing byte is an error. |
| `Converter.Cursor.ConvertField` | src/cbmpc/core/convert.cpp:5-238 | One traversal serves three modes: what is written is the format's bytes of the field; on any bytes the reads stay in bounds, the value read is the one the bytes used denote, and there is an error only if no prefix denotes any. |
| `Converter.WriteAll` | include-internal/cbmpc/internal/core/convert.h:73-77 | Sizing and writing advance by the same number of bytes and the write emits the message. |
| `Converter.Ser` | include-internal/cbmpc/internal/core/convert.h:244-262 | The size pass counts what the write pass emits, so the unchecked writes stay inside the buffer, and the buffer holds the format's bytes of the fields in order. |
| `Converter.Deser` | include-internal/cbmpc/internal/core/convert.h:264-276 | On arbitrary bytes: success with the fields that the bytes denote; E_BADARG only if a proper prefix denotes fields, E_FORMAT only if none does; the source is not changed. |
| `FlatParser.LayoutUnique` | src/cbmpc/c_api/access_structure_adapter.h:45-111 | The arrays determine the tree: a node index has at most one layout. |
| `FlatParser.CheckHeader` | src/cbmpc/c_api/access_structure_adapter.h:31-39 | The checks before the search pass exactly the arrays that can be searched, and E_RANGE is for too many nodes alone. |
| `FlatParser.StartNode` | src/cbmpc/c_api/access_structure_adapter.h:58-86 | The switch over the type lets through exactly the nodes whose numbers obey the rules of their type and gives the kind of tree node of that type. |
| `FlatParser.Build` | src/cbmpc/c_api/access_structure_adapter.h:45-111 | The coloured search finds the only layout there is or none exists; it terminates by the number of unvisited nodes, on cyclic and shared input too, and colours exactly the nodes of the layout. |
| `FlatParser.ToTree` | src/cbmpc/c_api/access_structure_adapter.h:31-123 | Success exactly when the arrays encode one rooted tree that reaches every node once within the depth and the rules on the numbers of each node; the result is that tree, and arrays that fail the first checks get their code. |
| `FlatMeaning.ChildCountsAddUp` | src/cbmpc/c_api/access_structure_adapter.h:88-111 | On success the child counts sum to nodes_count - 1. |
| `FlatMeaning.GateOfType` | include/cbmpc/c_api/access_structure.h:48-53 | What the types mean, on the numbers of the array: AND (2) is true when all children are, OR (3) when one is, a threshold (4) when at least k are; the gate of the tree node built for the type has that value. |
| `FlatMeaning.ArraysMeanTheTree` | src/cbmpc/c_api/access_structure_adapter.h:45-111 | Any assignment of values to the array nodes that is consistent with their types, thresholds and child indices gives the root the value of the parsed tree. |
| `FlatMeaning.EncodingMeansTree` | src/cbmpc/c_api/access_structure_adapter.h:31-123 | Values consistent with the numbers of the array exist, and every choice of them agrees with the parsed tree, for every set of present parties. |
| `FlatMeaning.ParsedTreeIsValid` | src/cbmpc/api/access_structure_util.h:19-57 | A parsed tree passes every check of the validator, with exactly nodes_count nodes. |
| `TreeBuilder.ValidateImpl` | src/cbmpc/api/access_structure_util.h:19-57 | The recursive validator accepts exactly well-shaped trees within the depth and node limits and counts their nodes. |
| `TreeBuilder.CollectLeafNames` | src/cbmpc/api/access_structure_util.h:64-95 | The explicit-stack walk, in another order and with its own counter, succeeds within the same limits and finds exactly the recursively defined leaf set. |
| `TreeBuilder.GenInternalNodeName` | src/cbmpc/api/access_structure_util.h:97-104 | The loop ends because each failed try uses up a used name ahead of the counter; the name is new. |
| `TreeBuilder.DecimalReads` | src/cbmpc/api/access_structure_util.h:97-104 | The number in a generated name is written in decimal digits without a leading zero. |
| `TreeBuilder.DecimalInjective` | src/cbmpc/api/access_structure_util.h:97-104 | Different counters give different names. |
| `TreeBuilder.CounterBounded` | src/cbmpc/api/access_structure_util.h:97-104 | The counter never passes the number of used names, so 64 bits suffice. |
| `TreeBuilder.BuildInternal` | src/cbmpc/api/access_structure_util.h:106-154 | Exactly when the builder fails; otherwise a copy whose generated names are pairwise distinct and new. |
| `TreeBuilder.ValidateTree` | src/cbmpc/crypto/secret_sharing.cpp:57-91 | The final check accepts exactly the trees whose nodes obey the rules and whose names are all different. |
| `TreeBuilder.FinalCheckIsLeafCheck` | src/cbmpc/crypto/secret_sharing.cpp:57-91 | For what the builder makes of a valid tree the final check fails only on repeated leaf names. |
| `TreeBuilder.CopyMeansSame` | src/cbmpc/api/access_structure_util.h:106-154 | The built tree has the meaning of the public one for every set of present parties. |
| `TreeBuilder.NamesOfCopy` | src/cbmpc/api/access_structure_util.h:106-154 | The names of the built tree are the leaf names and the generated ones. |
| `TreeBuilder.ToInternal` | src/cbmpc/api/access_structure_util.h:156-204 | Success exactly for a valid curve, a well-shaped non-leaf tree within the limits with distinct leaf names equal to the party names; collector and builder never fail on what the validator accepted; meaning kept, all names distinct. |
| `TreeBuilder.EnoughForQuorum` | src/cbmpc/crypto/secret_sharing.cpp:244-274 | The early exits compute the meaning of the node. |
| `AccessPipeline.ArraysMeanInternalTree` | src/cbmpc/c_api/access_structure_adapter.h:31-123 | Flat arrays and internal tree agree for every set of present parties. |
| `AccessPipeline.FlatToInternal` | src/cbmpc/api/access_structure_util.h:156-204 | Parsing then translating: what the parser accepts is only ever refused for the curve or the leaf names, and for every set of parties the result has the value read off the numbers of the arrays. |
| `AccessTree.HoldsMonotone` | src/cbmpc/crypto/secret_sharing.cpp:244-274 | Adding parties never turns a satisfied structure unsatisfied. |
| `AccessTree.AllPartiesSuffice` | src/cbmpc/crypto/secret_sharing.cpp:244-274 | All parties together satisfy every well-shaped structure. |
| `Field.InverseOk` | src/cbmpc/crypto/lagrange.cpp:67-86 | The modular inverse by the extended Euclidean algorithm is an inverse modulo a prime. |
| `Lagrange.Horner` | src/cbmpc/crypto/lagrange.cpp:137-145 | Horner's loop evaluates the polynomial modulo q. |
| `Lagrange.BasisSum` | src/cbmpc/crypto/lagrange.cpp:67-86 | The basis values at any x add up to 1. |
| `Lagrange.Interpolates` | src/cbmpc/crypto/lagrange.cpp:88-108 | Interpolating the values of a polynomial with at most as many coefficients as points gives its value everywhere. |
| `Lagrange.PartialInterpolate` | src/cbmpc/crypto/lagrange.cpp:88-102 | The partial sum over some points with the basis over all of them. |
| `Lagrange.Interpolate` | src/cbmpc/crypto/lagrange.cpp:104-108 | The code recovers the value of the polynomial at x from its shares. |
| `SecretSharing.ShareAnd` | src/cbmpc/crypto/secret_sharing.cpp:9-22 | All shares of an AND node but the first are the values drawn, in order, and the first makes the sum the secret; all are reduced. |
| `SecretSharing.ShareThreshold` | src/cbmpc/crypto/secret_sharing.cpp:24-46 | The shares of a threshold node are the values of the polynomial with the secret as constant term and the values drawn, in order, as the other coefficients. |
| `SecretSharing.SortKids` | src/cbmpc/crypto/secret_sharing.cpp:164-168 | The children in the order of their names, each once. |
| `ShareTrees.LessIsLexicographic` | src/cbmpc/crypto/secret_sharing.cpp:164-168 | The order of names: they agree up to a place where the first ends or has the smaller character. |
| `SecretSharing.ShareRecursive` | src/cbmpc/crypto/secret_sharing.cpp:276-323 | Every leaf gets the share that the secret and the draws determine, the draws are used in order and each once, the shares of the whole tree are consistent at every gate, and no other share changes. |
| `ShareTrees.SharesConsistent` | src/cbmpc/crypto/secret_sharing.cpp:276-323 | For any draws there are values of the inner nodes, the secret at the root, that make the shares consistent at every gate. |
| `ShareTrees.SharesWrites` | src/cbmpc/crypto/secret_sharing.cpp:276-323 | Exactly the shares of the leaves below the node are written. |
| `SecretSharing.ReconstructThreshold` | src/cbmpc/crypto/secret_sharing.cpp:452-478 | A threshold node is reconstructed from the first k children that can be, and succeeds exactly when at least k can. |
| `SecretSharing.Reconstruct` | src/cbmpc/crypto/secret_sharing.cpp:415-481 | Succeeds exactly when the holders of the given shares satisfy the node, and then returns the shared value. |
| `SecretSharing.ShareThenReconstruct` | src/cbmpc/crypto/secret_sharing.cpp:325-334 | Share, keep the shares of any set of parties, reconstruct: success exactly for the sets that satisfy the structure, and the secret comes back. |
| `Polynomials.Adjust` | src/cbmpc/crypto/secret_sharing.cpp:33-44 | A polynomial with more coefficients than there are points can be given any value at one further place without changing its values at the points. |
| `Polynomials.AnyValues` | src/cbmpc/crypto/secret_sharing.cpp:33-44 | For every secret there are coefficients in the field that give any values at fewer distinct non-zero points than the threshold. |
| `Hiding.AndAnyValues` | src/cbmpc/crypto/secret_sharing.cpp:9-22 | For every secret there are draws that make all shares of an AND node but one any values of the field. |
| `Hiding.ThresholdAnyValues` | src/cbmpc/crypto/secret_sharing.cpp:24-46 | For every secret there are draws that make any t - 1 shares of a threshold node any values of the field. |
| `Hiding.ZeroPidReveals` | src/cbmpc/crypto/secret_sharing.cpp:42-44 | A child whose identifier is 0 modulo q gets the secret itself, so the condition on the identifiers is needed. |
| `Hiding.SharesLinear` | src/cbmpc/crypto/secret_sharing.cpp:276-323 | Sharing over the whole tree is linear: adding secrets and draws adds the shares. |
| `Hiding.Mask` | src/cbmpc/crypto/secret_sharing.cpp:276-323 | For a set that does not satisfy the structure there are draws that share any value with zeros for the whole set. |
| `Hiding.SameView` | src/cbmpc/crypto/secret_sharing.cpp:325-334 | For two secrets and a set that does not satisfy the structure one fixed move of the draws turns every sharing of the first into a sharing of the second that looks the same to the set. |
| `Hiding.PerfectSecrecy` | src/cbmpc/crypto/secret_sharing.cpp:325-334 | Whatever a set that does not satisfy the structure sees comes from equally many draws for every secret. |
| `Hiding.SatisfiedSeeSecret` | src/cbmpc/crypto/secret_sharing.cpp:415-481 | What a set that satisfies the structure sees goes with one secret only. |
| `Booth.LimbBytes` | src/cbmpc/crypto/base_ec_core.cpp:10-26 | Byte i of the 33-byte array is byte i of the scalar, from limbs in memory order. |
| `Booth.BoothWnaf.ReadWindow` | src/cbmpc/crypto/base_ec_core.cpp:37-48 | Two bytes at the computed offset, shifted and masked, are the win + 1 bits of the window; no read leaves the 33 bytes. |
| `Booth.MaskedWindow` | src/cbmpc/crypto/base_ec_core.cpp:37-48 | The two bytes hold the whole window for windows of at most 8 bits, at the end of the array too. |
| `Booth.DigitOf` | src/cbmpc/crypto/base_ec_core.cpp:50-56 | The branch-free masks compute the signed digit, of magnitude at most 2^(win-1). |
| `Booth.BoothWnaf.Get` | src/cbmpc/crypto/base_ec_core.cpp:30-63 | One call: the digit of the current window, its magnitude bound, and the move to the next window, forwards or backwards. |
| `BoothStreams.ForwardTotal` | src/cbmpc/crypto/base_ec_core.cpp:30-63 | The digit sum telescopes to the low bits of the scalar less a carry out of the last window. |
| `BoothStreams.StreamReconstructs` | src/cbmpc/crypto/base_ec_core.cpp:30-63 | The weighted digits add up to the scalar if and only if it lies below half the range of the windows. |
| `BoothStreams.BackwardCoversAll` | src/cbmpc/crypto/base_ec_core.cpp:17-26 | Backward mode with windows of at least 2 bits covers every scalar of the declared width. |
| `BoothStreams.ForwardCovers` | src/cbmpc/crypto/base_ec_core.cpp:30-35 | Forward mode covers the width when the number of bits is not a multiple of the window size. |
| `BoothStreams.ForwardMisses` | src/cbmpc/crypto/base_ec_core.cpp:30-35 | Otherwise forward mode is wrong for the largest scalar of the width. |
| `BoothStreams.BackwardMisses` | src/cbmpc/crypto/base_ec_core.cpp:17-26 | Backward mode with one-bit windows is wrong for the largest scalar of the width. |
| `BoothStreams.WidthsCovered` | src/cbmpc/crypto/base_ec_core.cpp:6-63 | Every scalar of the width is recoded, backwards, if and only if windows have at least two bits, and forwards if and only if the number of bits is not a multiple of the window size. |
| `BoothStreams.StreamsAgree` | src/cbmpc/crypto/base_ec_core.cpp:30-63 | The reversed backward stream is the forward stream with at most one more digit, the scalar bit below that window. |
| `BoothStreams.Recode` | src/cbmpc/crypto/base_ec_core.cpp:6-63 | Calling `get` until it says no yields exactly the stream the theorems are about. |
| `PointMul.Table` | include-internal/cbmpc/internal/crypto/base_ec_core.h:447-466 | The doublings and additions fill the table with the multiples 0 to 16. |
| `PointMul.Select` | include-internal/cbmpc/internal/crypto/base_ec_core.h:418-434 | The scan over the whole table gives the entry at the index, infinity for 0. |
| `PointMul.Mul` | include-internal/cbmpc/internal/crypto/base_ec_core.h:505-518 | Doubling and adding the looked-up entries of the backward digits gives the scalar times the point. |
| `PointMul.MulGlv` | include-internal/cbmpc/internal/crypto/base_ec_core.h:475-503 | The loop over two scalars with their signs gives the first times the point plus the second times its image under the endomorphism. |
| `GeneratorMul.Precompute` | include-internal/cbmpc/internal/crypto/base_ec_core.h:601-622 | Line i of the table holds the multiples 1 to 32 of 2^(6 i) times the generator. |
| `GeneratorMul.MulToGenerator` | include-internal/cbmpc/internal/crypto/base_ec_core.h:624-658 | One addition for each forward digit, with the two infinity flags, gives the weighted digit sum, and the scalar itself when the bit count of the order is not a multiple of 6. |
| `WideWords.Shift128IsArithmetic` | src/cbmpc/core/buf128.cpp:185-221 | 128-bit shifts from 64-bit words are multiplication modulo 2^128 and division by 2^n. |
| `WideWords.Shift256IsArithmetic` | src/cbmpc/core/buf256.cpp:147-183 | The same for 256-bit shifts built on 128-bit shifts. |
| `WideWords.Shift256MovesBits` | src/cbmpc/core/buf256.cpp:147-183 | Bit i moves exactly as `get_bit` reports. |
| `WideWords.GetBit128Value` | src/cbmpc/core/buf128.cpp:112-118 | `get_bit` reads the binary digit of the value. |
| `WideWords.GetBit256Value` | src/cbmpc/core/buf256.cpp:49-53 | `get_bit` reads the binary digit of the value. |
| `WideWords.SetBit128Moves` | src/cbmpc/core/buf128.cpp:120-130 | `set_bit` changes exactly the one bit that `get_bit` then reports. |
| `WideWords.SetBit256Moves` | src/cbmpc/core/buf256.cpp:55-61 | `set_bit` on the half that holds the bit changes exactly that bit. |
| `WideWords.FromBitIndexBits` | src/cbmpc/core/buf128.cpp:106-110 | `from_bit_index` is the word with exactly that bit set. |
| `CarrylessMul.ClmulIsPolynomialProduct` | src/cbmpc/core/buf256.cpp:199-215 | Shift-and-add without carries is multiplication of polynomials over GF(2): every coefficient is the convolution sum. |
| `CarrylessMul.Recombine` | src/cbmpc/core/buf256.cpp:217-231 | The four result words recombine four double-width products at their places. |
| `CarrylessMul.ProductOfHalves` | src/cbmpc/core/buf256.cpp:199-231 | The product of two numbers given by halves is the sum of the four products at their places. |
| `CarrylessMul.MulFastIsProduct` | src/cbmpc/core/buf256.cpp:194-231 | The fast form computes the polynomial product of the 128-bit operands. |
| `CarrylessMul.SerialRound` | src/cbmpc/core/buf256.cpp:237-240 | One round of the loop adds the shifted operand when its bit is set. |
| `CarrylessMul.MulSerial` | src/cbmpc/core/buf256.cpp:233-242 | The 128-round loop computes the polynomial product. |
| `CarrylessMul.FastEqualsSerial` | src/cbmpc/core/buf256.cpp:190-244 | Both forms give the same 256-bit result. |
| `BitVector.LimbCountExact` | include/cbmpc/core/buf.h:259 | As int arithmetic, the limb count of any non-negative int is defined, and then right, if and only if the count is at most MAX_BITS; with wrap-around it is right for one count more and negative past that. |
| `BitVector.AppendOverflows` | src/cbmpc/core/buf.cpp:629-634 | Appending to MAX_BITS bits passes every assertion and overflows in the limb count. |
| `BitVector.ConcatOverflows` | src/cbmpc/core/buf.cpp:668-676 | So does concatenating two vectors whose sizes pass the assertion, and the wrapped count is negative. |
| `BitVector.BytesToBitsExact` | include-internal/cbmpc/internal/core/utils.h:31-34 | The bit count of a byte count is defined if and only if it fits an int. |
| `BitVector.BitVec.constructor` | src/cbmpc/core/buf.cpp:512-518 | For every count an int can hold: a valid vector of false bits if and only if the count is at most MAX_BITS. |
| `BitVector.BitVec.Get` | src/cbmpc/core/buf.cpp:619-622 | Reads the visible bit. |
| `BitVector.BitVec.Set` | src/cbmpc/core/buf.cpp:624-640 | The masks replace exactly the bit at the index. |
| `BitVector.BitVec.ClearUnused` | src/cbmpc/core/buf.cpp:549-553 | Clears the unused tail of the last limb and nothing visible. |
| `BitVector.BitVec.Resize` | src/cbmpc/core/buf.cpp:566-600 | Defined exactly up to MAX_BITS; then the prefix stays and growth exposes only false bits, whatever junk the tail held, through all branches. |
| `BitVector.BitVec.Alloc` | src/cbmpc/core/buf.cpp:602-615 | Defined exactly up to MAX_BITS; within the same limbs the words stay, so stale bits become visible; its callers overwrite them. |
| `BitVector.BitVec.CopyFrom` | src/cbmpc/core/buf.cpp:492-506 | The copy shows the bits of the source. |
| `BitVector.BitVec.Append` | src/cbmpc/core/buf.cpp:629-634 | For every count the assertion admits: appends one bit if and only if fewer than MAX_BITS were there. |
| `BitVector.BitVec.XorAssign` | src/cbmpc/core/buf.cpp:649-654 | Limb-wise xor is bit-wise xor, also of a vector with itself and over junk. |
| `BitVector.BitVec.Xored` | src/cbmpc/core/buf.cpp:656-666 | The uninitialised result is fully written. |
| `BitVector.MoveBytes` | src/cbmpc/core/buf.cpp:681-692 | A byte-wise memmove over limbs, seen as bits, between two vectors or within one. |
| `BitVector.BitVec.AppendAll` | src/cbmpc/core/buf.cpp:668-700 | Concatenation in place: byte path, bit path and self-append; the operand keeps its value. Defined exactly for totals up to MAX_BITS among those the assertion admits. |
| `BitVector.BitVec.Concat` | src/cbmpc/core/buf.cpp:702-721 | Concatenation into a new vector; both operands keep their values. Defined exactly for totals up to MAX_BITS. |
| `BitVector.BitVec.ToBin` | src/cbmpc/core/buf.cpp:555-558 | The bytes of the visible bits, the padding zero. |
| `BitVector.FromBin` | src/cbmpc/core/buf.cpp:560-564 | The vector of the bits of some bytes, defined exactly while there are at most MAX_BITS of them. |
| `BitVector.PackedRoundTrip` | src/cbmpc/core/buf.cpp:555-564 | Bytes and length determine the bits; `from_bin` of `to_bin` pads to a multiple of 8. |
| `Buffers.Buf.Resize` | src/cbmpc/core/buf.cpp:145-192 | The four transitions between inline and heap storage keep the common prefix, and every live heap array still has exactly one owner. |
| `Buffers.Buf.Alloc` | src/cbmpc/core/buf.cpp:194-203 | The old storage is released; the new contents are unspecified. |
| `Buffers.Buf.Free` | src/cbmpc/core/buf.cpp:74-80 | Releases the heap array once, if there is one. |
| `Buffers.Buf.FromView` | src/cbmpc/core/buf.cpp:28-33 | A new buffer with the bytes of a view. |
| `Buffers.Buf.CopyAssign` | src/cbmpc/core/buf.cpp:118-129 | Copy assignment, self-assignment included. |
| `Buffers.Buf.MoveAssign` | src/cbmpc/core/buf.cpp:131-143 | Move assignment hands the heap array over and empties the source. |
| `Buffers.Buf.AssignView` | src/cbmpc/core/buf.cpp:92-100 | Assignment from a view gives the bytes the view showed, also when it shows part of this buffer. |
| `Buffers.Buf.AppendView` | src/cbmpc/core/buf.cpp:259-269 | `+=` of a view appends the bytes it showed, also when it shows part of this buffer. |
| `KeyBlobs.ValidateJob` | src/cbmpc/api/job_util.h:49-64 | Accepts exactly 2 to 64 distinct non-empty names with a self index in range. |
| `KeyBlobs.NamesMatch` | src/cbmpc/api/ecdsa_mp.cpp:141-148 | Equal sizes and one-way containment are equality of the name sets if and only if no name is repeated. |
| `KeyBlobs.AcceptedNames` | src/cbmpc/api/ecdsa_mp.cpp:129-187 | An accepted blob has share points for exactly the parties of the job if and only if the job repeats no name. |
| `KeyBlobs.RepeatedNameAccepted` | src/cbmpc/api/ecdsa_mp.cpp:141-170 | Taken alone, without the validation that every caller does first, the function accepts a blob with a share point of a stranger for a job that repeats a name. |
| `KeyBlobs.LoadKey` | src/cbmpc/api/ecdsa_mp.cpp:338-347 | Validation of the job and then the blob, as the callers do it: success exactly for valid jobs and accepted blobs, and then the blob has share points for exactly the parties of the job. |
| `KeyBlobs.LoadedKeysAddUp` | src/cbmpc/api/ecdsa_mp.cpp:338-347 | For valid jobs whose parties have all loaded their keys the private shares add up to the secret behind the public key, and every blob is about exactly the parties of the job. |
| `KeyBlobs.ToyIsProper` | src/cbmpc/api/ecdsa_mp.cpp:129-187 | What the blob theorems assume of the group and its encodings can be met. |
| `KeyBlobs.DecodePoints` | src/cbmpc/api/ecdsa_mp.cpp:161-170 | All share points are decoded, by name. |
| `KeyBlobs.SumPoints` | src/cbmpc/api/ecdsa_mp.cpp:172-173 | The sum over the map, in whatever order it is walked. |
| `KeyBlobs.Deserialize` | src/cbmpc/api/ecdsa_mp.cpp:129-187 | For any list of names, repeated ones included: accepts exactly the consistent blobs of the party: names, range, sum of the share points, own share point. |
| `KeyBlobs.SharesAddUp` | src/cbmpc/api/ecdsa_mp.cpp:172-179 | If all parties hold accepted blobs with the same share points, the private shares add up to the secret behind the public key. |
| `KeyBlobs.Detach` | src/cbmpc/api/ecdsa_mp.cpp:488-506 | The share leaves in as many bytes as the group order has; the blob keeps everything else. |
| `KeyBlobs.Attach` | src/cbmpc/api/ecdsa_mp.cpp:508-548 | Succeeds exactly when the scalar, reduced, is the logarithm of the blob's own finite share point and the caller names that point. |
| `KeyBlobs.AttachRestores` | src/cbmpc/api/ecdsa_mp.cpp:488-548 | On the public part of an accepted blob attach restores the original blob or fails, and succeeds exactly for encodings of the non-zero share modulo q. |
| `KeyBlobs.DetachedRejected` | src/cbmpc/api/ecdsa_mp.cpp:156-179 | A detached blob is still accepted if and only if the share was zero. |
| `KeyBlobs.ScalarRoundTrip` | src/cbmpc/crypto/base_bn.cpp:495-527 | A scalar survives the fixed-width and the minimal big-endian encoding. |
| `KeyBlobs.EnoughBits` | src/cbmpc/api/ecdsa2pc.cpp:52-55 | A number has at least k bits if and only if it is at least 2^(k-1). |
| `KeyBlobs.SizeInBytes` | src/cbmpc/crypto/base_bn.cpp:486-489 | The size of a number is the least number of bytes that hold it. |
| `TwoPartyBlobs.DeserializeTwo` | src/cbmpc/api/ecdsa2pc.cpp:34-84 | Accepts exactly the well-formed blobs whose modulus is at least 2^2047, with role 0 bound to its ciphertext. |
| `TwoPartyBlobs.DetachTwo` | src/cbmpc/api/ecdsa2pc.cpp:207-234 | The scalar leaves in minimal form, empty exactly for zero, and the share is replaced by N. |
| `TwoPartyBlobs.AttachTwo` | src/cbmpc/api/ecdsa2pc.cpp:236-300 | Succeeds exactly when the scalar is non-empty, the completed blob is a key, its modulus at least 2^2047, and the caller's finite point belongs to the scalar. |
| `TwoPartyBlobs.RedactedRejected` | src/cbmpc/api/ecdsa2pc.cpp:220-232 | A detached blob is never accepted. |
| `TwoPartyBlobs.AttachedAccepted` | src/cbmpc/api/ecdsa2pc.cpp:236-300 | Whatever attach lets through is accepted again. |
| `TwoPartyBlobs.FirstPartyExact` | src/cbmpc/api/ecdsa2pc.cpp:273-278 | For role 0 a successful attach restores the exact integer share and the same key. |
| `TwoPartyBlobs.SecondPartyCongruent` | src/cbmpc/api/ecdsa2pc.cpp:280-290 | For role 1 with the original share point the share comes back modulo the group order. |
| `TwoPartyBlobs.SecondPartyShifts` | src/cbmpc/api/ecdsa2pc.cpp:268-290 | Role 1 is not bound to the integer: exactly the congruent non-empty scalars below N attach. |
| `TwoPartyBlobs.DetachThenAttach` | src/cbmpc/api/ecdsa2pc.cpp:207-300 | Attaching what was detached works if and only if the share is not 0 modulo the group order. |
| `Cmems.SplitFlat` | src/cbmpc/c_api/util.h:129-204 | Splitting a flattened list at the running sizes gives the list back. |
| `Cmems.AllocCmems` | src/cbmpc/c_api/util.h:129-174 | Success exactly within the int limits and with both allocations granted; otherwise nothing stays allocated; arrays that were live are untouched. |
| `Cmems.ViewCmems` | src/cbmpc/c_api/util.h:176-204 | Success exactly for well-formed arrays; every view is in bounds and shows its piece; E_RANGE exactly on overflow. |
| `Cmems.FlattenAndView` | src/cbmpc/c_api/util.h:129-204 | Viewing a flattened list of total size up to INT_MAX shows the same list. |
| `Cmems.ReceiveAll` | src/cbmpc/c_api/transport_adapter.h:54-121 | The list is split the same way. On every path both callback pointers are dead afterwards, and a block is freed twice if and only if the callback succeeded and gave the same block as data and as sizes. |
| `Cmems.SharedFreedTwice` | src/cbmpc/c_api/transport_adapter.h:66-121 | One block answered as data and as sizes is delivered and freed twice. |
| `SendRounds.SmallestConfig` | demo-cpp/common/mpc_job_session.cpp:7-59 | One thread with one empty message meets the limits the theorems assume. |

## Left out

- Interleaving: the C++ memory model, spurious wake-ups and lost notifications; a wait is a guard over sequentially consistent steps, and each critical section is one step.
- `receive` and `receive_all` share one machine; `receive` is the case of one sender whose verdict resets the output.
- `set_parallel` and thread counts that change: N is fixed for a run, all threads of a party run the same program of calls, and thread ids are 0 to N-1.
- ReceiveRounds.InvStep: leaves out answers with which the decode loop indexes past the senders, whose effect is undefined; `DecodeAll` says exactly which.
- Sessions.SessionsAreFifo: a message that the transport has taken is lost only to a faulty receive, never reordered or repeated.
- Packing and unpacking of typed messages in a job (`uniform_msg_t`, `nonuniform_msg_t`): messages are byte strings.
- Converter: maps, tuples, arrays, DER and `convert_code_type`; a string's write assertion is a precondition.
- SendRounds.SendRunSafe: assumes each bundle fits the converter's int offset, as the original's assertion does.
- TreeBuilder.GenInternalNodeName: the 64-bit counter is a natural number; `CounterBounded` shows it cannot wrap.
- SecretSharing.ShareThenReconstruct: child identifiers are assumed non-zero and distinct modulo q (they are hashes of names in the original).
- Hiding.PerfectSecrecy: counts draws, each choice taken as equally likely, and assumes child identifiers that are not 0 modulo q, which `ZeroPidReveals` shows to be needed; the random generator is not modelled, nor are the internal and public shares that `share_recursive` can put out beside those of the leaves.
- Reconstruction in the exponent and the checks of shares against public data of ancestors: they repeat the recursion over group elements.
- Lagrange basis over small integer identifiers (the overloads with `int` points) and the Montgomery forms.
- Booth.BoothWnaf.Get: windows of more than 8 bits, which the two-byte read does not support; `ct_get3` and other SIMD table look-ups.
- Zeroisation, constant time and secure erasure: not functional properties.
- Elliptic-curve formulas and point encodings: points are multiples of base points, decoding is a parameter that inverts encoding.
- PointMul.MulGlv: `glv_decompose` is not modelled; the two scalars, their signs and their bound are inputs, and so is the bound of `PointMul.Mul`.
- The branch of the multiplication for other table sizes, which is not compiled.
- Paillier: `verify_cipher` and `decrypt` are parameters.
- Key blobs as bytes: the outcome of parsing is an input; the map inside the blob is not part of the wire model.
- The eddsa and schnorr variants of the blob code, HD keysets and the `extern "C"` wrappers: they repeat the modelled logic.
- BitVector.BitVec.Resize: limbs are natural numbers rather than 64-bit words; only their low 64 bits are ever visible.
- Buffers.Buf.Resize: the heap address has a field of its own instead of overlaying the inline bytes; allocation failure is not modelled, since it throws.
- Buffers.Buf.MoveAssign: integer-valued assignments (`buf128_t`, `buf256_t`) and `operator^=` on byte buffers are not modelled.
- Cmems.ReceiveAll: a block seen both as ints and as bytes has two independent contents, since nothing is written through either view.
- DKG, refresh, signing, PVE, TDH2 and zero-knowledge internals are not part of this model.
