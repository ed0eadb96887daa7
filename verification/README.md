# Verification of the JSON patch engine and of the point-to-point transmitter

The repository carries two independent pieces of logic, and this project models and proves properties of both.

**JSON values** (`nlohmann/json.hpp`, `nlohmann/detail/json_pointer.hpp`). `Json.dfy` has the value trees with
`operator==` and `operator<`, whose laws are in `JsonOrder.dfy`, `JsonOrderDirection.dfy` and `DoubleRounding.dfy`;
`JsonPointer.dfy` has the string form of pointers and array indices; `JsonPatch.dfy`, `JsonDiff.dfy` and
`MergePatch.dfy` have the functions `patch`, `diff` and `merge_patch`. `PatchDocuments.dfy` says which patch documents
are read, and as what; `PatchFailures.dfy` gives the exceptions of the operations; `PatchLifting.dfy`, `PatchLaws.dfy`
and `PatchRfc.dfy` prove how operations compose, undo each other, and relate to RFC 6902. `DiffContents.dfy` says
which operations a diff holds. The main result, in `DiffRoundTrip.dfy`, is the exact condition for the invariant that
the documentation of `diff` promises, `source.patch(diff(source, target)) == target`: it holds if and only if the
target contains no NaN and no discarded value and no index above 2^31 - 1 has to be named. It is proved from the loops
that build the patch document, through the escaping of keys, to the exceptions of `std::stoi`.

**Transmitter and applications** (`model/`). `NetDevice.dfy` has the READY/BUSY transmitter with its queue and its
scheduled event, `NetDeviceRuns.dfy` what holds over all its runs; `UdpAppClient.dfy` and `UdpAppServer.dfy` have the
two-phase sender and the two-window receiver, `ClientServer.dfy` a complete run of one against the other.

Methods that loop or assign in the source are methods or classes here, each verified against a function of its inputs
or its old state; the lemmas are about those functions. Failures are values of `Result`: the identifiers of the
library's exceptions, the two exceptions of `std::stoi`, or a failed assertion.

Where code and documentation disagree, the model follows the code:

- The invariant of `diff` fails on NaN (`NaNBreaksRoundTrip`) and on arrays of more than 2^31 elements
  (`HugeArrayBreaksRoundTrip`).
- `patch` accepts operations for which RFC 6902 demands an error. `AcceptedIsRfcIff` says exactly which: those that
  name an element by something else than a plain numeral, add or remove below a value that does not exist or is no
  container, or move a value into itself. Where the RFC prescribes a result, `patch` computes it, unless `std::stoi`
  cannot read an index (`RfcIsAccepted`).
- `operation_add` looks up the first step to the parent only; what is missing behind it is created (`AddBelowNull`,
  `AddBelowArray`), as objects or as arrays filled up with nulls.
- `MaxPackets` is the maximum number of packets of the client according to its description; a run sends twice that
  number and one more (`ClientRun`, `StopsAsIntended`). The high window of the server opens with a low packet (`FullRun`).

## Model

| member | source | states |
|---|---|---|
| JsonOrder.EqReflexiveIffProper | nlohmann/json.hpp:5523-5558 | A value equals itself if and only if it contains no NaN and no discarded part |
| JsonOrder.EqSymmetric | nlohmann/json.hpp:5523-5586 | `operator==` is symmetric on all values, through all number conversions |
| JsonOrder.Trichotomy | nlohmann/json.hpp:5681-5747 | On plain values exactly one of <, ==, > holds, through nested arrays and maps |
| JsonOrder.Transitive | nlohmann/json.hpp:5681-5747 | <, == and their mixtures are transitive on plain values |
| JsonOrder.StrictTotalOrderModuloEq | nlohmann/json.hpp:5519-5747 | == is an equivalence, < a strict total order modulo it that respects it |
| JsonOrderDirection.TypesInOrder | nlohmann/detail/value_t.hpp:63-74 | null, booleans, numbers, objects, arrays and strings are in this order and never in another; a discarded value is neither less than nor equal to anything |
| JsonOrderDirection.ScalarsInOrder | nlohmann/json.hpp:5702-5733 | false is below true, numbers go by value, and an integer is compared with a float as the double that it is cast to |
| JsonOrderDirection.UnsignedAsSigned | nlohmann/json.hpp:5734-5741 | An unsigned number is compared with a signed one as the signed number to which it is congruent modulo 2^64 |
| JsonOrderDirection.StringsByFirstDifference | nlohmann/json.hpp:5699-5700 | A string is less exactly if at the first difference it has the smaller character, or ends |
| JsonOrderDirection.ArraysByFirstDifference | nlohmann/json.hpp:5690-5691 | The same for arrays, where elements differ if < holds in either direction |
| JsonOrderDirection.ObjectsByFirstDifference | nlohmann/json.hpp:5693-5694 | The same for objects in key order, where the key decides before the value |
| DoubleRounding.RoundsToNearest | nlohmann/json.hpp:5718-5733 | The cast to double gives a number with a 53-bit significand, no such number is nearer, and of two the even one is taken |
| DoubleRounding.CastIsRounding | nlohmann/json.hpp:5718-5733 | The cast keeps the sign, and the value exactly if it has a 53-bit significand |
| JsonOrder.UnsignedBoundIsExact | nlohmann/json.hpp:5576-5583 | The order respects equality with an unsigned number exactly when that number fits int64 |
| JsonOrder.IntegerBoundIsExact | nlohmann/json.hpp:5560-5575 | Together with floats, == is transitive on all integers up to a bound exactly when the bound is at most 2^53 |
| JsonPointer.EscapeRoundTrip | nlohmann/detail/json_pointer.hpp:558-582 | `escape` and `unescape` are inverse between all strings and the well-formed tokens |
| JsonPointer.PointerRoundTrip | nlohmann/detail/json_pointer.hpp:45-70 | A pointer is what its string form parses to, and every string that parses is the string form of its pointer |
| JsonPointer.SplitOneToken | nlohmann/detail/json_pointer.hpp:483-543 | How `split` cuts off one token up to the next slash |
| JsonPointer.ArrayIndexOfNumeral | nlohmann/detail/json_pointer.hpp:85-97 | The index read from the numeral of n is n up to INT_MAX; beyond it `std::stoi` throws |
| JsonPointer.ArrayIndexByParts | nlohmann/detail/json_pointer.hpp:85-97 | For a text of white space, a sign, digits and a rest: the value, or the exception for no digits, for no int, and for a rest that was not read |
| JsonPointer.StoiPartsExist | nlohmann/detail/json_pointer.hpp:85-97 | Every text has such parts |
| JsonPatch.CheckedIndexOutcomes | nlohmann/detail/json_pointer.hpp:292-337 | Numerals, "-", leading zeros and tokens without digits give the documented results and exceptions |
| JsonPatch.Execute | nlohmann/json.hpp:7580-7661 | The switch over the six operations computes the operation's outcome |
| JsonPatch.Patch | nlohmann/json.hpp:7403-7666 | The loop over a patch document computes PatchSpec, on a copy; what that is, is said by the rows of PatchDocuments and PatchFailures |
| PatchDocuments.PointerTextIff | nlohmann/detail/json_pointer.hpp:483-543 | A text is read as a pointer exactly if it is empty or begins with a slash and every tilde is followed by 0 or 1; 107 and 108 otherwise |
| PatchDocuments.ParseOpIff | nlohmann/json.hpp:7542-7660 | An element is read as an operation exactly if it has that operation's members, whatever else it has |
| PatchDocuments.ElementRefused | nlohmann/json.hpp:7542-7660 | Every other element gets 104 unless it is an object, 105 for a missing or non-string member or an unknown op, 107 or 108 for its pointers |
| PatchDocuments.PatchCarriesOut | nlohmann/json.hpp:7533-7663 | A patch carries out what its elements say, up to the first exception, be it that of an operation or that of a refused element |
| PatchDocuments.PatchSucceedsIff | nlohmann/json.hpp:7533-7663 | A patch has a result exactly if it is an array whose elements say operations that apply one after the other; 104 if it is no array |
| PatchDocuments.RefusedInPatch | nlohmann/json.hpp:7540-7663 | A refused element behind operations that succeed gives the patch its exception, whatever follows |
| PatchFailures.IndexByParts | nlohmann/detail/json_pointer.hpp:222-337 | The index steps of both navigations on every token, by its parts: 109, std::out_of_range, 404, 401, or the index |
| PatchFailures.NumberThenText | nlohmann/detail/json_pointer.hpp:85-97 | A number followed by anything else is not an index: 404 |
| PatchFailures.SpecialTokens | nlohmann/detail/json_pointer.hpp:249-262 | The token - is 402 for `at` and the next index for `operator[]`; leading zeros are 106 for both |
| PatchFailures.FirstObstacle | nlohmann/detail/json_pointer.hpp:298-350 | A lookup fails with the exception of its first obstacle: 403 for a missing key, 404 for a scalar, that of the index in an array |
| PatchFailures.BehindObstacle | nlohmann/json.hpp:7580-7654 | Replace, move, copy and remove throw that exception; test turns every out_of_range into 501 and passes the others on |
| PatchFailures.TestOutcome | nlohmann/json.hpp:7633-7654 | Test leaves the document as it is, or throws 501, by equality with what is found |
| PatchFailures.RemoveMemberOutcome | nlohmann/json.hpp:7506-7525 | Remove of a member: the object without it, or 403; 405 for the root |
| PatchFailures.RemoveElementOutcome | nlohmann/json.hpp:7526-7530 | Remove of an element: the array without it, 401 past the end, and what array_index throws |
| PatchFailures.AddMemberOutcome | nlohmann/json.hpp:7462-7500 | Add under a null or an object sets the member; under another scalar the assertion fails; the root is replaced |
| PatchFailures.AddElementOutcome | nlohmann/json.hpp:7472-7493 | Add to an array: at the end for -, in front of the named element, or 401 past the end |
| PatchFailures.AddNeedsFirstStep | nlohmann/json.hpp:7451-7456 | Of the way to the parent, add looks up the first step, and throws its exception |
| PatchFailures.AddBelowNull | nlohmann/detail/json_pointer.hpp:222-275 | An add through a null makes it an array for - and for a numeral, filled up with nulls |
| PatchFailures.AddBelowNullOtherwise | nlohmann/detail/json_pointer.hpp:222-275 | Any other key makes it an object; the empty key is 109, superfluous zeros are 106 |
| PatchFailures.AddBelowArray | nlohmann/detail/json_pointer.hpp:249-275 | An array on the way is filled up with nulls to the named index |
| PatchLifting.EditAtPrefix | nlohmann/detail/json_pointer.hpp:298-350 | An edit through `at` below an existing prefix is that edit of the subtree, put back in place, with the same failures |
| PatchLifting.EditCreatingPrefix | nlohmann/detail/json_pointer.hpp:222-290 | The creating `operator[]` creates nothing along an existing prefix |
| PatchLifting.PutFrame | nlohmann/json.hpp:7594-7599 | Replacing the value at one location leaves every diverging location as it is |
| PatchLifting.LiftOp | nlohmann/json.hpp:7442-7661 | An operation that succeeds on a subtree succeeds with a path prefix on the document and changes that subtree only |
| PatchLifting.LiftOps | nlohmann/json.hpp:7540-7663 | The same for whole patches that keep their root; index overflows are preserved too |
| PatchLifting.LiftedPatchIsLocal | nlohmann/json.hpp:7540-7663 | After a prefixed patch the prefix holds the patched subtree and diverging locations are untouched |
| PatchLaws.AddedValueIsThere | nlohmann/json.hpp:7442-7503 | After a successful add the value is found at its path, also where parents had to be created |
| PatchLaws.RemoveUndoesAddIff | nlohmann/json.hpp:7442-7531 | Under an existing parent, remove after add restores the document exactly when the place was new |
| PatchLaws.MoveWithinArray | nlohmann/json.hpp:7601-7616 | A move within one array keeps length and multiset, puts the element where asked, and touches nothing outside |
| PatchRfc.FoundIsRfcIff | nlohmann/detail/json_pointer.hpp:298-350 | A location that `at` finds is one of RFC 6901 exactly if every array index is a plain numeral |
| PatchRfc.AcceptedIsRfcIff | nlohmann/json.hpp:7580-7661 | Of the operations that patch accepts, RFC 6902 permits exactly those in its form, all six kinds, and the results are the same |
| PatchRfc.RfcIsAccepted | nlohmann/json.hpp:7580-7661 | Whatever the RFC permits is accepted, exactly if `std::stoi` can read the indices; otherwise it throws |
| PatchRfc.PatchAgreesWithRfc6902 | nlohmann/json.hpp:7540-7663 | Both directions for patches of any length |
| PatchRfc.RemoveBelowScalarSucceeds | nlohmann/json.hpp:7506-7531 | Remove below a scalar, anywhere in a document, is accepted without effect, against the RFC |
| PatchRfc.AddCreatesParents | nlohmann/json.hpp:7451-7460 | An add of three keys whose first one names an object creates the missing second one, against the RFC |
| JsonDiff.ParseEncoded | nlohmann/json.hpp:7542-7605 | Reading an element of a patch document gives the operation it was made from |
| JsonDiff.Diff | nlohmann/json.hpp:7701-7824 | The recursive algorithm returns the encoding of the operation list under its path argument; which list, is said by the rows of DiffContents |
| DiffContents.DiffHoldsIff | nlohmann/json.hpp:7701-7824 | An operation is in the diff exactly if the values call for it: replace what differs and is no pair of containers, remove what only the source has, add what only the target has, below containers of the same kinds |
| DiffContents.DiffPathsDistinct | nlohmann/json.hpp:7701-7824 | No two operations of a diff have the same path |
| DiffContents.DiffDocument | nlohmann/json.hpp:7701-7824 | The same of the patch document: its elements are those of the operations called for, each of them once |
| DiffContents.KindsDifferAbove | nlohmann/json.hpp:7714-7720 | Where an array meets an object there is one replace, and nothing for what is below, even at equal paths |
| JsonDiff.RemoveTail | nlohmann/json.hpp:7740-7752 | Inserting each removal at the fixed position puts the removals in descending order |
| JsonDiff.AppendTail | nlohmann/json.hpp:7754-7765 | The additions follow in ascending order |
| JsonDiff.DiffMembersInOrder | nlohmann/json.hpp:7771-7791 | The pass over the source's members: recursive changes, and removals of what the target lacks |
| JsonDiff.AddMembersInOrder | nlohmann/json.hpp:7793-7805 | The pass over the target's members: additions of what the source lacks |
| DiffRoundTrip.DiffEmptyIffEqual | nlohmann/json.hpp:7701-7824 | The diff is empty if and only if the values are equal |
| DiffRoundTrip.ArrayOpsEmptyIffEqual | nlohmann/json.hpp:7725-7767 | The passes over two arrays emit nothing if and only if the arrays are equal, without the early return |
| DiffRoundTrip.ObjectOpsEmptyIffEqual | nlohmann/json.hpp:7769-7808 | The same for the passes over two objects |
| DiffRoundTrip.DiffKeepsRoot | nlohmann/json.hpp:7727-7805 | No add or remove of a diff targets the root, so that diffs can be lifted |
| DiffRoundTrip.RemovesDescend | nlohmann/json.hpp:7740-7752 | The k-th removal has the k-th index from the end |
| DiffRoundTrip.RemovesApply | nlohmann/json.hpp:7740-7752 | All removals are valid when their turn comes and leave exactly the common prefix |
| DiffRoundTrip.AppendsApply | nlohmann/json.hpp:7754-7765 | All additions are valid when their turn comes and complete the array |
| DiffRoundTrip.DiffOpsApply | nlohmann/json.hpp:7674-7678 | Every operation succeeds in turn, at any nesting, with an exactly known result, or the exception is known |
| DiffRoundTrip.PatchedEqTarget | nlohmann/json.hpp:7674-7678 | The result equals the target exactly when the target equals itself |
| DiffRoundTrip.DiffPatchRoundTrip | nlohmann/json.hpp:7674-7678 | The documented invariant, on patch documents, with its exact condition |
| DiffRoundTrip.DiffThenPatch | nlohmann/json.hpp:7674-7678 | The same for the two algorithms one after the other |
| DiffRoundTrip.ShortArraysFit | nlohmann/json.hpp:7727-7765 | No array longer than 2^31 suffices for the condition on indices |
| DiffRoundTrip.NaNBreaksRoundTrip | nlohmann/json.hpp:7674-7678 | The invariant fails for NaN |
| DiffRoundTrip.HugeArrayBreaksRoundTrip | nlohmann/json.hpp:7674-7678 | The invariant fails beyond 2^31 elements |
| MergePatch.Cell.MergePatch | nlohmann/json.hpp:7877-7901 | In place and in any order of members, the loop computes MergePatch of section 2 of RFC 7396 |
| MergePatch.Cell.Member | nlohmann/json.hpp:3187-3204 | `operator[]` refers to the member, created as null if missing |
| MergePatch.Cell.Erase | nlohmann/json.hpp:3814-3823 | `erase` removes the member if it is there |
| MergePatch.MergeIdempotent | nlohmann/json.hpp:7877-7901 | Merging the same patch again changes nothing |
| MergePatch.MergeIntroducesNoNulls | nlohmann/json.hpp:7877-7901 | A merge into a target without null members has none |
| MergePatch.MergeIsNoOpIff | nlohmann/json.hpp:7877-7901 | A merge is without effect exactly on targets that already meet every demand of the patch |
| MergePatch.MergeFrame | nlohmann/json.hpp:7877-7901 | Locations that the patch does not name, at any depth, are as before |
| MergePatch.DisjointMergesCommute | nlohmann/json.hpp:7877-7901 | Patches without common members can be merged in either order or at once |
| NetDevice.Simulator.Schedule | model/point-to-point-net-device.cc:325 | One event more; a list in time order stays in order |
| NetDevice.InsertByTimePosition | model/point-to-point-net-device.cc:325 | The new event is the only addition, behind all events up to its time and in front of the later ones |
| NetDevice.PointToPointNetDevice.Attach | model/point-to-point-net-device.cc:371-386 | Attaching brings the link up and changes nothing else |
| NetDevice.PointToPointNetDevice.TransmitStart | model/point-to-point-net-device.cc:307-334 | From READY to BUSY, with one more event after transmission time and interframe gap, and a PhyTxDrop exactly if the channel refuses the packet |
| NetDevice.PointToPointNetDevice.TransmitComplete | model/point-to-point-net-device.cc:337-368 | Back to READY, or on to the next queued packet |
| NetDevice.PointToPointNetDevice.Send | model/point-to-point-net-device.cc:636-799 | All three branches: drop of the original packet without link, drop of the processed one with a full queue, queue, or queue and start; and the returned flag |
| NetDeviceRuns.StepKeepsInvariant | model/point-to-point-net-device.cc:307-368 | BUSY, a current packet and one pending event go together, READY means an empty queue; every step keeps this, the order and the schedule, and no assertion fails |
| NetDeviceRuns.RunsKeepInvariant | model/point-to-point-net-device.cc:307-799 | The same over all runs |
| NetDeviceRuns.RunRefinesRecurrence | model/point-to-point-net-device.cc:307-799 | What begins and ends in any run is an initial part of the departure recurrence of the accepted packets |
| NetDeviceRuns.FifoConservation | model/point-to-point-net-device.cc:307-799 | Accepted = completed, then in flight, then queued, in order |
| NetDeviceRuns.DepartureTimes | model/point-to-point-net-device.cc:322-325 | In every run a transmission ends after transmission time and gap, and the next begins then or when its packet is accepted, whichever is later |
| NetDeviceRuns.StartsDoNotOverlap | model/point-to-point-net-device.cc:322-325 | Start plus transmission time plus gap is no later than any later start, and none starts before its packet is accepted |
| NetDeviceRuns.StartIsLatestBusyPeriod | model/point-to-point-net-device.cc:322-325 | The recurrence in closed form: the latest busy period decides |
| NetDeviceRuns.SendAcceptsOrDrops | model/point-to-point-net-device.cc:766-798 | Accepted at the end of the line, or dropped without any other effect, exactly without link or with a full queue |
| NetDeviceRuns.SendStartsOwnPacket | model/point-to-point-net-device.cc:778-792 | A free transmitter sends the packet that was just queued; its one event is due after transmission time and gap |
| NetDeviceRuns.StepLosesIff | model/point-to-point-net-device.cc:327-332 | A step begins at most one transmission, and PhyTxDrop sees it exactly if the channel's answer is false |
| NetDeviceRuns.LostInRun | model/point-to-point-net-device.cc:327-332 | Over a run, a channel that takes everything loses nothing, and one that refuses everything loses all that begins |
| NetDeviceRuns.DeviceDrains | model/point-to-point-net-device.cc:337-368 | After one event for each packet in the device all accepted packets are through, on schedule |
| UdpAppClient.UdpAppClient.SetDataSize | model/udp-app-client.cc:226-239 | No data, and the new packet size |
| UdpAppClient.UdpAppClient.SetFillString | model/udp-app-client.cc:249-268 | The data are the string and its terminator |
| UdpAppClient.UdpAppClient.SetFillByte | model/udp-app-client.cc:271-287 | The data are the one byte, over and over |
| UdpAppClient.UdpAppClient.SetFillPattern | model/udp-app-client.cc:290-326 | Byte i of the data is byte i mod fillSize of the pattern; all copies stay in bounds |
| UdpAppClient.FillGuardAtLastOffset | model/udp-app-client.cc:309-315 | The 32-bit loop guard ends the loop at the last offset exactly if the sum does not wrap |
| UdpAppClient.UdpAppClient.Send | model/udp-app-client.cc:336-460 | One packet with the constant block, or with bytes 1024 * (m_sent_l - 6000) onwards of the random data, and the decision to go on |
| UdpAppClient.WireOfRun | model/udp-app-client.cc:343-384 | After n sends of a run: packets 0 to m_count are the constant block, and packet j after them holds bytes 1024 * (j - 6000) onwards |
| UdpAppClient.ClientRun | model/udp-app-client.cc:336-460 | With PacketSize 1024 the run has exactly the stated number of sends and payloads, and the assertion holds throughout |
| UdpAppClient.StopsAsIntended | model/udp-app-client.cc:439-459 | For every count: a run stops after exactly 2 * m_count + 1 sends if and only if 1 <= m_count < 2^31 |
| UdpAppClient.OtherSizeFailsAssertion | model/udp-app-client.cc:365 | With another PacketSize the first high send fails the assertion |
| UdpAppClient.LargestCountsNeverStop | model/udp-app-client.cc:439-459 | With the two largest counts the client never stops |
| UdpAppClient.AllReadsInsideIff | model/udp-app-client.cc:353-384 | For every count: all sends, low and high, copy bytes inside the 6144000 of the random data if and only if the count is 5999 |
| UdpAppServer.UdpAppServer.HandleRead | model/udp-app-server.cc:195-253 | The loop folds the single receptions |
| UdpAppServer.ServerWindows | model/udp-app-server.cc:195-253 | Counts and durations after any number of receptions, including the 16-bit wrap-around |
| UdpAppServer.MillisecondsTruncate | model/udp-app-server.cc:218-226 | Durations are cut off to whole milliseconds toward zero |
| UdpAppServer.LastReading | model/udp-app-server.cc:202-253 | m_last_t is the reading of the latest packet of the current window except its first, until the high counter wraps |
| UdpAppServer.HighWindowBeforeWrap | model/udp-app-server.cc:230-252 | The high duration is that of packets c + 1 to 2c until 2c + 65535 receptions |
| UdpAppServer.HighWindowAfterWrap | model/udp-app-server.cc:230-252 | One more reception replaces it |
| UdpAppServer.CountOneNeverEnds | model/udp-app-server.cc:207-228 | With a count of 1 the low window never ends |
| UdpAppServer.CountZeroEndsAtWrap | model/udp-app-server.cc:207-228 | With a count of 0 it ends when the 16-bit counter comes round, with packet 65536 |
| ClientServer.FullRun | model/udp-app-client.cc:336-460 | Over a lossless link, counts, durations, and which payloads each window covers |
| ClientServer.FullRunWraps | model/udp-app-server.h:75-77 | With a count of 65535 the high counter is 0 in the end |
| UdpAppServer.ReceivedAllAppend | model/udp-app-server.cc:195-253 | Several calls of HandleRead amount to one stream of receptions |
| ClientServer.VerdictOfFullRun | model/udp-app-server.cc:163-181 | Over a full run compression is detected exactly if the high window is longer by 101 full milliseconds |
| ClientServer.Verdict | model/udp-app-server.cc:163-253 | The same for the server itself, in however many calls the receptions come |

## Left out

- json_pointer's flatten and unflatten, parsing, serialization and the binary formats: none of them is needed by patch, diff or merge_patch.
- Strings are sequences of characters without an encoding; the sign of zero is not modelled, as no comparison sees it.
- References into a document: an edit through a reference is an edit at a path, and a partial change before an exception is not represented, because patch works on a copy. In merge_patch a child cell is written back when its recursive call returns.
- Memory limits of arrays, and what the creating operator[] does for a negative index on the way of an add: the source converts it to a huge size; the model reports a failure.
- The order of evaluation of the two sides of an assignment or comparison: where both may throw, the model reports the missing member of the operation first.
- Where the C++ assert on a primitive parent in operation_add is compiled out, nothing is added; the model reports the failed assertion.
- PatchRfc.AcceptedIsRfcIff: test compares numbers with operator== on both sides; it identifies unsigned numbers beyond int64 with negative ones, and the RFC's comparison differs there.
- JsonOrder.StrictTotalOrderModuloEq: is stated on plain values. EqReflexiveIffProper, UnsignedBoundIsExact and IntegerBoundIsExact show that NaN, larger unsigned numbers, and a longer interval of integers beside floats cannot be admitted; which triples of other values happen to satisfy the laws is not characterised.
- The zlib functions and the rewriting of payloads: the packet that goes on the wire is a parameter of Send.
- The channel, the simulator's own loop and the queue's implementation: an arbitrary boolean, steps in time order, and a drop-tail FIFO. The device's data rate is an arbitrary function from size to transmission time.
- Disposal of the device, receiving, addresses, sockets, printing and the sleep of the client.
- UdpAppClient.UdpAppClient.Send: the random data are a total function from byte offsets, so that reading outside of them is visible only in AllReadsInsideIff; a data size between 1 and 1023, set by an earlier fill, is excluded, as the copy of 1024 bytes would not fit; the products that overflow a C++ int are not modelled.
- ClientServer.VerdictOfFullRun: the server's durations are floats in the source; they are integers here, truncated to milliseconds without rounding error.
