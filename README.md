# ZooKeeper multi-operation codec, modelled in Dafny

This project models the client-side codec of ZooKeeper's multi-operation
transaction ("multi"):

- `Op` (`op.dfy`, module `Ops`): the four request shapes (create, delete,
  setData, check), their opcodes, the request record each converts to, their
  `equals` and `hashCode`.
- `OpResult` (`op_result.dfy`, module `OpResults`): the five result shapes
  (create, delete, setData, check, error), their `equals` and `hashCode`.
- `MultiTransactionRecord` (`multi_transaction_record.dfy`, module
  `RequestCodec`): a class holding the ops list, with `add`, the Iterable
  constructor, `serialize`, `deserialize` and `equals`.
- `MultiResponse` (`multi_response.dfy`, module `ResponseCodec`): a class
  holding the results list, with `serialize`, `deserialize` and
  `getResultList`.
- `Transaction` (`transaction.dfy`, module `Transactions`): the builder that
  appends ops in call order and hands them to the client's multi call.

`types.dfy` holds Java's `int` and `long` as 32- and 64-bit newtypes, the ACL
and Stat records, and the opcodes of `src/c/include/proto.h` (create 1,
delete 2, setData 5, check 13) with the closing header type -1. The error
opcode `ZooDefs.OpCode.error` is defined in ZooDefs, whose value is not
modelled, so it is a constant without a value (`ErrorTag`). Lemmas that need it to differ from the four
operation opcodes say so with `ErrorTagDistinct()`.

`archive.dfy` models the jute archive as the sequence of records written to
it (`Item`). The records are the multi header and the single-operation
request and response records, which the codec reuses as they are. Reading a
record at a position yields the item there if it is of the expected kind.
Otherwise the read fails the way an `IOException` from the archive does: the
stream has ended, or the record is malformed.

Both sequence codecs are specified by functions:

- `EncodeRequests` and `EncodeResponses` give what `serialize` writes.
- `DecodeRequests` and `DecodeResponses` give what `deserialize` appends and
  how the loop ends (`Decoded(values, outcome)`).

The imperative methods are proved equal to those functions. The round trips,
the termination rule, the fail-closed rejection of unknown types and the
per-shape layouts are proved about the functions. `scenarios.dfy` restates
the two round-trip tests on those functions.

Where the code's behaviour differs from its evident intent, the model states
the code as written and proves the intended behaviour beside it; the rest of
the model uses the intended one (see "## Findings"). Two further points:

- A failed `deserialize` raises, so the caller gets no list back. But the ops
  (or results) decoded before the failure stay appended in the object, as the
  loop adds each entry before reading the next header. The model follows
  that code: `Decoded.values` holds them.
- Several parts of the source cannot compile as written. They are modelled
  by intent:
  - `Op.Update` means `Op.SetData`.
  - The getters that `Op` does not declare return the stored fields.
  - `CreateResult.getName()` means `getPath()`.
  - `MultiResponse` declares no constructor that initialises `results`, no
    `add` and no `equals`. Here `results` starts empty and `Add` appends to
    it. Response equality is assumed to be pairwise `OpResult` equality in
    order, as `MultiTransactionRecord.equals` does for ops
    (`ResponsesEqual`).

## Model

| member | source | states |
|---|---|---|
| Ops.Op.Type | src/java/main/org/apache/zookeeper/Op.java:45-63 | every op's type is one of the four positive opcodes, and each opcode belongs to exactly one variant |
| Ops.CreateWithMode | src/java/main/org/apache/zookeeper/Op.java:85-91 | the CreateMode factory yields a create that stores path, data and ACL as given, with flags equal to the mode's flag value |
| Ops.ToRequestRecordRoundTrip | src/java/main/org/apache/zookeeper/Op.java:122-125 | the request record of an op carries exactly its fields: reading it back gives the same op |
| Ops.CreateEqualsAsWritten | src/java/main/org/apache/zookeeper/Op.java:93-115 | as written, two creates are equal exactly when data and flags agree; path and ACLs never make them unequal |
| Ops.CreateEqualityIgnoresPathAndAcl | src/java/main/org/apache/zookeeper/Op.java:100-114 | as written, two creates with different paths and different ACL lists compare equal |
| Ops.CreateEquals | src/java/main/org/apache/zookeeper/Op.java:93-115 | corrected create equality: equal exactly when path, data, ACL list (in order) and flags agree |
| Ops.OpEquals | src/java/main/org/apache/zookeeper/Op.java:138-210 | op equality: same variant and all fields equal (delete and check: type, path, version; setData also the data bytes; create by the corrected comparison); equal ops have equal types |
| Ops.Equals | src/java/main/org/apache/zookeeper/Op.java:94-96 | `equals` dispatched on the receiver's variant: an op of another variant is unequal, and the result is `OpEquals` |
| Ops.OpEqualsAsWritten | src/java/main/org/apache/zookeeper/Op.java:93-210 | `equals` with the create comparison as written: it holds of all equal ops, of no ops of different types, and beyond equal ops only of creates with the same data and flags |
| Ops.HashCode | src/java/main/org/apache/zookeeper/Op.java:117-215 | the hash is the Java int sum of the opcode, the path's hash, the data's hash (create, setData) and the version (delete, setData, check); String and byte-array hashes are parameters |
| Ops.HashAgreesWithEquals | src/java/main/org/apache/zookeeper/Op.java:117-215 | ops of one type that agree on path, data and version hash alike whatever their ACLs and flags, so ops equal under the corrected comparison hash alike |
| Ops.CreateHashDisagreesWithEqualsAsWritten | src/java/main/org/apache/zookeeper/Op.java:117-120 | two creates that are equal under the code as written hash differently when their paths hash differently |
| Types.Wrap32 | src/java/main/org/apache/zookeeper/OpResult.java:105-108 | the int cast keeps the value modulo 2^32, and leaves a value already in int range unchanged |
| OpResults.OpResult.Type | src/java/main/org/apache/zookeeper/OpResult.java:28-43 | each result shape carries the opcode its constructor passes: create, delete, setData, check, or the error opcode |
| OpResults.TypeDeterminesShape | src/java/main/org/apache/zookeeper/OpResult.java:40-144 | with an error opcode distinct from the four others, two results have the same type exactly when they have the same shape |
| OpResults.EqualsAsWritten | src/java/main/org/apache/zookeeper/OpResult.java:49-56 | as written, every shape but delete throws ClassCastException against a result of another shape; a delete compares types only |
| OpResults.EqualsAsWrittenIsAsymmetric | src/java/main/org/apache/zookeeper/OpResult.java:69-76 | create-vs-delete throws while delete-vs-create returns false |
| OpResults.ResultEquals | src/java/main/org/apache/zookeeper/OpResult.java:49-157 | corrected equality, per shape: creates equal exactly when paths agree, deletes always, setData and check results exactly when their stats' mzxid agree (other stat fields ignored), errors exactly when codes agree; different shapes unequal |
| OpResults.EqualsAsWrittenAgrees | src/java/main/org/apache/zookeeper/OpResult.java:69-76 | wherever the code as written returns, it returns the corrected equality |
| OpResults.ResultEqualsIsEquivalence | src/java/main/org/apache/zookeeper/OpResult.java:49-157 | the corrected equality is reflexive, symmetric and transitive |
| OpResults.HashCode | src/java/main/org/apache/zookeeper/OpResult.java:58-162 | a delete hashes to its type; the other shapes to type * 35 plus the compared field (path hash, mzxid or error code), reduced to a Java int |
| OpResults.HashAgreesWithEquals | src/java/main/org/apache/zookeeper/OpResult.java:58-61 | equal results hash alike (type * 35 plus the compared field, truncated to int) |
| RequestCodec.EncodeRequestsLayout | src/java/main/org/apache/zookeeper/MultiTransactionRecord.java:42-70 | entry i of the encoding is a header with op i's type at 2i and op i's request record at 2i+1; the encoding ends with exactly one -1 header |
| RequestCodec.EncodeEmpty | src/java/test/org/apache/zookeeper/MultiTransactionRecordTest.java:28-35 | the empty record encodes to the -1 header alone |
| RequestCodec.RequestAt | src/java/main/org/apache/zookeeper/MultiTransactionRecord.java:79-101 | the switch reads one record and yields an op of the header's type; an unknown type raises "Invalid type of op" before reading |
| RequestCodec.StepAt | src/java/main/org/apache/zookeeper/MultiTransactionRecord.java:76-103 | a loop turn that reads an op moves exactly two records forward |
| RequestCodec.DecodeEntriesAt | src/java/main/org/apache/zookeeper/MultiTransactionRecord.java:76-104 | decoding over encoded entries yields their ops in order and continues right after them |
| RequestCodec.EncodingIsEntriesAt | src/java/main/org/apache/zookeeper/MultiTransactionRecord.java:44-63 | wherever the encoding of a list is placed in an archive, its entries are found there |
| RequestCodec.RoundTrip | src/java/test/org/apache/zookeeper/MultiTransactionRecordTest.java:15-26 | decoding the encoding of any op list, whatever follows it, yields the same list and consumes exactly the encoding |
| RequestCodec.DecodeStopsAtNonPositive | src/java/main/org/apache/zookeeper/MultiTransactionRecord.java:78 | a header of type -1 or 0 ends the sequence with nothing appended |
| RequestCodec.DecodeRejectsUnknownType | src/java/main/org/apache/zookeeper/MultiTransactionRecord.java:100-101 | a positive unknown type raises "Invalid type of op" and nothing after it is read |
| RequestCodec.DecodedOpsComeFromEntries | src/java/main/org/apache/zookeeper/MultiTransactionRecord.java:78-103 | every decoded op comes from a header of its type followed by exactly one request record that reads back as that op |
| RequestCodec.DoneEndsAtTerminator | src/java/main/org/apache/zookeeper/MultiTransactionRecord.java:76-104 | on any archive, a decode that ends normally ends right after the first header of type <= 0, two records past the start for each op appended |
| RequestCodec.MultiTransactionRecord.constructor | src/java/main/org/apache/zookeeper/MultiTransactionRecord.java:21-24 | a new record has no ops |
| RequestCodec.MultiTransactionRecord.FromOps | src/java/main/org/apache/zookeeper/MultiTransactionRecord.java:31-35 | the Iterable constructor holds the given ops in iteration order |
| RequestCodec.MultiTransactionRecord.Add | src/java/main/org/apache/zookeeper/MultiTransactionRecord.java:37-39 | `add` appends the op after the earlier ops, which are unchanged |
| RequestCodec.MultiTransactionRecord.Serialize | src/java/main/org/apache/zookeeper/MultiTransactionRecord.java:42-70 | the archive grows by exactly the encoding of the ops |
| RequestCodec.MultiTransactionRecord.WriteRequest | src/java/main/org/apache/zookeeper/MultiTransactionRecord.java:46-63 | the switch writes the op's own request record |
| RequestCodec.MultiTransactionRecord.Deserialize | src/java/main/org/apache/zookeeper/MultiTransactionRecord.java:73-106 | the decoded ops are appended after the ops already present, including those decoded before a failure; the outcome is the decode's |
| RequestCodec.MultiTransactionRecord.Equals | src/java/main/org/apache/zookeeper/MultiTransactionRecord.java:108-132 | equal exactly when both lists have the same length and are pairwise equal in order, with ops compared by the corrected `Op.equals` |
| RequestCodec.RecordEqualityIsListEquality | src/java/main/org/apache/zookeeper/MultiTransactionRecord.java:108-132 | with structural op equality, record equality is equality of the op lists |
| RequestCodec.RecordEqualityImpliesAsWritten | src/java/main/org/apache/zookeeper/MultiTransactionRecord.java:108-132 | records equal under the corrected op comparison are equal under the code as written too |
| RequestCodec.RecordEqualsAsWrittenIgnoresPathAndAcl | src/java/main/org/apache/zookeeper/MultiTransactionRecord.java:120-125 | as written, records holding one create each that differ in path and ACLs are equal, though their ops are not |
| RequestCodec.CodeDecode | src/java/test/org/apache/zookeeper/MultiTransactionRecordTest.java:37-49 | serialising into an empty archive and deserialising into a fresh record gives the same ops, and the two records are equal under both the corrected and the as-written comparison |
| ResponseCodec.EncodeResultLayout | src/java/main/org/apache/zookeeper/MultiResponse.java:27-43 | each result's header carries its type; a create is followed by its path, setData and check by the stat record, delete and error by nothing |
| ResponseCodec.EncodeEmpty | src/java/test/org/apache/zookeeper/MultiResponseTest.java:33-40 | the empty response encodes to the -1 header alone |
| ResponseCodec.ResultAt | src/java/main/org/apache/zookeeper/MultiResponse.java:57-82 | the switch yields a non-error result of the header's type; an unknown type raises "Invalid type <tag> in MultiResponse" before reading |
| ResponseCodec.StepAt | src/java/main/org/apache/zookeeper/MultiResponse.java:55-84 | a loop turn that reads a result moves forward, never past the archive's end |
| ResponseCodec.DecodeEntriesAt | src/java/main/org/apache/zookeeper/MultiResponse.java:55-84 | decoding over encoded error-free results yields them in order and continues right after them |
| ResponseCodec.EncodingIsEntriesAt | src/java/main/org/apache/zookeeper/MultiResponse.java:27-44 | wherever the encoding of a list is placed in an archive, its entries are found there |
| ResponseCodec.RoundTrip | src/java/test/org/apache/zookeeper/MultiResponseTest.java:15-31 | decoding the encoding of any list of create, delete, setData and check results yields the same list and consumes exactly the encoding |
| ResponseCodec.ErrorResultIsNotRoundTripped | src/java/main/org/apache/zookeeper/MultiResponse.java:42-43 | an error result is written as a bare header; decoding keeps the results before it and then ends (non-positive error opcode) or raises (positive one) |
| ResponseCodec.DecodeDeleteReadsNothing | src/java/main/org/apache/zookeeper/MultiResponse.java:64-66 | a delete header is followed directly by the next header |
| ResponseCodec.DecodeCheckUsesStatLayout | src/java/main/org/apache/zookeeper/MultiResponse.java:74-78 | a check is read from the setData response record |
| ResponseCodec.DecodeStopsAtNonPositive | src/java/main/org/apache/zookeeper/MultiResponse.java:56 | a header of type -1 or 0 ends the sequence |
| ResponseCodec.DecodeRejectsUnknownType | src/java/main/org/apache/zookeeper/MultiResponse.java:80-81 | a positive unknown type raises and nothing after it is read |
| ResponseCodec.DecodeYieldsNoErrors | src/java/main/org/apache/zookeeper/MultiResponse.java:57-82 | the decoder never produces an error result |
| ResponseCodec.DecodedResultsAreEntriesAt | src/java/main/org/apache/zookeeper/MultiResponse.java:55-84 | on any archive, the results a decode appends (even before a failure) are, in wire order, encoded one after another from where it started: one result per header of positive type |
| ResponseCodec.DoneEndsAtTerminator | src/java/main/org/apache/zookeeper/MultiResponse.java:55-84 | on any archive, a decode that ends normally ends right after the first header of type <= 0, which follows the encodings of the results appended |
| ResponseCodec.ResponsesEqual | src/java/test/org/apache/zookeeper/MultiResponseTest.java:29 | the response equality the test asserts, assumed pairwise in order: equal responses have the same length and results of the same shapes and types position by position |
| ResponseCodec.ResponsesEqualReflexive | src/java/test/org/apache/zookeeper/MultiResponseTest.java:29 | every response equals itself under the assumed response equality |
| ResponseCodec.MultiResponse.constructor | src/java/main/org/apache/zookeeper/MultiResponse.java:21-22 | a new response has no results |
| ResponseCodec.MultiResponse.Add | src/java/test/org/apache/zookeeper/MultiResponseTest.java:20-25 | `add` appends the result after the earlier ones |
| ResponseCodec.MultiResponse.GetResultList | src/java/main/org/apache/zookeeper/MultiResponse.java:88-90 | returns the results in the order they were added or decoded |
| ResponseCodec.MultiResponse.Serialize | src/java/main/org/apache/zookeeper/MultiResponse.java:25-47 | the archive grows by exactly the encoding of the results |
| ResponseCodec.MultiResponse.WritePayload | src/java/main/org/apache/zookeeper/MultiResponse.java:30-43 | the switch writes the result's response record, or nothing for delete and error |
| ResponseCodec.MultiResponse.Deserialize | src/java/main/org/apache/zookeeper/MultiResponse.java:50-86 | the results are replaced by the decoded ones, including those decoded before a failure; the outcome is the decode's |
| ResponseCodec.CodeDecode | src/java/test/org/apache/zookeeper/MultiResponseTest.java:42-54 | serialising and deserialising into a fresh response gives the same results, equal to the original |
| Transactions.Transaction.constructor | src/java/main/org/apache/zookeeper/Transaction.java:11-17 | a new transaction keeps the handle and starts with an empty request |
| Transactions.Transaction.Create | src/java/main/org/apache/zookeeper/Transaction.java:19-23 | appends one create whose flags are the mode's flag value, and returns the same transaction |
| Transactions.Transaction.Delete | src/java/main/org/apache/zookeeper/Transaction.java:25-28 | appends one delete and returns the same transaction |
| Transactions.Transaction.Check | src/java/main/org/apache/zookeeper/Transaction.java:30-33 | appends one check and returns the same transaction |
| Transactions.Transaction.SetData | src/java/main/org/apache/zookeeper/Transaction.java:35-38 | appends one setData and returns the same transaction |
| Transactions.Transaction.Commit | src/java/main/org/apache/zookeeper/Transaction.java:40-42 | hands the accumulated ops, unchanged, to the multi call and returns its result |
| Transactions.BuildChained | src/java/main/org/apache/zookeeper/Transaction.java:19-38 | chained builder calls act on one transaction and accumulate their ops in call order |
| Scenarios.RecordTestRoundTrip | src/java/test/org/apache/zookeeper/MultiTransactionRecordTest.java:15-26 | the four ops of the record test, with its paths, versions and "create data" / "set data" payloads, decode back from their nine-record encoding, for any ACL list and flags |
| Scenarios.RecordTestEmptyRoundTrip | src/java/test/org/apache/zookeeper/MultiTransactionRecordTest.java:28-35 | the empty record round-trips through the -1 header alone |
| Scenarios.ResponseTestLength | src/java/test/org/apache/zookeeper/MultiResponseTest.java:15-27 | the four results of the response test encode to eight records, the delete adding a header only |
| Scenarios.ResponseTestRoundTrip | src/java/test/org/apache/zookeeper/MultiResponseTest.java:15-31 | the four results of the response test decode back, for any stats |
| Scenarios.ResponseTestEmptyRoundTrip | src/java/test/org/apache/zookeeper/MultiResponseTest.java:33-40 | the empty response round-trips through the -1 header alone |
| Scenarios.UnknownTypeAfterOneEntry | src/java/main/org/apache/zookeeper/MultiTransactionRecord.java:100-101 | a check followed by a type-99 header: both decoders keep the check and raise at the 99 |
| Scenarios.ZeroTypeEndsSequence | src/java/main/org/apache/zookeeper/MultiTransactionRecord.java:78 | a type-0 header ends both sequences at once |

## Left out

- The jute binary format: `BinaryOutputArchive`, `startRecord`/`endRecord` and the byte layout of the single-operation records are foreign code. The archive is the sequence of records written to it, and byte-level read failures become `EndOfStream` or `Malformed`.
- `hashCode` of `MultiTransactionRecord` (`List.hashCode`), and the tests' hash assertions: foreign list hashing.
- `String.hashCode` and `Arrays.hashCode` are uninterpreted function parameters of the hash functions.
- `CreateMode.toFlag()` is an uninterpreted function parameter.
- `ZooKeeper.multi_internal`, the RPC transport, and the propagation of `KeeperException` and `InterruptedException` are the `multi` function parameter of `Commit`.
- `ZooDefs.OpCode.error` is defined in ZooDefs, whose value is not modelled. It stays symbolic (`ErrorTag`).
- RequestCodec.MultiTransactionRecord.Equals: compares ops with the corrected `Op.equals`, so two records whose creates differ only in path or ACLs are unequal here, while the code as written returns true. `RecordEqualsAsWritten` states the as-written comparison, and `RecordEqualsAsWrittenIgnoresPathAndAcl` exhibits the difference.
- The `ops == null` branches of `MultiTransactionRecord.equals` and null fields in general: the model has no null.
- The `this == o` shortcuts of the `equals` methods: equality of values does not depend on identity.
- `serialize`'s `default` case that throws "Invalid type of op" (MultiTransactionRecord.java:64-65) is unreachable: every op has one of the four types (`Op.Type`), and the switch is a match on the variant.
- `MultiResponse.serialize` matches on the result's variant, where the source switches on its type. The two agree whenever the error opcode is none of the four operation opcodes.
- Aliasing of mutable objects: the response test sets the czxid of one `Stat` object shared by two results. Values here have no identity, so `Scenarios.ResponseTestRoundTrip` is stated for any two stats instead.
- The private constructors that the tests call directly are the datatype constructors.
- The C integration tests and the server-side multi test: server atomicity, not codec behaviour.

## Findings

| source | as written | input that shows it | evidently intended | confidence | as-written member | corrected member |
|---|---|---|---|---|---|---|
| src/java/main/org/apache/zookeeper/Op.java:100-114 | the ACL loop walks the other op's list against an iterator over that same list, and the path is never compared | `Create("/a", [1,2], [acl], 0)` and `Create("/b", [1,2], [], 0)` compare equal (`Ops.CreateEqualityIgnoresPathAndAcl`) | this op's ACLs are compared with the other op's, and the path is compared as in the other shapes | not executed | Ops.CreateEqualsAsWritten | Ops.CreateEquals |
| src/java/main/org/apache/zookeeper/Op.java:117-120 | `Create.hashCode` adds the path's hash, which the written `equals` ignores | two creates with the same data and flags whose paths hash differently: equal, yet hashed differently | equal ops hash alike | not executed | Ops.CreateHashDisagreesWithEqualsAsWritten | Ops.HashAgreesWithEquals |
| src/java/main/org/apache/zookeeper/OpResult.java:49-56 | `equals` checks only `instanceof OpResult`, then casts to its own class | `new CreateResult("p").equals(new DeleteResult())` throws ClassCastException, while the reverse call returns false (`OpResults.EqualsAsWrittenIsAsymmetric`) | a result of another shape is unequal | not executed | OpResults.EqualsAsWritten | OpResults.ResultEquals |
