/**
 * The round trips of the record and response tests, and a sequence with an
 * entry type outside the four opcodes, stated on the functions that say
 * what `serialize` writes and what `deserialize` reads.
 */
module Scenarios {
  import opened Types
  import opened Archive
  import opened Ops
  import opened OpResults
  import RequestCodec
  import ResponseCodec

  /** "create data" and "set data", as the record test's payload bytes. */
  const CreateData: Bytes := [99, 114, 101, 97, 116, 101, 32, 100, 97, 116, 97]
  const SetDataData: Bytes := [115, 101, 116, 32, 100, 97, 116, 97]

  /**
   * The four ops of the record test, one of each shape; the ACL list and the
   * flags (the creator-all ACL and all permissions there) are parameters.
   */
  function TestOps(acl: seq<Acl>, flags: int32): seq<Op> {
    [Check("check", 1), Create("create", CreateData, acl, flags), Delete("delete", 17),
     SetData("setData", SetDataData, 19)]
  }

  /** Decoding the encoded test ops yields them again; the encoding is nine records. */
  lemma RecordTestRoundTrip(acl: seq<Acl>, flags: int32)
    ensures RequestCodec.DecodeRequests(RequestCodec.EncodeRequests(TestOps(acl, flags)), 0)
            == Decoded(TestOps(acl, flags), Done(9))
  {
    var ops := TestOps(acl, flags);
    RequestCodec.RoundTrip(ops, []);
    assert RequestCodec.EncodeRequests(ops) + [] == RequestCodec.EncodeRequests(ops);
  }

  /** The empty record encodes to the closing header and decodes to no ops. */
  lemma RecordTestEmptyRoundTrip()
    ensures RequestCodec.EncodeRequests([]) == [Header(EndTag)]
    ensures RequestCodec.DecodeRequests([Header(EndTag)], 0) == Decoded([], Done(1))
  {
  }

  /**
   * The four results of the response test; the test's stats differ only in
   * czxid (134 and 546), and the lemmas below hold for any two stats.
   */
  function TestResults(checkStat: Stat, setDataStat: Stat): seq<OpResult> {
    [CheckResult(checkStat), CreateResult("foo-bar"), DeleteResult, SetDataResult(setDataStat)]
  }

  /**
   * The encoding of the test results is eight records: two for each of the
   * check, the create and the setData, one for the delete, which adds a
   * header and no payload, and the closing header.
   */
  lemma ResponseTestLength(checkStat: Stat, setDataStat: Stat)
    ensures |ResponseCodec.EncodeResponses(TestResults(checkStat, setDataStat))| == 8
  {
    var rs := TestResults(checkStat, setDataStat);
    assert rs[3..][1..] == [] && rs[2..][1..] == rs[3..] && rs[1..][1..] == rs[2..];
    assert |ResponseCodec.EncodeEntries(rs[3..])| == 2;
    assert |ResponseCodec.EncodeEntries(rs[2..])| == 3;
    assert |ResponseCodec.EncodeEntries(rs[1..])| == 5;
  }

  /** Decoding the encoded test results yields them again, consuming all eight records. */
  lemma ResponseTestRoundTrip(checkStat: Stat, setDataStat: Stat)
    ensures ResponseCodec.DecodeResponses(ResponseCodec.EncodeResponses(TestResults(checkStat, setDataStat)), 0)
            == Decoded(TestResults(checkStat, setDataStat), Done(8))
  {
    var rs := TestResults(checkStat, setDataStat);
    assert ResponseCodec.NoErrors(rs);
    ResponseCodec.RoundTrip(rs, []);
    assert ResponseCodec.EncodeResponses(rs) + [] == ResponseCodec.EncodeResponses(rs);
    ResponseTestLength(checkStat, setDataStat);
  }

  /** The empty response encodes to the closing header and decodes to no results. */
  lemma ResponseTestEmptyRoundTrip()
    ensures ResponseCodec.EncodeResponses([]) == [Header(EndTag)]
    ensures ResponseCodec.DecodeResponses([Header(EndTag)], 0) == Decoded([], Done(1))
  {
  }

  /**
   * A check entry followed by an entry of type 99: both decoders read the
   * check and then raise their invalid-type error at the 99 header, leaving
   * the check as the only value appended.
   */
  lemma UnknownTypeAfterOneEntry(path: string, version: int32, stat: Stat)
    ensures RequestCodec.DecodeRequests(
              [Header(CheckTag), CheckVersionRequest(path, version), Header(99), Header(EndTag)], 0)
            == Decoded([Check(path, version)], Failed(InvalidOpType(99)))
    ensures ResponseCodec.DecodeResponses(
              [Header(CheckTag), SetDataResponse(stat), Header(99), Header(EndTag)], 0)
            == Decoded([CheckResult(stat)], Failed(InvalidResultType(99)))
  {
  }

  /** A header of type 0 ends the sequence just as -1 does. */
  lemma ZeroTypeEndsSequence(rest: seq<Item>)
    ensures RequestCodec.DecodeRequests([Header(0)] + rest, 0) == Decoded([], Done(1))
    ensures ResponseCodec.DecodeResponses([Header(0)] + rest, 0) == Decoded([], Done(1))
  {
  }
}
