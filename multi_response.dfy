/**
 * MultiResponse: the response side of a multi-operation transaction. The
 * framing is the request side's: a header with each result's type, that
 * result's single-operation response record (none for a delete, the
 * setData stat layout for a check), and a closing header of type -1.
 */
module ResponseCodec {
  import opened Types
  import opened Archive
  import opened OpResults

  // ---------------------------------------------------------------------
  // The wire form, as functions

  /**
   * The response record written after a result's header: the switch in
   * `serialize`. A delete has none, and a type the switch has no case for
   * (an error result) gets none either.
   */
  function Payload(r: OpResult): seq<Item> {
    match r
    case CreateResult(path) => [CreateResponse(path)]
    case DeleteResult => []
    case SetDataResult(stat) => [SetDataResponse(stat)]
    case CheckResult(stat) => [SetDataResponse(stat)]
    case ErrorResult(_) => []
  }

  /** The header and payload written for one result. */
  function EncodeResult(r: OpResult): seq<Item> {
    [Header(r.Type())] + Payload(r)
  }

  /** The entries written for a list of results, without the closing header. */
  function EncodeEntries(rs: seq<OpResult>): seq<Item> {
    if rs == [] then [] else EncodeResult(rs[0]) + EncodeEntries(rs[1..])
  }

  /** What `serialize` writes for a list of results. */
  function EncodeResponses(rs: seq<OpResult>): seq<Item> {
    EncodeEntries(rs) + [Header(EndTag)]
  }

  predicate NoErrors(rs: seq<OpResult>) {
    forall i :: 0 <= i < |rs| ==> !rs[i].ErrorResult?
  }

  /** A decoded result and the position of the header after it. */
  datatype Entry = Entry(result: OpResult, next: nat)

  /**
   * The payload that follows a header of type `tag` at position p: the
   * switch in `deserialize`. A delete reads nothing; an unknown tag fails
   * before anything is read.
   */
  function ResultAt(tag: int32, items: seq<Item>, p: nat): (r: Result<Entry>)
    requires p <= |items|
    ensures r.Ok? ==> p <= r.value.next <= |items| && r.value.result.Type() == tag
    ensures r.Ok? ==> !r.value.result.ErrorResult?
    ensures !IsOpTag(tag) ==> r == Err(InvalidResultType(tag))
  {
    if tag == CreateTag then
      match ReadRecord(items, p, CreateResponseKind)
      case Ok(cr) => Ok(Entry(CreateResult(cr.path), p + 1))
      case Err(e) => Err(e)
    else if tag == DeleteTag then
      Ok(Entry(DeleteResult, p))
    else if tag == SetDataTag then
      match ReadRecord(items, p, SetDataResponseKind)
      case Ok(sdr) => Ok(Entry(SetDataResult(sdr.stat), p + 1))
      case Err(e) => Err(e)
    else if tag == CheckTag then
      match ReadRecord(items, p, SetDataResponseKind)
      case Ok(sdr) => Ok(Entry(CheckResult(sdr.stat), p + 1))
      case Err(e) => Err(e)
    else
      Err(InvalidResultType(tag))
  }

  /**
   * One turn of the loop in `deserialize` at the header at position pos: a
   * positive type and its payload give a result; a type that is not
   * positive ends the sequence; a failed read or an unknown type raises.
   */
  function StepAt(items: seq<Item>, pos: nat): (s: Step<OpResult>)
    ensures s.Next? ==> pos < s.next <= |items|
  {
    match ReadHeader(items, pos)
    case Err(e) => Stop(Failed(e))
    case Ok(tag) =>
      if tag <= 0 then Stop(Done(pos + 1))
      else
        match ResultAt(tag, items, pos + 1)
        case Err(e) => Stop(Failed(e))
        case Ok(entry) => Next(entry.result, entry.next)
  }

  /**
   * What `deserialize` collects, starting at the header at position pos, and
   * how it ends.
   */
  function DecodeResponses(items: seq<Item>, pos: nat): (d: Decoded<OpResult>)
    ensures d.outcome.Done? ==> pos < d.outcome.next <= |items|
    decreases |items| - pos
  {
    match StepAt(items, pos)
    case Stop(outcome) => Decoded([], outcome)
    case Next(r, next) => Prepend([r], DecodeResponses(items, next))
  }

  // ---------------------------------------------------------------------
  // Properties of the wire form
  //
  // Both codecs use one framing rule (header, payload, closing header), and
  // the framing lemmas here have twins in RequestCodec: each codec keeps its own, as
  // each of the two source classes carries its own loop.

  lemma {:induction false} EncodeEntriesAppend(rs: seq<OpResult>, more: seq<OpResult>)
    ensures EncodeEntries(rs + more) == EncodeEntries(rs) + EncodeEntries(more)
  {
    if rs == [] {
      assert rs + more == more;
    } else {
      assert (rs + more)[1..] == rs[1..] + more;
      EncodeEntriesAppend(rs[1..], more);
    }
  }

  lemma EncodeEntriesSnoc(rs: seq<OpResult>, r: OpResult)
    ensures EncodeEntries(rs + [r]) == EncodeEntries(rs) + EncodeResult(r)
  {
    EncodeEntriesAppend(rs, [r]);
    assert [r][1..] == [];
  }

  /**
   * Per result: its header carries its type; a create is followed by its
   * name, setData and check by the same stat record, delete and error by
   * nothing.
   */
  lemma EncodeResultLayout(r: OpResult)
    ensures EncodeResult(r)[0] == Header(r.Type())
    ensures |EncodeResult(r)| == (if r.DeleteResult? || r.ErrorResult? then 1 else 2)
    ensures r.CreateResult? ==> EncodeResult(r)[1] == CreateResponse(r.path)
    ensures r.SetDataResult? || r.CheckResult? ==> EncodeResult(r)[1] == SetDataResponse(r.stat)
  {
  }

  /** The empty response is encoded as the closing header alone. */
  lemma EncodeEmpty()
    ensures EncodeResponses([]) == [Header(EndTag)]
  {
  }

  /** The decode loop, one turn at a time: a step that stops ends it, one that reads continues after it. */
  lemma DecodeUnfold(items: seq<Item>, p: nat)
    ensures StepAt(items, p).Stop? ==> DecodeResponses(items, p) == Decoded([], StepAt(items, p).outcome)
    ensures StepAt(items, p).Next? ==>
              DecodeResponses(items, p) == Prepend([StepAt(items, p).value], DecodeResponses(items, StepAt(items, p).next))
  {
  }

  /** The encoding of r lies in items from position pos on. */
  predicate EncodedAt(items: seq<Item>, pos: nat, r: OpResult) {
    var head := EncodeResult(r);
    pos + |head| <= |items| && forall k :: 0 <= k < |head| ==> items[pos + k] == head[k]
  }

  /** The encodings of rs lie in items one after another from position pos on. */
  predicate EntriesAt(items: seq<Item>, pos: nat, rs: seq<OpResult>)
    decreases |rs|
  {
    rs == [] || (EncodedAt(items, pos, rs[0]) && EntriesAt(items, pos + |EncodeResult(rs[0])|, rs[1..]))
  }

  /** Whatever precedes and follows it, an encoding of rs is found where it was put. */
  lemma {:induction false} EncodingIsEntriesAt(pre: seq<Item>, rs: seq<OpResult>, post: seq<Item>)
    ensures EntriesAt(pre + EncodeEntries(rs) + post, |pre|, rs)
    decreases |rs|
  {
    if rs != [] {
      var head := EncodeResult(rs[0]);
      var items := pre + EncodeEntries(rs) + post;
      assert items == (pre + head) + EncodeEntries(rs[1..]) + post;
      EncodingIsEntriesAt(pre + head, rs[1..], post);
      assert forall k :: 0 <= k < |head| ==> items[|pre| + k] == head[k];
    }
  }

  /** The step at the encoding of a result that is not an error reads that result and moves past it. */
  lemma StepOverEncoded(items: seq<Item>, pos: nat, r: OpResult)
    requires !r.ErrorResult? && EncodedAt(items, pos, r)
    ensures StepAt(items, pos) == Next(r, pos + |EncodeResult(r)|)
  {
    EncodeResultLayout(r);
    assert items[pos + 0] == EncodeResult(r)[0];
    if |EncodeResult(r)| == 2 {
      assert items[pos + 1] == EncodeResult(r)[1];
    }
  }

  /**
   * Decoding over the encoded entries of error-free results yields those
   * results, in order, and continues right after them.
   */
  lemma {:induction false} DecodeEntriesAt(items: seq<Item>, pos: nat, rs: seq<OpResult>)
    requires NoErrors(rs) && EntriesAt(items, pos, rs)
    ensures DecodeResponses(items, pos) == Prepend(rs, DecodeResponses(items, pos + |EncodeEntries(rs)|))
    decreases |rs|
  {
    if rs == [] {
      var d := DecodeResponses(items, pos);
      assert [] + d.values == d.values;
    } else {
      var r := rs[0];
      var n := pos + |EncodeResult(r)|;
      StepOverEncoded(items, pos, r);
      DecodeEntriesAt(items, n, rs[1..]);
      assert n + |EncodeEntries(rs[1..])| == pos + |EncodeEntries(rs)|;
      StepThenEntries(items, pos, r, n, rs[1..], pos + |EncodeEntries(rs)|);
      assert [r] + rs[1..] == rs;
    }
  }

  /** A step that reads r, followed by a decode that reads rs, is a decode that reads r then rs. */
  lemma StepThenEntries(items: seq<Item>, p: nat, r: OpResult, n: nat, rs: seq<OpResult>, q: nat)
    requires StepAt(items, p) == Next(r, n)
    requires DecodeResponses(items, n) == Prepend(rs, DecodeResponses(items, q))
    ensures DecodeResponses(items, p) == Prepend([r] + rs, DecodeResponses(items, q))
  {
    DecodeUnfold(items, p);
    PrependTwice([r], rs, DecodeResponses(items, q));
  }

  /** A step that reads a result read exactly that result's encoding. */
  lemma StepReadsEncoding(items: seq<Item>, pos: nat)
    requires StepAt(items, pos).Next?
    ensures EncodedAt(items, pos, StepAt(items, pos).value)
    ensures StepAt(items, pos).next == pos + |EncodeResult(StepAt(items, pos).value)|
  {
    var r := StepAt(items, pos).value;
    EncodeResultLayout(r);
    assert items[pos + 0] == EncodeResult(r)[0];
  }

  /**
   * Soundness on any archive: the results a decode appends, even when it
   * later fails, are encoded one after another, in wire order, from the
   * position where it started.
   */
  lemma {:induction false} DecodedResultsAreEntriesAt(items: seq<Item>, pos: nat)
    ensures EntriesAt(items, pos, DecodeResponses(items, pos).values)
    decreases |items| - pos
  {
    DecodeUnfold(items, pos);
    if StepAt(items, pos).Next? {
      var r := StepAt(items, pos).value;
      var next := StepAt(items, pos).next;
      StepReadsEncoding(items, pos);
      DecodedResultsAreEntriesAt(items, next);
      var rest := DecodeResponses(items, next).values;
      assert ([r] + rest)[0] == r && ([r] + rest)[1..] == rest;
    }
  }

  /**
   * A decode that ends normally, on any archive, ends right after the first
   * header whose type is not positive, which follows the encodings of the
   * results it appended.
   */
  lemma {:induction false} DoneEndsAtTerminator(items: seq<Item>, pos: nat)
    requires DecodeResponses(items, pos).outcome.Done?
    ensures var d := DecodeResponses(items, pos);
            d.outcome.next == pos + |EncodeEntries(d.values)| + 1
            && items[d.outcome.next - 1].Header? && items[d.outcome.next - 1].tag <= 0
    decreases |items| - pos
  {
    DecodeUnfold(items, pos);
    if StepAt(items, pos).Next? {
      var r := StepAt(items, pos).value;
      var next := StepAt(items, pos).next;
      StepReadsEncoding(items, pos);
      DoneEndsAtTerminator(items, next);
      var rest := DecodeResponses(items, next).values;
      assert ([r] + rest)[0] == r && ([r] + rest)[1..] == rest;
    }
  }

  /**
   * Round trip: decoding what `serialize` wrote for check, create, delete
   * and setData results yields the same results in the same order,
   * consuming exactly the encoding. For the empty list the encoding is one
   * header.
   */
  lemma RoundTrip(rs: seq<OpResult>, rest: seq<Item>)
    requires NoErrors(rs)
    ensures DecodeResponses(EncodeResponses(rs) + rest, 0)
            == Decoded(rs, Done(|EncodeResponses(rs)|))
  {
    var items := EncodeResponses(rs) + rest;
    var n := |EncodeEntries(rs)|;
    assert items == [] + EncodeEntries(rs) + ([Header(EndTag)] + rest);
    EncodingIsEntriesAt([], rs, [Header(EndTag)] + rest);
    DecodeEntriesAt(items, 0, rs);
    assert items[n] == Header(EndTag);
    assert rs + [] == rs;
  }

  /**
   * An error result does not survive the trip: its header is written with
   * no payload, and decoding either stops at it (a non-positive error
   * opcode reads as the end) or rejects it (a positive one is unknown).
   * Either way the results before it are all that is decoded.
   */
  lemma ErrorResultIsNotRoundTripped(rs: seq<OpResult>, err: int32, more: seq<OpResult>, rest: seq<Item>)
    requires NoErrors(rs) && ErrorTagDistinct()
    ensures var d := DecodeResponses(EncodeResponses(rs + [ErrorResult(err)] + more) + rest, 0);
            d.values == rs &&
            d.outcome == (if ErrorTag <= 0 then Done(|EncodeEntries(rs)| + 1)
                          else Failed(InvalidResultType(ErrorTag)))
  {
    var items := EncodeResponses(rs + [ErrorResult(err)] + more) + rest;
    ErrorEncodingLayout(rs, err, more, rest);
    DecodeEntriesAt(items, 0, rs);
    DecodeUnfold(items, |EncodeEntries(rs)|);
    assert rs + [] == rs;
  }

  /** In the encoding of results with an error, the results before it come first, then the error's header alone. */
  lemma ErrorEncodingLayout(rs: seq<OpResult>, err: int32, more: seq<OpResult>, rest: seq<Item>)
    ensures var items := EncodeResponses(rs + [ErrorResult(err)] + more) + rest;
            EntriesAt(items, 0, rs) && |EncodeEntries(rs)| < |items| && items[|EncodeEntries(rs)|] == Header(ErrorTag)
  {
    var items := EncodeResponses(rs + [ErrorResult(err)] + more) + rest;
    var post := [Header(ErrorTag)] + (EncodeEntries(more) + [Header(EndTag)] + rest);
    assert items == [] + EncodeEntries(rs) + post by {
      ErrorEncodingSplits(rs, err, more, rest);
    }
    EncodingIsEntriesAt([], rs, post);
  }

  lemma ErrorEncodingSplits(rs: seq<OpResult>, err: int32, more: seq<OpResult>, rest: seq<Item>)
    ensures EncodeResponses(rs + [ErrorResult(err)] + more) + rest
            == [] + EncodeEntries(rs) + ([Header(ErrorTag)] + (EncodeEntries(more) + [Header(EndTag)] + rest))
  {
    var errorOn := [ErrorResult(err)] + more;
    Associate(rs, [ErrorResult(err)], more);
    EncodeEntriesAppend(rs, errorOn);
    assert EncodeEntries(errorOn) == [Header(ErrorTag)] + EncodeEntries(more) by {
      assert errorOn[0] == ErrorResult(err) && errorOn[1..] == more;
    }
    Regroup(EncodeEntries(rs), [Header(ErrorTag)], EncodeEntries(more), [Header(EndTag)], rest);
    assert [] + EncodeEntries(rs) == EncodeEntries(rs);
  }

  /** A delete header is followed directly by the next header: nothing is read for it. */
  lemma DecodeDeleteReadsNothing(items: seq<Item>, pos: nat)
    requires pos < |items| && items[pos] == Header(DeleteTag)
    ensures DecodeResponses(items, pos) == Prepend([DeleteResult], DecodeResponses(items, pos + 1))
  {
  }

  /** A check is read with the setData response layout. */
  lemma DecodeCheckUsesStatLayout(items: seq<Item>, pos: nat, stat: Stat)
    requires pos + 1 < |items| && items[pos] == Header(CheckTag) && items[pos + 1] == SetDataResponse(stat)
    ensures DecodeResponses(items, pos) == Prepend([CheckResult(stat)], DecodeResponses(items, pos + 2))
  {
  }

  /** A header whose type is not positive, -1 or 0 alike, ends the sequence. */
  lemma DecodeStopsAtNonPositive(items: seq<Item>, pos: nat)
    requires pos < |items| && items[pos].Header? && items[pos].tag <= 0
    ensures DecodeResponses(items, pos) == Decoded([], Done(pos + 1))
  {
  }

  /**
   * Fail closed: a positive header type outside the four opcodes raises
   * "Invalid type <tag> in MultiResponse" and nothing after it is read.
   */
  lemma DecodeRejectsUnknownType(items: seq<Item>, pos: nat)
    requires pos < |items| && items[pos].Header? && items[pos].tag > 0 && !IsOpTag(items[pos].tag)
    ensures DecodeResponses(items, pos) == Decoded([], Failed(InvalidResultType(items[pos].tag)))
  {
  }

  /** The decoder never produces an error result. */
  lemma {:induction false} DecodeYieldsNoErrors(items: seq<Item>, pos: nat)
    ensures NoErrors(DecodeResponses(items, pos).values)
    decreases |items| - pos
  {
    var h := ReadHeader(items, pos);
    if h.Ok? && h.value > 0 {
      var r := ResultAt(h.value, items, pos + 1);
      if r.Ok? {
        DecodeYieldsNoErrors(items, r.value.next);
      }
    }
  }

  /**
   * Response equality: same length, pairwise OpResult equality in order.
   * The class itself declares no equals; this is the comparison the round
   * trip test relies on.
   */
  predicate ResponsesEqual(a: seq<OpResult>, b: seq<OpResult>): (r: bool)
    ensures r ==> |a| == |b| && forall i :: 0 <= i < |a| ==> SameShape(a[i], b[i]) && a[i].Type() == b[i].Type()
  {
    |a| == |b| && forall i :: 0 <= i < |a| ==> ResultEquals(a[i], b[i])
  }

  lemma ResponsesEqualReflexive(a: seq<OpResult>)
    ensures ResponsesEqual(a, a)
  {
    forall i | 0 <= i < |a| ensures ResultEquals(a[i], a[i]) {
      ResultEqualsIsEquivalence(a[i], a[i], a[i]);
    }
  }

  // ---------------------------------------------------------------------
  // The response object

  class MultiResponse {
    var results: seq<OpResult>

    constructor ()
      ensures results == []
    {
      results := [];
    }

    /** Appends a result after those already present. */
    method Add(r: OpResult)
      modifies this
      ensures results == old(results) + [r]
    {
      results := results + [r];
    }

    /** The results, in the order they were added or decoded. */
    method GetResultList() returns (rs: seq<OpResult>)
      ensures rs == results
    {
      rs := results;
    }

    /**
     * Appends to the archive `sink` one header per result, in list order,
     * each followed by its response record if its type has one, then the
     * closing -1 header.
     */
    method Serialize(sink: seq<Item>) returns (out: seq<Item>)
      ensures out == sink + EncodeResponses(results)
    {
      out := sink;
      var i := 0;
      while i < |results|
        invariant 0 <= i <= |results|
        invariant out == sink + EncodeEntries(results[..i])
        decreases |results| - i
      {
        var r := results[i];
        assert results[..i + 1] == results[..i] + [r];
        EncodeEntriesSnoc(results[..i], r);
        out := out + [Header(r.Type())];
        out := WritePayload(out, r);
        i := i + 1;
      }
      assert results[..i] == results;
      out := out + [Header(EndTag)];
    }

    /**
     * The switch in `serialize`: writes the response record that follows the
     * header of r, if r's type has one.
     */
    static method WritePayload(sink: seq<Item>, r: OpResult) returns (out: seq<Item>)
      ensures out == sink + Payload(r)
    {
      out := sink;
      match r {
        case CreateResult(path) => out := out + [CreateResponse(path)];
        case DeleteResult =>
        case SetDataResult(stat) => out := out + [SetDataResponse(stat)];
        case CheckResult(stat) => out := out + [SetDataResponse(stat)];
        case ErrorResult(_) =>
      }
    }

    /**
     * Clears the results, then reads the sequence starting at the header at
     * position pos and appends one result per entry. On a failure the
     * results decoded before it stay in the list.
     */
    method Deserialize(items: seq<Item>, pos: nat) returns (outcome: Outcome)
      modifies this
      ensures results == DecodeResponses(items, pos).values
      ensures outcome == DecodeResponses(items, pos).outcome
    {
      results := [];
      var p := pos;
      var h := ReadHeader(items, p);
      while h.Ok? && h.value > 0
        invariant h == ReadHeader(items, p)
        invariant DecodeResponses(items, pos) == Prepend(results, DecodeResponses(items, p))
        decreases |items| - p
      {
        var tag := h.value;
        // the switch on the header type, reading the response record it names
        var r := ResultAt(tag, items, p + 1);
        DecodeUnfold(items, p);
        if r.Err? {
          return Failed(r.error);
        }
        DecodeUnfold(items, p);
        PrependTwice(results, [r.value.result], DecodeResponses(items, r.value.next));
        results := results + [r.value.result];
        p := r.value.next;
        h := ReadHeader(items, p);
      }
      DecodeUnfold(items, p);
      if h.Err? {
        return Failed(h.error);
      }
      outcome := Done(p + 1);
    }
  }

  /**
   * The round trip of the response test: serialise into an empty archive,
   * deserialise into a fresh response, compare.
   */
  method CodeDecode(response: MultiResponse) returns (decoded: MultiResponse)
    requires NoErrors(response.results)
    ensures fresh(decoded) && decoded.results == response.results
    ensures ResponsesEqual(response.results, decoded.results)
  {
    var archive := response.Serialize([]);
    decoded := new MultiResponse();
    var outcome := decoded.Deserialize(archive, 0);
    RoundTrip(response.results, []);
    assert archive == EncodeResponses(response.results) + [];
    ResponsesEqualReflexive(response.results);
  }
}
