/**
 * MultiTransactionRecord: the request side of a multi-operation
 * transaction. The wire form of a list of ops is, for each op in order, a
 * header carrying the op's type followed by the op's single-operation
 * request record, then one header of type -1. Decoding reads headers while
 * their type is positive and fails on a positive type it does not know.
 */
module RequestCodec {
  import opened Types
  import opened Archive
  import opened Ops

  // ---------------------------------------------------------------------
  // The wire form, as functions

  /** The header and payload written for one op. */
  function EncodeOp(op: Op): seq<Item> {
    [Header(op.Type()), op.ToRequestRecord()]
  }

  /** The entries written for a list of ops, without the closing header. */
  function EncodeEntries(ops: seq<Op>): (items: seq<Item>)
    ensures |items| == 2 * |ops|
  {
    if ops == [] then [] else EncodeOp(ops[0]) + EncodeEntries(ops[1..])
  }

  /** What `serialize` writes for a list of ops. */
  function EncodeRequests(ops: seq<Op>): seq<Item> {
    EncodeEntries(ops) + [Header(EndTag)]
  }

  /**
   * The payload that follows a header of type `tag` at position p: the
   * switch in `deserialize`. An unknown tag fails before anything is read.
   */
  function RequestAt(tag: int32, items: seq<Item>, p: nat): (r: Result<Op>)
    ensures r.Ok? ==> p < |items| && r.value.Type() == tag
    ensures !IsOpTag(tag) ==> r == Err(InvalidOpType(tag))
  {
    if tag == CheckTag then
      match ReadRecord(items, p, CheckVersionRequestKind)
      case Ok(rec) => Ok(Check(rec.path, rec.version))
      case Err(e) => Err(e)
    else if tag == CreateTag then
      match ReadRecord(items, p, CreateRequestKind)
      case Ok(rec) => Ok(Create(rec.path, rec.data, rec.acl, rec.flags))
      case Err(e) => Err(e)
    else if tag == DeleteTag then
      match ReadRecord(items, p, DeleteRequestKind)
      case Ok(rec) => Ok(Delete(rec.path, rec.version))
      case Err(e) => Err(e)
    else if tag == SetDataTag then
      match ReadRecord(items, p, SetDataRequestKind)
      case Ok(rec) => Ok(SetData(rec.path, rec.data, rec.version))
      case Err(e) => Err(e)
    else
      Err(InvalidOpType(tag))
  }

  /**
   * One turn of the loop in `deserialize` at the header at position pos: a
   * positive type and its request record give an op; a type that is not
   * positive ends the sequence; a failed read or an unknown type raises.
   */
  function StepAt(items: seq<Item>, pos: nat): (s: Step<Op>)
    ensures s.Next? ==> s.next == pos + 2 && s.next <= |items|
  {
    match ReadHeader(items, pos)
    case Err(e) => Stop(Failed(e))
    case Ok(tag) =>
      if tag <= 0 then Stop(Done(pos + 1))
      else
        match RequestAt(tag, items, pos + 1)
        case Err(e) => Stop(Failed(e))
        case Ok(op) => Next(op, pos + 2)
  }

  /**
   * What `deserialize` appends, starting at the header at position pos, and
   * how it ends: after the first header whose type is not positive, or with
   * the first failure.
   */
  function DecodeRequests(items: seq<Item>, pos: nat): (d: Decoded<Op>)
    ensures d.outcome.Done? ==> pos < d.outcome.next <= |items|
    decreases |items| - pos
  {
    match StepAt(items, pos)
    case Stop(outcome) => Decoded([], outcome)
    case Next(op, next) => Prepend([op], DecodeRequests(items, next))
  }

  // ---------------------------------------------------------------------
  // Properties of the wire form
  //
  // Both codecs use one framing rule (header, payload, closing header), and
  // the framing lemmas here have twins in ResponseCodec: each codec keeps its own, as
  // each of the two source classes carries its own loop.

  lemma {:induction false} EncodeEntriesAppend(ops: seq<Op>, more: seq<Op>)
    ensures EncodeEntries(ops + more) == EncodeEntries(ops) + EncodeEntries(more)
  {
    if ops == [] {
      assert ops + more == more;
    } else {
      assert (ops + more)[1..] == ops[1..] + more;
      EncodeEntriesAppend(ops[1..], more);
    }
  }

  lemma EncodeEntriesSnoc(ops: seq<Op>, op: Op)
    ensures EncodeEntries(ops + [op]) == EncodeEntries(ops) + EncodeOp(op)
  {
    EncodeEntriesAppend(ops, [op]);
    assert [op][1..] == [];
  }

  /**
   * Layout: entry i occupies positions 2i (a header with the op's type) and
   * 2i + 1 (its request record); the last item is the single -1 header.
   */
  lemma {:induction false} EncodeRequestsLayout(ops: seq<Op>, i: nat)
    requires i < |ops|
    ensures |EncodeRequests(ops)| == 2 * |ops| + 1
    ensures EncodeRequests(ops)[2 * i] == Header(ops[i].Type())
    ensures EncodeRequests(ops)[2 * i + 1] == ops[i].ToRequestRecord()
    ensures EncodeRequests(ops)[2 * |ops|] == Header(EndTag)
  {
    EncodeEntriesAt(ops, i);
  }

  lemma {:induction false} EncodeEntriesAt(ops: seq<Op>, i: nat)
    requires i < |ops|
    ensures EncodeEntries(ops)[2 * i] == Header(ops[i].Type())
    ensures EncodeEntries(ops)[2 * i + 1] == ops[i].ToRequestRecord()
  {
    if i > 0 {
      EncodeEntriesAt(ops[1..], i - 1);
    }
  }

  /** The empty record is encoded as the closing header alone. */
  lemma EncodeEmpty()
    ensures EncodeRequests([]) == [Header(EndTag)]
  {
  }

  /** The encodings of ops lie in items one after another, two items each, from position pos on. */
  predicate EntriesAt(items: seq<Item>, pos: nat, ops: seq<Op>) {
    pos + 2 * |ops| <= |items| &&
    forall i :: 0 <= i < |ops| ==>
      items[pos + 2 * i] == Header(ops[i].Type()) && items[pos + 2 * i + 1] == ops[i].ToRequestRecord()
  }

  /** Whatever precedes and follows it, an encoding of ops is found where it was put. */
  lemma EncodingIsEntriesAt(pre: seq<Item>, ops: seq<Op>, post: seq<Item>)
    ensures EntriesAt(pre + EncodeEntries(ops) + post, |pre|, ops)
  {
    var items := pre + EncodeEntries(ops) + post;
    forall i | 0 <= i < |ops|
      ensures items[|pre| + 2 * i] == Header(ops[i].Type())
      ensures items[|pre| + 2 * i + 1] == ops[i].ToRequestRecord()
    {
      EncodeEntriesAt(ops, i);
    }
  }

  /** The step at an encoded op reads that op and moves past its two items. */
  lemma StepOverEncoded(items: seq<Item>, pos: nat, op: Op)
    requires pos + 1 < |items|
    requires items[pos] == Header(op.Type()) && items[pos + 1] == op.ToRequestRecord()
    ensures StepAt(items, pos) == Next(op, pos + 2)
  {
  }

  /** Past the first encoded op come the encodings of the others. */
  lemma EntriesAtRest(items: seq<Item>, pos: nat, ops: seq<Op>)
    requires ops != [] && EntriesAt(items, pos, ops)
    ensures EntriesAt(items, pos + 2, ops[1..])
  {
    forall i | 0 <= i < |ops[1..]|
      ensures items[pos + 2 + 2 * i] == Header(ops[1..][i].Type())
      ensures items[pos + 2 + 2 * i + 1] == ops[1..][i].ToRequestRecord()
    {
      assert ops[1..][i] == ops[i + 1];
      assert pos + 2 + 2 * i == pos + 2 * (i + 1);
    }
  }

  /**
   * Decoding over encoded entries yields their ops, in order, and continues
   * right after them.
   */
  lemma {:induction false} DecodeEntriesAt(items: seq<Item>, pos: nat, ops: seq<Op>)
    requires EntriesAt(items, pos, ops)
    ensures DecodeRequests(items, pos) == Prepend(ops, DecodeRequests(items, pos + 2 * |ops|))
    decreases |ops|
  {
    if ops == [] {
      var d := DecodeRequests(items, pos);
      assert [] + d.values == d.values;
    } else {
      var op := ops[0];
      assert items[pos + 2 * 0] == Header(op.Type());
      StepOverEncoded(items, pos, op);
      EntriesAtRest(items, pos, ops);
      DecodeEntriesAt(items, pos + 2, ops[1..]);
      StepThenEntries(items, pos, op, ops[1..], pos + 2 * |ops|);
      assert [op] + ops[1..] == ops;
    }
  }

  /**
   * Round trip: decoding what `serialize` wrote for a list of ops yields the
   * same ops in the same order, consuming exactly the encoding and nothing
   * of what follows it. For the empty list the encoding is one header.
   */
  lemma RoundTrip(ops: seq<Op>, rest: seq<Item>)
    ensures DecodeRequests(EncodeRequests(ops) + rest, 0)
            == Decoded(ops, Done(|EncodeRequests(ops)|))
  {
    var items := EncodeRequests(ops) + rest;
    assert items == [] + EncodeEntries(ops) + ([Header(EndTag)] + rest);
    EncodingIsEntriesAt([], ops, [Header(EndTag)] + rest);
    DecodeEntriesAt(items, 0, ops);
    assert items[2 * |ops|] == Header(EndTag);
    assert ops + [] == ops;
  }

  /** A header whose type is not positive, -1 or 0 alike, ends the sequence. */
  lemma DecodeStopsAtNonPositive(items: seq<Item>, pos: nat)
    requires pos < |items| && items[pos].Header? && items[pos].tag <= 0
    ensures DecodeRequests(items, pos) == Decoded([], Done(pos + 1))
  {
  }

  /**
   * Fail closed: a positive header type outside the four opcodes raises
   * "Invalid type of op" and nothing after that header is read.
   */
  lemma DecodeRejectsUnknownType(items: seq<Item>, pos: nat)
    requires pos < |items| && items[pos].Header? && items[pos].tag > 0 && !IsOpTag(items[pos].tag)
    ensures DecodeRequests(items, pos) == Decoded([], Failed(InvalidOpType(items[pos].tag)))
  {
  }

  /**
   * Every op a decode appends, even one that later fails, is the decoding of
   * a positive header followed by one payload of that header's type.
   */
  lemma {:induction false} DecodedOpsComeFromEntries(items: seq<Item>, pos: nat, i: nat)
    requires i < |DecodeRequests(items, pos).values|
    ensures pos + 2 * i + 1 < |items|
    ensures items[pos + 2 * i] == Header(DecodeRequests(items, pos).values[i].Type())
    ensures FromRequestRecord(items[pos + 2 * i + 1]) == Some(DecodeRequests(items, pos).values[i])
    decreases |items| - pos
  {
    var tag := ReadHeader(items, pos).value;
    var op := RequestAt(tag, items, pos + 1).value;
    if i > 0 {
      DecodedOpsComeFromEntries(items, pos + 2, i - 1);
    }
  }

  /**
   * A decode that ends normally, on any archive, ends right after the first
   * header whose type is not positive: one header and one record for each op
   * it appended, then that header.
   */
  lemma {:induction false} DoneEndsAtTerminator(items: seq<Item>, pos: nat)
    requires DecodeRequests(items, pos).outcome.Done?
    ensures var d := DecodeRequests(items, pos);
            d.outcome.next == pos + 2 * |d.values| + 1
            && items[d.outcome.next - 1].Header? && items[d.outcome.next - 1].tag <= 0
    decreases |items| - pos
  {
    DecodeUnfold(items, pos);
    if StepAt(items, pos).Next? {
      DoneEndsAtTerminator(items, pos + 2);
    }
  }

  /** The decode loop, one turn at a time: a step that stops ends it, one that reads continues after it. */
  lemma DecodeUnfold(items: seq<Item>, p: nat)
    ensures StepAt(items, p).Stop? ==> DecodeRequests(items, p) == Decoded([], StepAt(items, p).outcome)
    ensures StepAt(items, p).Next? ==>
              DecodeRequests(items, p) == Prepend([StepAt(items, p).value], DecodeRequests(items, p + 2))
  {
  }

  /** A step that reads op, followed by a decode that reads ops, is a decode that reads op then ops. */
  lemma StepThenEntries(items: seq<Item>, p: nat, op: Op, ops: seq<Op>, q: nat)
    requires StepAt(items, p) == Next(op, p + 2)
    requires DecodeRequests(items, p + 2) == Prepend(ops, DecodeRequests(items, q))
    ensures DecodeRequests(items, p) == Prepend([op] + ops, DecodeRequests(items, q))
  {
    DecodeUnfold(items, p);
    PrependTwice([op], ops, DecodeRequests(items, q));
  }

  // ---------------------------------------------------------------------
  // The record

  class MultiTransactionRecord {
    var ops: seq<Op>

    constructor ()
      ensures ops == []
    {
      ops := [];
    }

    /** The Iterable constructor: adds the given ops in iteration order. */
    constructor FromOps(source: seq<Op>)
      ensures ops == source
    {
      ops := [];
      new;
      var i := 0;
      while i < |source|
        invariant 0 <= i <= |source| && ops == source[..i]
      {
        Add(source[i]);
        i := i + 1;
      }
    }

    /** Appends op after the ops already present. */
    method Add(op: Op)
      modifies this
      ensures ops == old(ops) + [op]
    {
      ops := ops + [op];
    }

    /**
     * Appends to the archive `sink` one header and one request record per
     * op, in list order, then the closing -1 header.
     */
    method Serialize(sink: seq<Item>) returns (out: seq<Item>)
      ensures out == sink + EncodeRequests(ops)
    {
      out := sink;
      var i := 0;
      while i < |ops|
        invariant 0 <= i <= |ops|
        invariant out == sink + EncodeEntries(ops[..i])
        decreases |ops| - i
      {
        var op := ops[i];
        assert ops[..i + 1] == ops[..i] + [op];
        EncodeEntriesSnoc(ops[..i], op);
        out := out + [Header(op.Type())];
        out := WriteRequest(out, op);
        i := i + 1;
      }
      assert ops[..i] == ops;
      out := out + [Header(EndTag)];
    }

    /**
     * The switch in `serialize`: writes the single-operation request record
     * that follows the header of op.
     */
    static method WriteRequest(sink: seq<Item>, op: Op) returns (out: seq<Item>)
      ensures out == sink + [op.ToRequestRecord()]
    {
      match op {
        case Check(path, version) => out := sink + [CheckVersionRequest(path, version)];
        case Create(path, data, acl, flags) => out := sink + [CreateRequest(path, data, acl, flags)];
        case Delete(path, version) => out := sink + [DeleteRequest(path, version)];
        case SetData(path, data, version) => out := sink + [SetDataRequest(path, data, version)];
      }
    }

    /**
     * Reads the sequence starting at the header at position pos and appends
     * the decoded ops after those already present. On a failure the ops
     * decoded before it stay appended.
     */
    method Deserialize(items: seq<Item>, pos: nat) returns (outcome: Outcome)
      modifies this
      ensures ops == old(ops) + DecodeRequests(items, pos).values
      ensures outcome == DecodeRequests(items, pos).outcome
    {
      ghost var added: seq<Op> := [];
      var p := pos;
      var h := ReadHeader(items, p);
      while h.Ok? && h.value > 0
        invariant h == ReadHeader(items, p)
        invariant ops == old(ops) + added
        invariant DecodeRequests(items, pos) == Prepend(added, DecodeRequests(items, p))
        decreases |items| - p
      {
        var tag := h.value;
        // the switch on the header type, reading the request record it names
        var r := RequestAt(tag, items, p + 1);
        DecodeUnfold(items, p);
        if r.Err? {
          return Failed(r.error);
        }
        var op := r.value;
        PrependTwice(added, [op], DecodeRequests(items, p + 2));
        Add(op);
        added := added + [op];
        p := p + 2;
        h := ReadHeader(items, p);
      }
      DecodeUnfold(items, p);
      if h.Err? {
        return Failed(h.error);
      }
      outcome := Done(p + 1);
    }

    /**
     * `equals`: walks this record's ops against an iterator over the other's;
     * equal when both have the same length and are pairwise equal in order.
     */
    method Equals(that: MultiTransactionRecord) returns (eq: bool)
      ensures eq <==> |ops| == |that.ops| && forall i :: 0 <= i < |ops| ==> OpEquals(ops[i], that.ops[i])
    {
      var other := 0;          // the iterator over that.ops
      var k := 0;
      while k < |ops|
        invariant 0 <= k <= |ops| && other == k && k <= |that.ops|
        invariant forall i :: 0 <= i < k ==> OpEquals(ops[i], that.ops[i])
      {
        if other >= |that.ops| {
          return false;
        }
        var otherOp := that.ops[other];
        other := other + 1;
        var same := Ops.Equals(ops[k], otherOp);
        if !same {
          return false;
        }
        k := k + 1;
      }
      eq := other >= |that.ops|;
    }
  }

  /** Record equality is list equality, since op equality is structural. */
  lemma RecordEqualityIsListEquality(xs: seq<Op>, ys: seq<Op>)
    ensures (|xs| == |ys| && forall i :: 0 <= i < |xs| ==> OpEquals(xs[i], ys[i])) <==> xs == ys
  {
    if |xs| == |ys| && forall i :: 0 <= i < |xs| ==> OpEquals(xs[i], ys[i]) {
      assert forall i :: 0 <= i < |xs| ==> xs[i] == ys[i];
    }
  }

  /**
   * Record equality with the ops compared by `Op.equals` as written, whose
   * create comparison looks only at data and flags.
   */
  predicate RecordEqualsAsWritten(xs: seq<Op>, ys: seq<Op>) {
    |xs| == |ys| && forall i :: 0 <= i < |xs| ==> OpEqualsAsWritten(xs[i], ys[i])
  }

  /** Records equal under the corrected op comparison are equal as written too. */
  lemma RecordEqualityImpliesAsWritten(xs: seq<Op>, ys: seq<Op>)
    requires |xs| == |ys| && forall i :: 0 <= i < |xs| ==> OpEquals(xs[i], ys[i])
    ensures RecordEqualsAsWritten(xs, ys)
  {
    forall i | 0 <= i < |xs| ensures OpEqualsAsWritten(xs[i], ys[i]) {
      assert OpEquals(xs[i], ys[i]);
    }
  }

  /**
   * The converse fails: records holding one create each, differing in path
   * and ACLs, are equal as written and unequal under the corrected comparison.
   */
  lemma RecordEqualsAsWrittenIgnoresPathAndAcl(acl: Acl)
    ensures RecordEqualsAsWritten([Create("/a", [1, 2], [acl], 0)], [Create("/b", [1, 2], [], 0)])
    ensures !OpEquals(Create("/a", [1, 2], [acl], 0), Create("/b", [1, 2], [], 0))
  {
  }

  /**
   * The round trip of the record test: serialise into an empty archive,
   * deserialise into a fresh record, compare.
   */
  method CodeDecode(request: MultiTransactionRecord) returns (decoded: MultiTransactionRecord, eq: bool)
    ensures fresh(decoded) && decoded.ops == request.ops
    ensures eq
    ensures RecordEqualsAsWritten(request.ops, decoded.ops)
  {
    var archive := request.Serialize([]);
    decoded := new MultiTransactionRecord();
    var outcome := decoded.Deserialize(archive, 0);
    RoundTrip(request.ops, []);
    assert archive == EncodeRequests(request.ops) + [];
    eq := request.Equals(decoded);
    RecordEqualityIsListEquality(request.ops, decoded.ops);
    RecordEqualityImpliesAsWritten(request.ops, decoded.ops);
  }
}
