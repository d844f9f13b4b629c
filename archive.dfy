/**
 * The jute archive seen from the multi codec. The single-operation records
 * (CreateRequest, SetDataResponse, MultiHeader, ...) have their own wire
 * layout, which is not part of this model; an archive here is the sequence
 * of records written to it, and reading a record either yields the next item
 * of the expected kind or fails the way an IOException from the archive does.
 */
module Archive {
  import opened Types

  /** One record written to, or read from, an archive. */
  datatype Item =
    | Header(tag: int32)
    | CreateRequest(path: string, data: Bytes, acl: seq<Acl>, flags: int32)
    | DeleteRequest(path: string, version: int32)
    | SetDataRequest(path: string, data: Bytes, version: int32)
    | CheckVersionRequest(path: string, version: int32)
    | CreateResponse(path: string)
    | SetDataResponse(stat: Stat)

  datatype Kind =
    | HeaderKind | CreateRequestKind | DeleteRequestKind | SetDataRequestKind
    | CheckVersionRequestKind | CreateResponseKind | SetDataResponseKind

  function KindOf(it: Item): Kind {
    match it
    case Header(_) => HeaderKind
    case CreateRequest(_, _, _, _) => CreateRequestKind
    case DeleteRequest(_, _) => DeleteRequestKind
    case SetDataRequest(_, _, _) => SetDataRequestKind
    case CheckVersionRequest(_, _) => CheckVersionRequestKind
    case CreateResponse(_) => CreateResponseKind
    case SetDataResponse(_) => SetDataResponseKind
  }

  /** Why a read or a decode stopped with an IOException. */
  datatype IoError =
    | EndOfStream                  // the archive ran out
    | Malformed(pos: nat)          // the record at pos is not of the expected kind
    | InvalidOpType(tag: int32)    // "Invalid type of op"
    | InvalidResultType(tag: int32) // "Invalid type <tag> in MultiResponse"

  datatype Result<T> = Ok(value: T) | Err(error: IoError)

  /** How a sequence decode ended: at the item after the end header, or with an exception. */
  datatype Outcome = Done(next: nat) | Failed(error: IoError)

  /**
   * The values a sequence decode appended before it ended, and how it ended.
   * On failure the values are what the decoder had already appended when the
   * exception was raised.
   */
  datatype Decoded<T> = Decoded(values: seq<T>, outcome: Outcome)

  /**
   * One turn of a sequence decode at a header: the value it reads and the
   * position of the next header, or how the decode ends there.
   */
  datatype Step<T> = Next(value: T, next: nat) | Stop(outcome: Outcome)

  function Prepend<T>(xs: seq<T>, d: Decoded<T>): Decoded<T> {
    Decoded(xs + d.values, d.outcome)
  }

  lemma PrependTwice<T>(xs: seq<T>, ys: seq<T>, d: Decoded<T>)
    ensures Prepend(xs, Prepend(ys, d)) == Prepend(xs + ys, d)
  {
    assert xs + (ys + d.values) == (xs + ys) + d.values;
  }

  // Associativity of concatenation, stated once so that proofs over long
  // concatenations can regroup them in one step instead of searching.

  lemma Associate<T>(a: seq<T>, b: seq<T>, c: seq<T>)
    ensures a + b + c == a + (b + c)
  {
  }

  lemma Regroup<T>(a: seq<T>, b: seq<T>, c: seq<T>, d: seq<T>, e: seq<T>)
    ensures a + (b + c) + d + e == a + (b + (c + d + e))
  {
  }

  /** Deserialising one record of the given kind at position p. */
  function ReadRecord(items: seq<Item>, p: nat, kind: Kind): Result<Item> {
    if p >= |items| then Err(EndOfStream)
    else if KindOf(items[p]) != kind then Err(Malformed(p))
    else Ok(items[p])
  }

  /** Deserialising a MultiHeader at position p: its type. */
  function ReadHeader(items: seq<Item>, p: nat): (r: Result<int32>)
    ensures r.Ok? <==> p < |items| && items[p].Header?
    ensures r.Ok? ==> items[p] == Header(r.value)
  {
    match ReadRecord(items, p, HeaderKind)
    case Ok(it) => Ok(it.tag)
    case Err(e) => Err(e)
  }
}
