/**
 * Transaction: a builder that accumulates ops in call order and hands them,
 * as one multi request, to the client's multi call. Each builder method
 * appends one op to the request and returns the same transaction, so calls
 * chain.
 */
module Transactions {
  import opened Types
  import opened Ops
  import opened OpResults
  import opened RequestCodec

  /** The client handle a transaction commits through; its behaviour is not part of this model. */
  class ZooKeeper {
    constructor ()
    {
    }
  }

  /** What the client's multi call gives back: the results, or the failure it raised. */
  datatype CommitResult =
    | Committed(results: seq<OpResult>)
    | KeeperFailure(code: int32)
    | Interrupted

  class Transaction {
    const zk: ZooKeeper
    const request: MultiTransactionRecord

    constructor (zk: ZooKeeper)
      ensures this.zk == zk && fresh(request) && request.ops == []
    {
      this.zk := zk;
      request := new MultiTransactionRecord();
    }

    /** Appends a create whose flags are the creation mode's flag value. */
    method Create(path: string, data: Bytes, acl: seq<Acl>, mode: CreateMode,
                  toFlag: CreateMode -> int32) returns (t: Transaction)
      modifies request
      ensures t == this
      ensures request.ops == old(request.ops) + [Op.Create(path, data, acl, toFlag(mode))]
    {
      request.Add(Op.Create(path, data, acl, toFlag(mode)));
      t := this;
    }

    /** Appends a delete. */
    method Delete(path: string, version: int32) returns (t: Transaction)
      modifies request
      ensures t == this
      ensures request.ops == old(request.ops) + [Op.Delete(path, version)]
    {
      request.Add(Op.Delete(path, version));
      t := this;
    }

    /** Appends a version check. */
    method Check(path: string, version: int32) returns (t: Transaction)
      modifies request
      ensures t == this
      ensures request.ops == old(request.ops) + [Op.Check(path, version)]
    {
      request.Add(Op.Check(path, version));
      t := this;
    }

    /** Appends a setData. */
    method SetData(path: string, data: Bytes, version: int32) returns (t: Transaction)
      modifies request
      ensures t == this
      ensures request.ops == old(request.ops) + [Op.SetData(path, data, version)]
    {
      request.Add(Op.SetData(path, data, version));
      t := this;
    }

    /**
     * Hands the accumulated ops, unchanged, to the client's multi call
     * (`multi`, which stands for ZooKeeper.multi_internal) and returns what
     * it returns.
     */
    method Commit(multi: (ZooKeeper, seq<Op>) -> CommitResult) returns (r: CommitResult)
      ensures r == multi(zk, request.ops)
    {
      r := multi(zk, request.ops);
    }
  }

  /**
   * Chained builder calls act on one transaction and accumulate their ops
   * in call order; the handle is the one the transaction was made with.
   */
  method BuildChained(zk: ZooKeeper, toFlag: CreateMode -> int32) returns (t: Transaction)
    ensures fresh(t) && t.zk == zk
    ensures t.request.ops == [Op.Check("/c", 1), Op.Create("/n", [7], [], toFlag(Ephemeral)),
                              Op.Delete("/d", -1), Op.SetData("/s", [], 3)]
  {
    t := new Transaction(zk);
    var t1 := t.Check("/c", 1);
    var t2 := t1.Create("/n", [7], [], Ephemeral, toFlag);
    var t3 := t2.Delete("/d", -1);
    var t4 := t3.SetData("/s", [], 3);
    assert t4 == t;
  }
}
