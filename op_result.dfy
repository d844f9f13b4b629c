/**
 * OpResult: the outcome of one part of a committed multi-operation
 * transaction. Five immutable shapes; each fixes its opcode, and each
 * getter is the datatype field of the same name (path, stat, err).
 */
module OpResults {
  import opened Types

  datatype OpResult =
    | CreateResult(path: string)
    | DeleteResult
    | SetDataResult(stat: Stat)
    | CheckResult(stat: Stat)
    | ErrorResult(err: int32)
  {
    /** The opcode each result constructor fixes. */
    function Type(): (t: int32)
      ensures CreateResult? ==> t == CreateTag
      ensures DeleteResult? ==> t == DeleteTag
      ensures SetDataResult? ==> t == SetDataTag
      ensures CheckResult? ==> t == CheckTag
      ensures ErrorResult? ==> t == ErrorTag
    {
      match this
      case CreateResult(_) => CreateTag
      case DeleteResult => DeleteTag
      case SetDataResult(_) => SetDataTag
      case CheckResult(_) => CheckTag
      case ErrorResult(_) => ErrorTag
    }
  }

  predicate SameShape(a: OpResult, b: OpResult) {
    (a.CreateResult? && b.CreateResult?) || (a.DeleteResult? && b.DeleteResult?) ||
    (a.SetDataResult? && b.SetDataResult?) || (a.CheckResult? && b.CheckResult?) ||
    (a.ErrorResult? && b.ErrorResult?)
  }

  /**
   * Given an error opcode other than the four operation opcodes, a result's
   * type identifies its shape: two results have the same type exactly when
   * they have the same shape.
   */
  lemma TypeDeterminesShape(a: OpResult, b: OpResult)
    requires ErrorTagDistinct()
    ensures a.Type() == b.Type() <==> SameShape(a, b)
  {
  }

  /** What a call to `equals` does: return a boolean, or throw. */
  datatype EqualsOutcome = Returned(equal: bool) | ClassCastException

  /**
   * `OpResult.equals` as written. Every shape but DeleteResult casts the
   * argument to its own class after checking only that it is an OpResult,
   * so comparing with a result of another shape throws; DeleteResult
   * compares types alone.
   */
  function EqualsAsWritten(a: OpResult, b: OpResult): (r: EqualsOutcome)
    ensures r.ClassCastException? <==> !a.DeleteResult? && !SameShape(a, b)
    ensures a.DeleteResult? ==> r == Returned(b.Type() == DeleteTag)
    ensures r == Returned(true) && !a.DeleteResult? ==> a.Type() == b.Type()
  {
    match a
    case DeleteResult => Returned(a.Type() == b.Type())
    case CreateResult(p) =>
      if b.CreateResult? then Returned(a.Type() == b.Type() && p == b.path) else ClassCastException
    case SetDataResult(s) =>
      if b.SetDataResult? then Returned(a.Type() == b.Type() && s.mzxid == b.stat.mzxid) else ClassCastException
    case CheckResult(s) =>
      if b.CheckResult? then Returned(a.Type() == b.Type() && s.mzxid == b.stat.mzxid) else ClassCastException
    case ErrorResult(e) =>
      if b.ErrorResult? then Returned(a.Type() == b.Type() && e == b.err) else ClassCastException
  }

  /**
   * `OpResult.equals` as evidently intended: a result of another shape is
   * simply unequal. Within a shape: CreateResult compares the path, a
   * DeleteResult equals every DeleteResult, SetDataResult and CheckResult
   * compare only the stat's mzxid, ErrorResult compares the error code.
   */
  function ResultEquals(a: OpResult, b: OpResult): (r: bool)
    ensures r ==> SameShape(a, b) && a.Type() == b.Type()
    ensures a.CreateResult? ==> (r <==> b.CreateResult? && a.path == b.path)
    ensures a.DeleteResult? ==> (r <==> b.DeleteResult?)
    ensures a.SetDataResult? ==> (r <==> b.SetDataResult? && a.stat.mzxid == b.stat.mzxid)
    ensures a.CheckResult? ==> (r <==> b.CheckResult? && a.stat.mzxid == b.stat.mzxid)
    ensures a.ErrorResult? ==> (r <==> b.ErrorResult? && a.err == b.err)
  {
    match (a, b)
    case (CreateResult(p), CreateResult(p')) => p == p'
    case (DeleteResult, DeleteResult) => true
    case (SetDataResult(s), SetDataResult(s')) => s.mzxid == s'.mzxid
    case (CheckResult(s), CheckResult(s')) => s.mzxid == s'.mzxid
    case (ErrorResult(e), ErrorResult(e')) => e == e'
    case _ => false
  }

  /**
   * Wherever the code as written returns instead of throwing, it agrees with
   * the corrected equality (given that the error opcode is not a delete).
   */
  lemma EqualsAsWrittenAgrees(a: OpResult, b: OpResult)
    requires ErrorTagDistinct()
    requires EqualsAsWritten(a, b).Returned?
    ensures EqualsAsWritten(a, b).equal == ResultEquals(a, b)
  {
  }

  /** Comparing a CreateResult with a DeleteResult throws; the reverse returns false. */
  lemma EqualsAsWrittenIsAsymmetric(path: string)
    ensures EqualsAsWritten(CreateResult(path), DeleteResult) == ClassCastException
    ensures EqualsAsWritten(DeleteResult, CreateResult(path)) == Returned(false)
  {
  }

  /** The corrected equality is an equivalence relation. */
  lemma ResultEqualsIsEquivalence(a: OpResult, b: OpResult, c: OpResult)
    ensures ResultEquals(a, a)
    ensures ResultEquals(a, b) ==> ResultEquals(b, a)
    ensures ResultEquals(a, b) && ResultEquals(b, c) ==> ResultEquals(a, c)
  {
  }

  /**
   * `hashCode`: type * 35 plus the compared field (type alone for a delete);
   * the stat variants add the long mzxid and truncate to int.
   */
  function HashCode(r: OpResult, strHash: string -> int32): (h: int32)
    ensures r.DeleteResult? ==> h == r.Type()
    ensures r.CreateResult? ==> (h as int - (r.Type() as int * 35 + strHash(r.path) as int)) % 0x1_0000_0000 == 0
    ensures r.SetDataResult? || r.CheckResult? ==>
              (h as int - (r.Type() as int * 35 + r.stat.mzxid as int)) % 0x1_0000_0000 == 0
    ensures r.ErrorResult? ==> (h as int - (r.Type() as int * 35 + r.err as int)) % 0x1_0000_0000 == 0
  {
    match r
    case CreateResult(path) => Wrap32(r.Type() as int * 35 + strHash(path) as int)
    case DeleteResult => r.Type()
    case SetDataResult(stat) => Wrap32(r.Type() as int * 35 + stat.mzxid as int)
    case CheckResult(stat) => Wrap32(r.Type() as int * 35 + stat.mzxid as int)
    case ErrorResult(err) => Wrap32(r.Type() as int * 35 + err as int)
  }

  /** Equal results hash equal, although their stats may differ outside mzxid. */
  lemma HashAgreesWithEquals(a: OpResult, b: OpResult, strHash: string -> int32)
    requires ResultEquals(a, b)
    ensures HashCode(a, strHash) == HashCode(b, strHash)
  {
  }
}
