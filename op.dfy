/**
 * Op: one operation of a multi-operation transaction. The set of shapes is
 * closed (create, delete, setData, check), each shape carries a fixed
 * opcode, and each converts to the single-operation request record that
 * carries exactly its fields.
 */
module Ops {
  import opened Types
  import opened Archive

  /**
   * The datatype constructors are the int-flag factories `Op.create`,
   * `Op.delete`, `Op.setData` and `Op.check`; no other shape exists.
   */
  datatype Op =
    | Create(path: string, data: Bytes, acl: seq<Acl>, flags: int32)
    | Delete(path: string, version: int32)
    | SetData(path: string, data: Bytes, version: int32)
    | Check(path: string, version: int32)
  {
    /** The opcode fixed by the variant; always positive, distinct per variant. */
    function Type(): (t: int32)
      ensures IsOpTag(t) && t > 0
      ensures t == CreateTag <==> Create?
      ensures t == DeleteTag <==> Delete?
      ensures t == SetDataTag <==> SetData?
      ensures t == CheckTag <==> Check?
    {
      match this
      case Create(_, _, _, _) => CreateTag
      case Delete(_, _) => DeleteTag
      case SetData(_, _, _) => SetDataTag
      case Check(_, _) => CheckTag
    }

    /** The single-operation request record carrying this op's fields. */
    function ToRequestRecord(): (rec: Item)
    {
      match this
      case Create(path, data, acl, flags) => CreateRequest(path, data, acl, flags)
      case Delete(path, version) => DeleteRequest(path, version)
      case SetData(path, data, version) => SetDataRequest(path, data, version)
      case Check(path, version) => CheckVersionRequest(path, version)
    }
  }

  /** `Op.create(path, data, acl, createMode)`: flags come from the mode. */
  function CreateWithMode(path: string, data: Bytes, acl: seq<Acl>, mode: CreateMode,
                          toFlag: CreateMode -> int32): (op: Op)
    ensures op.Type() == CreateTag
    ensures op.path == path && op.data == data && op.acl == acl && op.flags == toFlag(mode)
  {
    Create(path, data, acl, toFlag(mode))
  }

  /** Decoding a request record back into an op is the inverse of ToRequestRecord. */
  function FromRequestRecord(rec: Item): (r: Option<Op>)
    ensures r.Some? ==> r.value.ToRequestRecord() == rec
  {
    match rec
    case CreateRequest(path, data, acl, flags) => Some(Create(path, data, acl, flags))
    case DeleteRequest(path, version) => Some(Delete(path, version))
    case SetDataRequest(path, data, version) => Some(SetData(path, data, version))
    case CheckVersionRequest(path, version) => Some(Check(path, version))
    case _ => None
  }

  lemma ToRequestRecordRoundTrip(op: Op)
    ensures FromRequestRecord(op.ToRequestRecord()) == Some(op)
  {
  }

  // ---------------------------------------------------------------------
  // Equality

  /**
   * `Op.Create.equals` as written: the ACL loop walks the other op's list
   * against an iterator over that same list, so it never fails, and the path
   * is not compared. Two creates are equal exactly when data and flags agree.
   */
  method CreateEqualsAsWritten(a: Op, b: Op) returns (eq: bool)
    requires a.Create? && b.Create?
    ensures eq <==> a.data == b.data && a.flags == b.flags
  {
    var aclEquals := true;
    var i := 0;              // the iterator over b.acl
    var k := 0;              // the for-each loop, also over b.acl
    while k < |b.acl|
      invariant 0 <= k <= |b.acl| && i == k
      invariant aclEquals
    {
      var acl := b.acl[k];
      if i >= |b.acl| {
        aclEquals := false;
        break;
      }
      var otherAcl := b.acl[i];
      i := i + 1;
      if acl != otherAcl {
        aclEquals := false;
        break;
      }
      k := k + 1;
    }
    eq := i >= |b.acl| && a.Type() == b.Type() && a.data == b.data && a.flags == b.flags && aclEquals;
  }

  /**
   * Two creates that differ in path and ACL compare equal under the code as
   * written.
   */
  method CreateEqualityIgnoresPathAndAcl(acl: Acl) returns (a: Op, b: Op, eq: bool)
    ensures a.Create? && b.Create? && a.path != b.path && a.acl != b.acl
    ensures eq
  {
    a := Create("/a", [1, 2], [acl], 0);
    b := Create("/b", [1, 2], [], 0);
    eq := CreateEqualsAsWritten(a, b);
  }

  /**
   * `Op.Create.equals` as evidently intended: this op's ACL list is walked
   * against the other's iterator and the path is compared too, which makes
   * it structural equality.
   */
  method CreateEquals(a: Op, b: Op) returns (eq: bool)
    requires a.Create? && b.Create?
    ensures eq <==> a == b
  {
    var aclEquals := true;
    var i := 0;              // the iterator over b.acl
    var k := 0;              // the for-each loop over a.acl
    while k < |a.acl|
      invariant 0 <= k <= |a.acl| && i == k
      invariant aclEquals <==> k <= |b.acl| && a.acl[..k] == b.acl[..k]
    {
      var acl := a.acl[k];
      if i >= |b.acl| {
        aclEquals := false;
        break;
      }
      var otherAcl := b.acl[i];
      i := i + 1;
      if acl != otherAcl {
        aclEquals := false;
        break;
      }
      k := k + 1;
    }
    eq := i >= |b.acl| && a.Type() == b.Type() && a.path == b.path && a.data == b.data
          && a.flags == b.flags && aclEquals;
    if eq {
      assert a.acl == a.acl[..k] && b.acl == b.acl[..k];
    }
  }

  /**
   * Op equality: per variant, type plus every field (byte arrays compared
   * element-wise, ACL lists compared in order); different variants are never
   * equal. Create uses the corrected comparison.
   */
  function OpEquals(a: Op, b: Op): (r: bool)
    ensures r <==> a == b
    ensures r ==> a.Type() == b.Type()
  {
    match (a, b)
    case (Create(p, d, l, f), Create(p', d', l', f')) => p == p' && d == d' && l == l' && f == f'
    case (Delete(p, v), Delete(p', v')) => a.Type() == b.Type() && v == v' && p == p'
    case (SetData(p, d, v), SetData(p', d', v')) => a.Type() == b.Type() && v == v' && p == p' && d == d'
    case (Check(p, v), Check(p', v')) => a.Type() == b.Type() && p == p' && v == v'
    case _ => false
  }

  /**
   * `Op.equals` with the create comparison as written, which looks only at
   * data and flags: it holds of all equal ops, and beyond them only of
   * creates that differ in path or ACLs.
   */
  function OpEqualsAsWritten(a: Op, b: Op): (r: bool)
    ensures OpEquals(a, b) ==> r
    ensures r ==> a.Type() == b.Type()
    ensures r && !a.Create? ==> a == b
    ensures a.Create? ==> (r <==> b.Create? && a.data == b.data && a.flags == b.flags)
  {
    if a.Create? then b.Create? && a.data == b.data && a.flags == b.flags
    else OpEquals(a, b)
  }

  /** `Op.equals`, dispatched on the receiver's variant. */
  method Equals(a: Op, b: Op) returns (eq: bool)
    ensures eq == OpEquals(a, b)
  {
    if a.Create? {
      if !b.Create? { return false; }
      eq := CreateEquals(a, b);
    } else if a.Delete? {
      eq := b.Delete? && a.Type() == b.Type() && a.version == b.version && a.path == b.path;
    } else if a.SetData? {
      eq := b.SetData? && a.Type() == b.Type() && a.version == b.version && a.path == b.path
            && a.data == b.data;
    } else {
      eq := b.Check? && a.Type() == b.Type() && a.path == b.path && a.version == b.version;
    }
  }

  // ---------------------------------------------------------------------
  // Hashing. String.hashCode and Arrays.hashCode are foreign and taken as
  // parameters; the sums wrap like Java ints.

  /**
   * `hashCode`: the Java int sum of the opcode, the path's hash, the data's
   * hash where the op has data (create, setData) and the version where it
   * has one (delete, setData, check). A create's ACLs and flags do not enter.
   */
  function HashCode(op: Op, strHash: string -> int32, bytesHash: Bytes -> int32): (h: int32)
    ensures (h as int - (op.Type() as int + strHash(op.path) as int
                         + (if op.Create? || op.SetData? then bytesHash(op.data) as int else 0)
                         + (if op.Create? then 0 else op.version as int))) % 0x1_0000_0000 == 0
  {
    match op
    case Create(path, data, _, _) => Wrap32(op.Type() as int + strHash(path) as int + bytesHash(data) as int)
    case Delete(path, version) => Wrap32(op.Type() as int + strHash(path) as int + version as int)
    case SetData(path, data, version) =>
      Wrap32(op.Type() as int + strHash(path) as int + bytesHash(data) as int + version as int)
    case Check(path, version) => Wrap32(op.Type() as int + strHash(path) as int + version as int)
  }

  /**
   * Ops of one shape that agree on path, data (where they have it) and
   * version (where they have it) hash alike, whatever their ACLs and flags.
   * Those are fields every `equals` but the create one as written compares,
   * so ops equal under the corrected comparison (`OpEquals`) hash alike.
   */
  lemma HashAgreesWithEquals(a: Op, b: Op, strHash: string -> int32, bytesHash: Bytes -> int32)
    requires a.Type() == b.Type() && a.path == b.path
    requires a.Create? || a.SetData? ==> a.data == b.data
    requires !a.Create? ==> a.version == b.version
    ensures HashCode(a, strHash, bytesHash) == HashCode(b, strHash, bytesHash)
  {
  }

  /**
   * Under the code as written, two creates whose paths hash differently are
   * equal (same data and flags) yet hash differently: the hash includes the
   * path that equals ignores.
   */
  lemma CreateHashDisagreesWithEqualsAsWritten(a: Op, b: Op, strHash: string -> int32, bytesHash: Bytes -> int32)
    requires a.Create? && b.Create? && a.data == b.data && a.flags == b.flags
    requires strHash(a.path) != strHash(b.path)
    ensures HashCode(a, strHash, bytesHash) != HashCode(b, strHash, bytesHash)
  {
    var common := CreateTag as int + bytesHash(a.data) as int;
    Wrap32Distinguishes(common + strHash(a.path) as int, common + strHash(b.path) as int);
  }
}
