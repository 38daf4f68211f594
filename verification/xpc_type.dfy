/** The XPC object model (xpc_type.c, layouts in xpc_internal.h): a tagged
    union of scalar values, strings, byte blobs and containers, held in heap
    objects that carry a type tag, flags, a reference count and a recorded
    size. Containers are modelled by value: a dictionary or array holds the
    values of its children. */
module XpcType {
  import opened Common
  import opened SeqFold

  /** `xpc_type_t`: the type tag of an object. */
  datatype Kind =
    | TDictionary | TArray | TBool | TConnection | TEndpoint | TNull
    | TInt64 | TUInt64 | TDate | TData | TString | TUuid | TFd | TShmem
    | TError | TDouble | TStaticError

  /** `mach_port_t`. */
  type Port = uint32

  /** The payload `xo_u` of an object, tagged by its kind. A dictionary is
      its ordered list of key/value pairs, an array its ordered elements. */
  datatype Value =
    | Null
    | Bool(b: bool)
    | Int64(i: int64)
    | UInt64(u: uint64)
    | Double(bits: uint64)
    | Date(i: int64)
    | Data(bytes: seq<byte>)
    | String(str: string)
    | Uuid(uuid: seq<byte>)
    | Fd(port: Port)
    | Endpoint(port: Port)
    | Connection(port: Port)
    | Shmem
    | Error
    | Dictionary(entries: seq<Entry>)
    | Array(items: seq<Value>)

  /** `struct xpc_dict_pair`. */
  datatype Entry = Entry(key: string, value: Value)

  function KindOf(v: Value): Kind {
    match v
    case Null => TNull
    case Bool(_) => TBool
    case Int64(_) => TInt64
    case UInt64(_) => TUInt64
    case Double(_) => TDouble
    case Date(_) => TDate
    case Data(_) => TData
    case String(_) => TString
    case Uuid(_) => TUuid
    case Fd(_) => TFd
    case Endpoint(_) => TEndpoint
    case Connection(_) => TConnection
    case Shmem => TShmem
    case Error => TError
    case Dictionary(_) => TDictionary
    case Array(_) => TArray
  }

  /** `_XPC_FROM_WIRE`: set on dictionaries decoded from a received message. */
  const FromWireFlag: uint16 := 0x1
  /** `_XPC_STATIC_OBJECT_FLAG`: set on the statically allocated singletons. */
  const StaticObjectFlag: uint16 := 0x2

  /** `flags & flag`, for a flag that is a single bit: that bit is set. */
  predicate HasFlag(flags: uint16, flag: uint16) {
    flag != 0 && flags / flag % 2 == 1
  }

  /** Size of a `uuid_t`. */
  const UuidSize: nat := 16

  // ---------------------------------------------------------------------
  // Dictionary lookup (used by the object model and by xpc_dictionary.c)
  // ---------------------------------------------------------------------

  /** No key occurs twice: what `xpc_dictionary_set_value` maintains. */
  predicate UniqueKeys(es: seq<Entry>) {
    forall i, j :: 0 <= i < j < |es| ==> es[i].key != es[j].key
  }

  /** Position of the first pair whose key equals `k` (`strcmp` == 0), or
      the number of pairs when there is none. */
  function KeyIndex(es: seq<Entry>, k: string): (i: nat)
    ensures i <= |es|
    ensures i < |es| ==> es[i].key == k
  {
    if es == [] then 0
    else if es[0].key == k then 0
    else 1 + KeyIndex(es[1..], k)
  }

  /** No pair before the one found carries the key. */
  lemma {:induction false} KeyIndexFirst(es: seq<Entry>, k: string)
    ensures forall m :: 0 <= m < KeyIndex(es, k) ==> es[m].key != k
  {
    if es != [] && es[0].key != k {
      KeyIndexFirst(es[1..], k);
    }
  }

  /** `xpc_dictionary_get_value`: the value under the first equal key, or
      NULL. */
  function Lookup(es: seq<Entry>, k: string): (r: Option<Value>)
  {
    var i := KeyIndex(es, k);
    if i < |es| then Some(es[i].value) else None
  }

  /** A lookup finds a key exactly when some pair carries it, and then finds
      that pair's value when keys are unique. */
  lemma {:induction false} LookupFinds(es: seq<Entry>, j: nat)
    requires j < |es| && UniqueKeys(es)
    ensures KeyIndex(es, es[j].key) == j
    ensures Lookup(es, es[j].key) == Some(es[j].value)
  {
    if j > 0 {
      assert es[0].key != es[j].key;
      assert es[1..][j - 1] == es[j];
      LookupFinds(es[1..], j - 1);
    }
  }

  lemma LookupMissing(es: seq<Entry>, k: string)
    ensures Lookup(es, k).None? <==> forall m :: 0 <= m < |es| ==> es[m].key != k
  {
    KeyIndexFirst(es, k);
  }

  // ---------------------------------------------------------------------
  // Objects
  // ---------------------------------------------------------------------

  /** `struct xpc_object`. The audit token is only present or absent. */
  class Object {
    var kind: Kind
    var flags: uint16
    var refcnt: nat
    var size: nat
    var payload: Value
    var hasAuditToken: bool

    /** The tag agrees with the payload, byte blobs and strings record
        their length, and a dictionary records its number of pairs and keeps
        its keys unique. A static error object carries no payload. */
    ghost predicate Valid()
      reads this
    {
      (kind != TStaticError ==> KindOf(payload) == kind)
      && (payload.Data? ==> size == |payload.bytes|)
      && (payload.String? ==> size == |payload.str|)
      && (payload.Uuid? ==> |payload.uuid| == UuidSize)
      && (payload.Dictionary? ==> size == |payload.entries| && UniqueKeys(payload.entries))
    }

    /** `_xpc_prim_create_flags`: reference count 1, no audit token, the
        given tag, size, flags and value; a dictionary or array starts out
        empty whatever value was passed. */
    constructor PrimCreateFlags(k: Kind, value: Value, sz: nat, fl: uint16)
      requires KindOf(value) == k
      ensures kind == k && size == sz && flags == fl
      ensures refcnt == 1 && !hasAuditToken
      ensures payload == (if k == TDictionary then Dictionary([])
                          else if k == TArray then Array([]) else value)
    {
      kind := k;
      size := sz;
      flags := fl;
      refcnt := 1;
      hasAuditToken := false;
      payload := if k == TDictionary then Dictionary([])
                 else if k == TArray then Array([]) else value;
    }
  }

  /** True when `xo` is NULL or not of type `k`: the two cases in which every
      accessor aborts (xpc_assert_nonnull, xpc_assert_type). */
  predicate Mismatch(xo: Object?, k: Kind)
    reads xo
  {
    xo == null || xo.kind != k
  }

  predicate IsStatic(xo: Object)
    reads xo
  {
    HasFlag(xo.flags, StaticObjectFlag)
  }

  /** The three statically allocated instances: `_xpc_bool_true`,
      `_xpc_bool_false` and `_xpc_null_instance`. */
  class Singletons {
    const trueObj: Object
    const falseObj: Object
    const nullObj: Object

    ghost predicate Valid()
      reads this, trueObj, falseObj, nullObj
    {
      trueObj != falseObj && trueObj != nullObj && falseObj != nullObj
      && trueObj.kind == TBool && trueObj.payload == Bool(true) && trueObj.size == 1
      && falseObj.kind == TBool && falseObj.payload == Bool(false) && falseObj.size == 1
      && nullObj.kind == TNull && nullObj.payload == Null && nullObj.size == 0
      && trueObj.flags == StaticObjectFlag && falseObj.flags == StaticObjectFlag
      && nullObj.flags == StaticObjectFlag
      && trueObj.refcnt == 1 && falseObj.refcnt == 1 && nullObj.refcnt == 1
      && trueObj.Valid() && falseObj.Valid() && nullObj.Valid()
    }

    constructor ()
      ensures Valid()
    {
      trueObj := new Object.PrimCreateFlags(TBool, Bool(true), 1, StaticObjectFlag);
      falseObj := new Object.PrimCreateFlags(TBool, Bool(false), 1, StaticObjectFlag);
      nullObj := new Object.PrimCreateFlags(TNull, Null, 0, StaticObjectFlag);
    }
  }

  /** `xpc_bool_create`: one of the two static singletons, never a new
      object. */
  method BoolCreate(g: Singletons, value: bool) returns (o: Object)
    requires g.Valid()
    ensures o == g.trueObj || o == g.falseObj
    ensures o.payload == Bool(value) && IsStatic(o)
  {
    o := if value then g.trueObj else g.falseObj;
  }

  /** `xpc_null_create`: the static null instance. */
  method NullCreate(g: Singletons) returns (o: Object)
    requires g.Valid()
    ensures o == g.nullObj && o.kind == TNull && IsStatic(o)
  {
    o := g.nullObj;
  }

  /** `xpc_bool_create_distinct`: a new, mutable boolean of size 1. */
  method BoolCreateDistinct(value: bool) returns (o: Object)
    ensures fresh(o) && o.Valid() && !IsStatic(o)
    ensures o.kind == TBool && o.payload == Bool(value) && o.size == 1 && o.refcnt == 1
  {
    o := new Object.PrimCreateFlags(TBool, Bool(value), 1, 0);
  }

  /** `xpc_int64_create`, `xpc_uint64_create`, `xpc_date_create`,
      `xpc_uuid_create` all record size 1. */
  method Int64Create(value: int64) returns (o: Object)
    ensures fresh(o) && o.Valid() && o.kind == TInt64 && o.payload == Int64(value) && o.size == 1 && o.refcnt == 1
  {
    o := new Object.PrimCreateFlags(TInt64, Int64(value), 1, 0);
  }

  method UInt64Create(value: uint64) returns (o: Object)
    ensures fresh(o) && o.Valid() && o.kind == TUInt64 && o.payload == UInt64(value) && o.size == 1 && o.refcnt == 1
  {
    o := new Object.PrimCreateFlags(TUInt64, UInt64(value), 1, 0);
  }

  method DateCreate(interval: int64) returns (o: Object)
    ensures fresh(o) && o.Valid() && o.kind == TDate && o.payload == Date(interval) && o.size == 1 && o.refcnt == 1
  {
    o := new Object.PrimCreateFlags(TDate, Date(interval), 1, 0);
  }

  method UuidCreate(uuid: seq<byte>) returns (o: Object)
    requires |uuid| == UuidSize
    ensures fresh(o) && o.Valid() && o.kind == TUuid && o.payload == Uuid(uuid) && o.size == 1 && o.refcnt == 1
  {
    o := new Object.PrimCreateFlags(TUuid, Uuid(uuid), 1, 0);
  }

  /** `xpc_data_create`: a private copy of exactly the first `length` bytes,
      with `length` recorded as the size. */
  method DataCreate(bytes: seq<byte>, length: nat) returns (o: Object)
    requires length <= |bytes|
    ensures fresh(o) && o.Valid() && o.refcnt == 1
    ensures o.kind == TData && o.payload == Data(bytes[..length]) && o.size == length
  {
    o := new Object.PrimCreateFlags(TData, Data(bytes[..length]), length, 0);
  }

  /** `xpc_string_create`: a private copy whose recorded size is its
      `strlen`. */
  method StringCreate(s: string) returns (o: Object)
    ensures fresh(o) && o.Valid() && o.refcnt == 1
    ensures o.kind == TString && o.payload == String(s) && o.size == |s|
  {
    o := new Object.PrimCreateFlags(TString, String(s), |s|, 0);
  }

  // ---------------------------------------------------------------------
  // Accessors: each aborts on NULL or on a type mismatch.
  // ---------------------------------------------------------------------

  function BoolGetValue(xo: Object?): (r: Outcome<bool>)
    reads xo
    requires xo != null ==> xo.Valid()
    ensures r.Abort? <==> Mismatch(xo, TBool)
    ensures r.Ret? ==> xo.payload == Bool(r.value)
  {
    if Mismatch(xo, TBool) then Abort else Ret(xo.payload.b)
  }

  function Int64GetValue(xo: Object?): (r: Outcome<int64>)
    reads xo
    requires xo != null ==> xo.Valid()
    ensures r.Abort? <==> Mismatch(xo, TInt64)
    ensures r.Ret? ==> xo.payload == Int64(r.value)
  {
    if Mismatch(xo, TInt64) then Abort else Ret(xo.payload.i)
  }

  function UInt64GetValue(xo: Object?): (r: Outcome<uint64>)
    reads xo
    requires xo != null ==> xo.Valid()
    ensures r.Abort? <==> Mismatch(xo, TUInt64)
    ensures r.Ret? ==> xo.payload == UInt64(r.value)
  {
    if Mismatch(xo, TUInt64) then Abort else Ret(xo.payload.u)
  }

  function DateGetValue(xo: Object?): (r: Outcome<int64>)
    reads xo
    requires xo != null ==> xo.Valid()
    ensures r.Abort? <==> Mismatch(xo, TDate)
    ensures r.Ret? ==> xo.payload == Date(r.value)
  {
    if Mismatch(xo, TDate) then Abort else Ret(xo.payload.i)
  }

  /** `xpc_data_get_length`: the recorded size. */
  function DataGetLength(xo: Object?): (r: Outcome<nat>)
    reads xo
    requires xo != null ==> xo.Valid()
    ensures r.Abort? <==> Mismatch(xo, TData)
    ensures r.Ret? ==> r.value == xo.size == |xo.payload.bytes|
  {
    if Mismatch(xo, TData) then Abort else Ret(xo.size)
  }

  /** `xpc_data_get_bytes_ptr`. */
  function DataGetBytesPtr(xo: Object?): (r: Outcome<seq<byte>>)
    reads xo
    requires xo != null ==> xo.Valid()
    ensures r.Abort? <==> Mismatch(xo, TData)
    ensures r.Ret? ==> xo.payload == Data(r.value)
  {
    if Mismatch(xo, TData) then Abort else Ret(xo.payload.bytes)
  }

  /** `xpc_string_get_length`: the recorded size. */
  function StringGetLength(xo: Object?): (r: Outcome<nat>)
    reads xo
    requires xo != null ==> xo.Valid()
    ensures r.Abort? <==> Mismatch(xo, TString)
    ensures r.Ret? ==> r.value == xo.size == |xo.payload.str|
  {
    if Mismatch(xo, TString) then Abort else Ret(xo.size)
  }

  /** `xpc_string_get_string_ptr`. */
  function StringGetStringPtr(xo: Object?): (r: Outcome<string>)
    reads xo
    requires xo != null ==> xo.Valid()
    ensures r.Abort? <==> Mismatch(xo, TString)
    ensures r.Ret? ==> xo.payload == String(r.value)
  {
    if Mismatch(xo, TString) then Abort else Ret(xo.payload.str)
  }

  /** `xpc_uuid_get_bytes`. */
  function UuidGetBytes(xo: Object?): (r: Outcome<seq<byte>>)
    reads xo
    requires xo != null ==> xo.Valid()
    ensures r.Abort? <==> Mismatch(xo, TUuid)
    ensures r.Ret? ==> xo.payload == Uuid(r.value) && |r.value| == UuidSize
  {
    if Mismatch(xo, TUuid) then Abort else Ret(xo.payload.uuid)
  }

  /** `xpc_object_get_machport`: only connections carry a readable port. */
  function ObjectGetMachport(xo: Object?): (r: Outcome<Port>)
    reads xo
    requires xo != null ==> xo.Valid()
    ensures r.Abort? <==> Mismatch(xo, TConnection)
    ensures r.Ret? ==> xo.payload == Connection(r.value)
  {
    if Mismatch(xo, TConnection) then Abort else Ret(xo.payload.port)
  }

  function Min(a: nat, b: nat): nat {
    if a <= b then a else b
  }

  /** `xpc_data_get_bytes`: copies min(`length`, recorded size) bytes to
      `buffer + off` and returns that count; the rest of `buffer` is
      unchanged. */
  method DataGetBytes(xo: Object?, buffer: array<byte>, off: nat, length: nat) returns (r: Outcome<nat>)
    requires xo != null ==> xo.Valid()
    requires !Mismatch(xo, TData) ==> off + Min(length, xo.size) <= buffer.Length
    modifies buffer
    ensures r.Abort? <==> Mismatch(xo, TData)
    ensures r.Abort? ==> buffer[..] == old(buffer[..])
    ensures r.Ret? ==> r.value == Min(length, xo.size) && r.value <= length && r.value <= xo.size
    ensures r.Ret? ==> buffer[off..off + r.value] == xo.payload.bytes[..r.value]
    ensures r.Ret? ==> buffer[..off] == old(buffer[..off])
    ensures r.Ret? ==> buffer[off + r.value..] == old(buffer[off + r.value..])
  {
    if Mismatch(xo, TData) {
      return Abort;
    }
    var n := Min(length, xo.size);
    forall i | 0 <= i < n {
      buffer[off + i] := xo.payload.bytes[i];
    }
    r := Ret(n);
  }

  // ---------------------------------------------------------------------
  // Setters
  // ---------------------------------------------------------------------

  /** `xpc_bool_set_value`: aborts on NULL, a non-boolean or one of the
      static singletons; otherwise stores the value and nothing else. */
  method BoolSetValue(xo: Object?, value: bool) returns (r: Outcome<()>)
    requires xo != null ==> xo.Valid()
    modifies xo
    ensures r.Abort? <==> Mismatch(xo, TBool) || IsStatic(xo)
    ensures r.Abort? && xo != null ==> unchanged(xo)
    ensures r.Ret? ==> xo.Valid() && xo.payload == Bool(value)
    ensures r.Ret? ==> xo.kind == old(xo.kind) && xo.flags == old(xo.flags) && xo.size == old(xo.size)
    ensures r.Ret? ==> xo.refcnt == old(xo.refcnt) && xo.hasAuditToken == old(xo.hasAuditToken)
  {
    if Mismatch(xo, TBool) || IsStatic(xo) {
      return Abort;
    }
    xo.payload := Bool(value);
    r := Ret(());
  }

  /** `xpc_int64_set_value`. */
  method Int64SetValue(xo: Object?, value: int64) returns (r: Outcome<()>)
    requires xo != null ==> xo.Valid()
    modifies xo
    ensures r.Abort? <==> Mismatch(xo, TInt64)
    ensures r.Abort? && xo != null ==> unchanged(xo)
    ensures r.Ret? ==> xo.Valid() && xo.payload == Int64(value)
    ensures r.Ret? ==> xo.kind == old(xo.kind) && xo.flags == old(xo.flags) && xo.size == old(xo.size)
    ensures r.Ret? ==> xo.refcnt == old(xo.refcnt) && xo.hasAuditToken == old(xo.hasAuditToken)
  {
    if Mismatch(xo, TInt64) {
      return Abort;
    }
    xo.payload := Int64(value);
    r := Ret(());
  }

  /** `xpc_data_set_bytes` as written: the bytes are replaced but the
      recorded size is left as it was. */
  method DataSetBytesAsWritten(xo: Object?, buffer: seq<byte>, length: nat) returns (r: Outcome<()>)
    requires xo != null ==> xo.Valid()
    requires length <= |buffer|
    modifies xo
    ensures r.Abort? <==> Mismatch(xo, TData)
    ensures r.Abort? && xo != null ==> unchanged(xo)
    ensures r.Ret? ==> xo.payload == Data(buffer[..length]) && xo.size == old(xo.size)
    ensures r.Ret? ==> xo.kind == old(xo.kind) && xo.flags == old(xo.flags) && xo.refcnt == old(xo.refcnt)
    ensures r.Ret? ==> xo.hasAuditToken == old(xo.hasAuditToken)
  {
    if Mismatch(xo, TData) {
      return Abort;
    }
    xo.payload := Data(buffer[..length]);
    r := Ret(());
  }

  /** Shrinking a blob through the as-written setter leaves a recorded size
      larger than the bytes held, so a later `xpc_data_get_bytes` or
      `xpc_equal` reads past the end of the new allocation. */
  method DataSetBytesAsWrittenCounterexample() returns (xo: Object)
    ensures xo.kind == TData && xo.size == 8 && xo.payload == Data([9, 9]) && !xo.Valid()
  {
    xo := DataCreate([1, 2, 3, 4, 5, 6, 7, 8], 8);
    var r := DataSetBytesAsWritten(xo, [9, 9], 2);
    assert r.Ret?;
    assert [9, 9][..2] == [9, 9];
  }

  /** `xpc_data_set_bytes` corrected: the recorded size follows the bytes. */
  method DataSetBytes(xo: Object?, buffer: seq<byte>, length: nat) returns (r: Outcome<()>)
    requires xo != null ==> xo.Valid()
    requires length <= |buffer|
    modifies xo
    ensures r.Abort? <==> Mismatch(xo, TData)
    ensures r.Abort? && xo != null ==> unchanged(xo)
    ensures r.Ret? ==> xo.Valid() && xo.payload == Data(buffer[..length]) && xo.size == length
    ensures r.Ret? ==> xo.kind == old(xo.kind) && xo.flags == old(xo.flags) && xo.refcnt == old(xo.refcnt)
    ensures r.Ret? ==> xo.hasAuditToken == old(xo.hasAuditToken)
  {
    if Mismatch(xo, TData) {
      return Abort;
    }
    xo.payload := Data(buffer[..length]);
    xo.size := length;
    r := Ret(());
  }

  /** `xpc_string_set_value` as written: the string is replaced but the
      recorded size (returned by `xpc_string_get_length`) is not. */
  method StringSetValueAsWritten(xo: Object?, value: string) returns (r: Outcome<()>)
    requires xo != null ==> xo.Valid()
    modifies xo
    ensures r.Abort? <==> Mismatch(xo, TString)
    ensures r.Abort? && xo != null ==> unchanged(xo)
    ensures r.Ret? ==> xo.payload == String(value) && xo.size == old(xo.size)
    ensures r.Ret? ==> xo.kind == old(xo.kind) && xo.flags == old(xo.flags) && xo.refcnt == old(xo.refcnt)
    ensures r.Ret? ==> xo.hasAuditToken == old(xo.hasAuditToken)
  {
    if Mismatch(xo, TString) {
      return Abort;
    }
    xo.payload := String(value);
    r := Ret(());
  }

  /** `xpc_string_set_value` corrected: the recorded size is the new
      `strlen`. */
  method StringSetValue(xo: Object?, value: string) returns (r: Outcome<()>)
    requires xo != null ==> xo.Valid()
    modifies xo
    ensures r.Abort? <==> Mismatch(xo, TString)
    ensures r.Abort? && xo != null ==> unchanged(xo)
    ensures r.Ret? ==> xo.Valid() && xo.payload == String(value) && xo.size == |value|
    ensures r.Ret? ==> xo.kind == old(xo.kind) && xo.flags == old(xo.flags) && xo.refcnt == old(xo.refcnt)
    ensures r.Ret? ==> xo.hasAuditToken == old(xo.hasAuditToken)
  {
    if Mismatch(xo, TString) {
      return Abort;
    }
    xo.payload := String(value);
    xo.size := |value|;
    r := Ret(());
  }

  // ---------------------------------------------------------------------
  // xpc_equal
  // ---------------------------------------------------------------------

  /** The types `xpc_equal` compares; two objects of any other common type
      make it abort. */
  predicate EqualHandles(k: Kind) {
    k == TBool || k == TInt64 || k == TDate || k == TUInt64 || k == TEndpoint
    || k == TString || k == TData || k == TDictionary || k == TArray
  }

  /** `xpc_equal`, with the string branch as a parameter: `selfCompare`
      selects the source as written, which compares the first string with
      itself. Different types are unequal before anything else is looked
      at; dictionaries compare counts, then look every pair of the first up
      in the second (stopping at the first missing or unequal one), then
      check every key of the second is in the first; arrays compare counts
      and then elements pairwise, stopping at the first unequal pair. */
  function EqualBy(selfCompare: bool, a: Value, b: Value): (r: Outcome<bool>)
    ensures r == Ret(true) ==> KindOf(a) == KindOf(b)
    ensures r == Ret(true) && a.Dictionary? ==>
      |a.entries| == |b.entries| && KeysPresent(b.entries, a.entries)
    ensures r == Ret(true) && a.Array? ==> |a.items| == |b.items|
    decreases a, 1
  {
    if KindOf(a) != KindOf(b) then Ret(false)
    else match a
      case Bool(x) => Ret(x == b.b)
      case Int64(x) => Ret(x == b.i)
      case Date(x) => Ret(x == b.i)
      case UInt64(x) => Ret(x == b.u)
      case Endpoint(p) => Ret(p == b.port)
      case String(s) => Ret(selfCompare || s == b.str)
      case Data(d) => Ret(|d| == |b.bytes| && d == b.bytes)
      case Dictionary(es) =>
        if |es| != |b.entries| then Ret(false)
        else (match PairsMatch(selfCompare, a, b, 0)
          case Abort => Abort
          case Ret(ok) => Ret(ok && KeysPresent(b.entries, es)))
      case Array(xs) =>
        if |xs| != |b.items| then Ret(false)
        else ItemsMatch(selfCompare, a, b, 0)
      case _ => Abort
  }

  /** The first loop over the pairs of `a` from position `i`. */
  function PairsMatch(selfCompare: bool, a: Value, b: Value, i: nat): Outcome<bool>
    requires a.Dictionary? && b.Dictionary? && i <= |a.entries|
    decreases a, 0, |a.entries| - i
  {
    if i == |a.entries| then Ret(true)
    else match Lookup(b.entries, a.entries[i].key)
      case None => Ret(false)
      case Some(v2) =>
        (match EqualBy(selfCompare, a.entries[i].value, v2)
        case Abort => Abort
        case Ret(ok) => if ok then PairsMatch(selfCompare, a, b, i + 1) else Ret(false))
  }

  /** The last loop: every key of `es2` is present in `es1`. */
  predicate KeysPresent(es2: seq<Entry>, es1: seq<Entry>) {
    forall j :: 0 <= j < |es2| ==> Lookup(es1, es2[j].key).Some?
  }

  /** `xpc_array_apply` over the elements of `a` from position `i`. */
  function ItemsMatch(selfCompare: bool, a: Value, b: Value, i: nat): Outcome<bool>
    requires a.Array? && b.Array? && i <= |a.items| && |a.items| == |b.items|
    decreases a, 0, |a.items| - i
  {
    if i == |a.items| then Ret(true)
    else match EqualBy(selfCompare, a.items[i], b.items[i])
      case Abort => Abort
      case Ret(ok) => if ok then ItemsMatch(selfCompare, a, b, i + 1) else Ret(false)
  }

  /** `xpc_equal` as written. */
  function EqualAsWritten(a: Value, b: Value): (r: Outcome<bool>)
    ensures KindOf(a) != KindOf(b) ==> r == Ret(false)
    ensures a.String? && b.String? ==> r == Ret(true)
  {
    EqualBy(true, a, b)
  }

  /** `xpc_equal` with the string branch comparing the two strings. */
  function Equal(a: Value, b: Value): (r: Outcome<bool>)
    ensures KindOf(a) != KindOf(b) ==> r == Ret(false)
    ensures a.String? && b.String? ==> r == Ret(a.str == b.str)
  {
    EqualBy(false, a, b)
  }

  /** As written, any two strings are equal. */
  lemma EqualAsWrittenAllStringsEqual(s: string, t: string)
    ensures EqualAsWritten(String(s), String(t)) == Ret(true)
    ensures Equal(String(s), String(t)) == Ret(s == t)
  {
  }

  lemma EqualAsWrittenCounterexample()
    ensures EqualAsWritten(String("a"), String("b")) == Ret(true)
    ensures Equal(String("a"), String("b")) == Ret(false)
  {
  }

  /** Values `xpc_equal` never aborts on when compared with themselves:
      every node has a type it handles and dictionaries keep unique keys. */
  predicate Comparable(v: Value)
    decreases v
  {
    match v
    case Dictionary(es) =>
      UniqueKeys(es) && forall j :: 0 <= j < |es| ==> Comparable(es[j].value)
    case Array(xs) => forall j :: 0 <= j < |xs| ==> Comparable(xs[j])
    case _ => EqualHandles(KindOf(v))
  }

  /** Objects of different types are never equal. */
  lemma EqualDifferentKinds(a: Value, b: Value)
    requires KindOf(a) != KindOf(b)
    ensures Equal(a, b) == Ret(false) && EqualAsWritten(a, b) == Ret(false)
  {
  }

  /** Two values of the same type outside the handled ones abort. */
  lemma EqualUnhandledAborts(a: Value, b: Value)
    requires KindOf(a) == KindOf(b) && !EqualHandles(KindOf(a))
    ensures Equal(a, b) == Abort
  {
  }

  /** The corrected comparison is reflexive on comparable values. */
  lemma {:induction false} EqualReflexive(v: Value)
    requires Comparable(v)
    ensures Equal(v, v) == Ret(true)
    decreases v, 1
  {
    match v
    case Dictionary(es) =>
      PairsMatchSelf(v, v.entries, 0);
      forall j | 0 <= j < |es|
        ensures Lookup(es, es[j].key).Some?
      {
        LookupFinds(es, j);
      }
    case Array(xs) =>
      ItemsMatchSelf(v, 0);
    case _ =>
  }

  /** The first dictionary loop succeeds when the second dictionary holds
      exactly the pairs of the first, in any order. */
  lemma {:induction false} PairsMatchSelf(a: Value, es2: seq<Entry>, i: nat)
    requires a.Dictionary? && Comparable(a) && i <= |a.entries|
    requires UniqueKeys(es2) && multiset(es2) == multiset(a.entries)
    ensures PairsMatch(false, a, Dictionary(es2), i) == Ret(true)
    decreases a, 0, |a.entries| - i
  {
    if i < |a.entries| {
      var e := a.entries[i];
      assert e in multiset(a.entries);
      var j := MemberIndex(e, es2);
      LookupFinds(es2, j);
      EqualReflexive(e.value);
      PairsMatchSelf(a, es2, i + 1);
    }
  }

  lemma {:induction false} ItemsMatchSelf(a: Value, i: nat)
    requires a.Array? && Comparable(a) && i <= |a.items|
    ensures ItemsMatch(false, a, a, i) == Ret(true)
    decreases a, 0, |a.items| - i
  {
    if i < |a.items| {
      EqualReflexive(a.items[i]);
      ItemsMatchSelf(a, i + 1);
    }
  }

  /** Dictionary comparison ignores insertion order: a dictionary equals any
      reordering of its pairs. */
  lemma EqualIgnoresOrder(es: seq<Entry>, es2: seq<Entry>)
    requires Comparable(Dictionary(es)) && UniqueKeys(es2) && multiset(es2) == multiset(es)
    ensures Equal(Dictionary(es), Dictionary(es2)) == Ret(true)
  {
    var a := Dictionary(es);
    assert |es| == |multiset(es)| == |multiset(es2)| == |es2|;
    PairsMatchSelf(a, es2, 0);
    forall j | 0 <= j < |es2|
      ensures Lookup(es, es2[j].key).Some?
    {
      assert es2[j] in multiset(es2);
      var m := MemberIndex(es2[j], es);
      LookupFinds(es, m);
    }
  }

  // ---------------------------------------------------------------------
  // Hashing
  // ---------------------------------------------------------------------

  /** One step of djb2 in a 64-bit `size_t`: shift left by five, add the
      hash back in, add the byte, all wrapping at 2^64. */
  function Djb2Step(h: bv64, b: byte): bv64 {
    (h << 5) + h + b as bv64
  }

  /** djb2 as `xpc_data_hash` computes it: seed 5381, taking the bytes from
      the last to the first. */
  function DataHash(data: seq<byte>): bv64 {
    if data == [] then 5381 else Djb2Step(DataHash(data[1..]), data[0])
  }

  /** The loop of `xpc_data_hash`, which walks `length` down to zero. */
  method DataHashLoop(data: seq<byte>) returns (h: bv64)
    ensures h == DataHash(data)
  {
    h := 5381;
    var length := |data|;
    while length > 0
      invariant 0 <= length <= |data|
      invariant h == DataHash(data[length..])
    {
      length := length - 1;
      assert data[length..][1..] == data[length + 1..];
      h := Djb2Step(h, data[length]);
    }
    assert data[0..] == data;
  }

  function Xor(a: bv64, b: bv64): bv64 {
    a ^ b
  }

  lemma XorAssoc(x: bv64, y: bv64, z: bv64)
    ensures x ^ (y ^ z) == (x ^ y) ^ z
  {
  }

  lemma XorComm(x: bv64, y: bv64)
    ensures x ^ y == y ^ x
  {
  }

  /** XOR with unit 0 is a commutative monoid, which is what lets
      `xpc_hash` combine the hashes of a container in any order. */
  lemma XorMonoid()
    ensures CommutativeMonoid(Xor, 0)
  {
    forall x: bv64, y: bv64 ensures Xor(x, y) == Xor(y, x) {
      XorComm(x, y);
    }
    forall x: bv64, y: bv64, z: bv64 ensures Xor(x, Xor(y, z)) == Xor(Xor(x, y), z) {
      XorAssoc(x, y, z);
    }
  }

  /** `xpc_hash`. Booleans, integers, dates and endpoints hash to whatever
      reading the payload union as a port yields, which depends on memory
      layout and is a parameter here. A string or blob hashes its bytes; a
      dictionary XORs the hashes of its pairs; an array XORs the hashes of
      its elements; every other type hashes to 1. */
  function Hash(v: Value, scalarHash: Value -> bv64): bv64
    decreases v
  {
    match v
    case Bool(_) => scalarHash(v)
    case Int64(_) => scalarHash(v)
    case UInt64(_) => scalarHash(v)
    case Date(_) => scalarHash(v)
    case Endpoint(_) => scalarHash(v)
    case String(s) => DataHash(StringBytes(s))
    case Data(d) => DataHash(d)
    case Dictionary(es) =>
      Fold(MapSeq(es, (e: Entry) requires e in es => EntryHash(e, scalarHash)), Xor, 0)
    case Array(xs) =>
      Fold(MapSeq(xs, (x: Value) requires x in xs => Hash(x, scalarHash)), Xor, 0)
    case _ => 1
  }

  /** The hash of one pair: the key's hash XOR the value's hash. */
  function EntryHash(e: Entry, scalarHash: Value -> bv64): bv64
    decreases e, 0
  {
    Xor(DataHash(StringBytes(e.key)), Hash(e.value, scalarHash))
  }

  /** XOR-folding forgets the order of the folded hashes. */
  lemma XorFoldPermutation(a: seq<bv64>, b: seq<bv64>)
    requires multiset(a) == multiset(b)
    ensures Fold(a, Xor, 0) == Fold(b, Xor, 0)
  {
    XorMonoid();
    FoldPermutation(a, b, Xor, 0);
  }

  function EntryHasher(scalarHash: Value -> bv64): Entry -> bv64 {
    e => EntryHash(e, scalarHash)
  }

  function ValueHasher(scalarHash: Value -> bv64): Value -> bv64 {
    x => Hash(x, scalarHash)
  }

  lemma HashDictionaryIsFold(es: seq<Entry>, scalarHash: Value -> bv64)
    ensures Hash(Dictionary(es), scalarHash) == Fold(MapSeq(es, EntryHasher(scalarHash)), Xor, 0)
  {
    var f := (e: Entry) requires e in es => EntryHash(e, scalarHash);
    assert MapSeq(es, f) == MapSeq(es, EntryHasher(scalarHash));
  }

  lemma HashArrayIsFold(xs: seq<Value>, scalarHash: Value -> bv64)
    ensures Hash(Array(xs), scalarHash) == Fold(MapSeq(xs, ValueHasher(scalarHash)), Xor, 0)
  {
    var f := (x: Value) requires x in xs => Hash(x, scalarHash);
    assert MapSeq(xs, f) == MapSeq(xs, ValueHasher(scalarHash));
  }

  /** The dictionary hash does not depend on the order of the pairs, so two
      dictionaries holding the same pairs hash alike. */
  lemma HashDictionaryIgnoresOrder(es: seq<Entry>, es2: seq<Entry>, scalarHash: Value -> bv64)
    requires multiset(es) == multiset(es2)
    ensures Hash(Dictionary(es), scalarHash) == Hash(Dictionary(es2), scalarHash)
  {
    HashDictionaryIsFold(es, scalarHash);
    HashDictionaryIsFold(es2, scalarHash);
    MapSeqPermutation(es, es2, EntryHasher(scalarHash));
    XorFoldPermutation(MapSeq(es, EntryHasher(scalarHash)), MapSeq(es2, EntryHasher(scalarHash)));
  }

  /** The array hash does not depend on the order of the elements. */
  lemma HashArrayIgnoresOrder(xs: seq<Value>, ys: seq<Value>, scalarHash: Value -> bv64)
    requires multiset(xs) == multiset(ys)
    ensures Hash(Array(xs), scalarHash) == Hash(Array(ys), scalarHash)
  {
    HashArrayIsFold(xs, scalarHash);
    HashArrayIsFold(ys, scalarHash);
    MapSeqPermutation(xs, ys, ValueHasher(scalarHash));
    XorFoldPermutation(MapSeq(xs, ValueHasher(scalarHash)), MapSeq(ys, ValueHasher(scalarHash)));
  }

  /** Types `xpc_hash` does not implement hash to the constant 1 rather than
      aborting. */
  lemma HashUnhandledIsOne(v: Value, scalarHash: Value -> bv64)
    requires v.Null? || v.Double? || v.Uuid? || v.Fd? || v.Connection? || v.Shmem? || v.Error?
    ensures Hash(v, scalarHash) == 1
  {
  }
}
