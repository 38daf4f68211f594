/** The translation between XPC objects and nvlists (`xpc2nv`,
    `xpc2nv_primitive` and `nv2xpc` in xpc_dictionary.c): what a message
    becomes on the wire and what comes back out of it. */
module XpcNv {
  import opened Common
  import opened XpcType
  import opened XpcDictionary
  import Nv = NvList
  import Codec = NvCodec

  /** `NVLIST_XPC_TYPE` and `NVLIST_PORT_INDEX`: the keys of the inner
      dictionary that stands for an object carried by reference or by a
      private encoding. */
  const ObjectTypeKey: string := ReservedPrefix + "object type"
  const PortIndexKey: string := ReservedPrefix + "port index"

  lemma WrapperKeysReserved()
    ensures Reserved(ObjectTypeKey) && Reserved(PortIndexKey)
    ensures ObjectTypeKey != PortIndexKey && ObjectTypeKey != "date" && ObjectTypeKey != "double"
  {
    assert ObjectTypeKey[..|ReservedPrefix|] == ReservedPrefix;
    assert PortIndexKey[..|ReservedPrefix|] == ReservedPrefix;
    assert ObjectTypeKey[|ReservedPrefix|] != PortIndexKey[|ReservedPrefix|];
  }

  // ---------------------------------------------------------------------
  // Scalars
  // ---------------------------------------------------------------------

  /** Reading an `int64_t` back out of a pair's `uint64_t` slot. */
  function Signed(u: uint64): int64 {
    if u < 0x8000_0000_0000_0000 then u else u - 0x1_0000_0000_0000_0000
  }

  /** Storing an `int64_t` in a pair's `uint64_t` slot: two's complement. */
  function Unsigned(i: int64): (u: uint64)
    ensures Signed(u) == i
    ensures i >= 0 ==> u == i
  {
    if i < 0 then i + 0x1_0000_0000_0000_0000 else i
  }

  function Digit(d: nat): (c: char)
    requires d < 10
  {
    ('0' as int + d) as char
  }

  /** `asprintf(&key, "%ld", index)`: the decimal digits of the index. */
  function Decimal(n: nat): (s: string)
    ensures |s| >= 1
    ensures n >= 10 <==> |s| >= 2
    ensures forall c :: c in s ==> '0' <= c <= '9'
  {
    if n < 10 then [Digit(n)] else Decimal(n / 10) + [Digit(n % 10)]
  }

  /** Distinct indices give distinct keys, so an array's pairs never clash. */
  lemma {:induction false} DecimalInjective(a: nat, b: nat)
    requires Decimal(a) == Decimal(b)
    ensures a == b
  {
    if a >= 10 && b >= 10 {
      var sa, sb := Decimal(a), Decimal(b);
      assert sa[|sa| - 1] == Digit(a % 10) && sb[|sb| - 1] == Digit(b % 10);
      assert sa[..|sa| - 1] == Decimal(a / 10) && sb[..|sb| - 1] == Decimal(b / 10);
      DecimalInjective(a / 10, b / 10);
    } else if a < 10 && b < 10 {
      assert Decimal(a)[0] == Digit(a) && Decimal(b)[0] == Digit(b);
    }
  }

  // ---------------------------------------------------------------------
  // xpc2nv
  // ---------------------------------------------------------------------

  /** `nvlist_create_dictionary(0)` and `nvlist_create_array(0)`: empty,
      no error, names compared case-sensitively. */
  function EmptyList(ty: Nv.uint8): Nv.Nvl {
    Nv.Nvl(0, false, ty, [])
  }

  /** The inner dictionary `xpc2nv_primitive` builds for a connection,
      endpoint, file port, date or double: the tag string under
      `NVLIST_XPC_TYPE` followed by the payload pair. Its two names differ,
      so the two insertions append both. */
  function Wrapper(tag: string, key: string, ty: Nv.uint8, d: Nv.Data): Nv.Nvl {
    EmptyList(Nv.NvTypeNvlistDictionary).(pairs := [Nv.NvPair(Nv.NvTypeString, ObjectTypeKey, Nv.StringValue(tag)),
                                                    Nv.NvPair(ty, key, d)])
  }

  function PortWrapper(tag: string, id: int64): Nv.Nvl {
    Wrapper(tag, PortIndexKey, Nv.NvTypeInt64, Nv.NumberValue(Unsigned(id)))
  }

  /** `xpc2nv`: a dictionary becomes an nvlist dictionary with one pair per
      entry in order, an array becomes an nvlist array whose pairs are named
      by decimal index; any other root aborts. `ser` is the port serializer
      block. */
  function ToNv(v: Value, ser: Port -> int64): (r: Outcome<Nv.Nvl>)
    ensures !v.Dictionary? && !v.Array? ==> r.Abort?
    decreases v, 2
  {
    match v
    case Dictionary(_) => EntriesToNv(v, 0, EmptyList(Nv.NvTypeNvlistDictionary), ser)
    case Array(_) => ItemsToNv(v, 0, EmptyList(Nv.NvTypeNvlistArray), ser)
    case _ => Abort
  }

  /** `xpc_dictionary_apply` with `xpc2nv_primitive` from entry `i` on. */
  function EntriesToNv(v: Value, i: nat, acc: Nv.Nvl, ser: Port -> int64): Outcome<Nv.Nvl>
    requires v.Dictionary? && i <= |v.entries|
    decreases v, 1, |v.entries| - i
  {
    if i == |v.entries| then Ret(acc)
    else match PairFor(v.entries[i].key, v.entries[i].value, ser)
      case Abort => Abort
      case Ret(p) => EntriesToNv(v, i + 1, Nv.Moved(acc, p), ser)
  }

  /** `xpc_array_apply` with `xpc2nv_primitive` from element `i` on. */
  function ItemsToNv(v: Value, i: nat, acc: Nv.Nvl, ser: Port -> int64): Outcome<Nv.Nvl>
    requires v.Array? && i <= |v.items|
    decreases v, 1, |v.items| - i
  {
    if i == |v.items| then Ret(acc)
    else match PairFor(Decimal(i), v.items[i], ser)
      case Abort => Abort
      case Ret(p) => ItemsToNv(v, i + 1, Nv.Moved(acc, p), ser)
  }

  /** `xpc2nv_primitive`: the pair added for `x` under `key`. Shared memory,
      errors and every type the chain of tests does not list (null) abort. */
  function PairFor(key: string, x: Value, ser: Port -> int64): (r: Outcome<Nv.NvPair>)
    ensures r.Ret? ==> r.value.name == key
    ensures x.Shmem? || x.Error? || x.Null? ==> r.Abort?
    decreases x, 3
  {
    match x
    case Dictionary(_) =>
      (match ToNv(x, ser)
       case Abort => Abort
       case Ret(c) => Ret(Nv.NvPair(Nv.NvTypeNvlistDictionary, key, Nv.ListValue(c))))
    case Array(_) =>
      (match ToNv(x, ser)
       case Abort => Abort
       case Ret(c) => Ret(Nv.NvPair(Nv.NvTypeNvlistArray, key, Nv.ListValue(c))))
    case Bool(b) => Ret(Nv.NvPair(Nv.NvTypeBool, key, Nv.BoolValue(b)))
    case Connection(p) => Ret(Nv.NvPair(Nv.NvTypeNvlist, key, Nv.ListValue(PortWrapper("connection", ser(p)))))
    case Endpoint(p) => Ret(Nv.NvPair(Nv.NvTypeNvlist, key, Nv.ListValue(PortWrapper("endpoint", ser(p)))))
    case Int64(i) => Ret(Nv.NvPair(Nv.NvTypeInt64, key, Nv.NumberValue(Unsigned(i))))
    case UInt64(u) => Ret(Nv.NvPair(Nv.NvTypeUInt64, key, Nv.NumberValue(u)))
    case Date(i) =>
      Ret(Nv.NvPair(Nv.NvTypeNvlist, key, Nv.ListValue(Wrapper("date", "date", Nv.NvTypeInt64, Nv.NumberValue(Unsigned(i))))))
    case Data(b) => Ret(Nv.NvPair(Nv.NvTypeBinary, key, Nv.BinaryValue(b)))
    case String(s) => Ret(Nv.NvPair(Nv.NvTypeString, key, Nv.StringValue(s)))
    case Uuid(u) => Ret(Nv.NvPair(Nv.NvTypeUuid, key, Nv.BinaryValue(u)))
    case Fd(p) => Ret(Nv.NvPair(Nv.NvTypeNvlist, key, Nv.ListValue(PortWrapper("fileport", ser(p)))))
    case Shmem => Abort
    case Error => Abort
    case Double(bits) =>
      Ret(Nv.NvPair(Nv.NvTypeNvlist, key, Nv.ListValue(Wrapper("double", "double", Nv.NvTypeBinary, Nv.BinaryValue(Codec.Le64(bits))))))
    case Null => Abort
  }

  /** A value `xpc2nv_primitive` translates on its own: not a container,
      and not one of the types it refuses. */
  predicate Flat(x: Value) {
    !(x.Dictionary? || x.Array? || x.Shmem? || x.Error? || x.Null?)
  }

  /** `xpc2nv` succeeds on every dictionary of flat values. */
  lemma {:induction false} FlatEntriesTranslate(v: Value, i: nat, acc: Nv.Nvl, ser: Port -> int64)
    requires v.Dictionary? && i <= |v.entries|
    requires forall j :: i <= j < |v.entries| ==> Flat(v.entries[j].value)
    ensures EntriesToNv(v, i, acc, ser).Ret?
    decreases |v.entries| - i
  {
    if i < |v.entries| {
      var p := PairFor(v.entries[i].key, v.entries[i].value, ser);
      assert p.Ret?;
      FlatEntriesTranslate(v, i + 1, Nv.Moved(acc, p.value), ser);
    }
  }

  /** A value holding no connection, endpoint or file port, at any depth:
      `xpc2nv` never calls the port serializer on it. */
  predicate PortFree(v: Value)
    decreases v
  {
    match v
    case Connection(_) => false
    case Endpoint(_) => false
    case Fd(_) => false
    case Dictionary(es) => forall j :: 0 <= j < |es| ==> PortFree(es[j].value)
    case Array(xs) => forall j :: 0 <= j < |xs| ==> PortFree(xs[j])
    case _ => true
  }

  /** The port serializer is only consulted for ports: on a port-free value
      any two serializers give the same translation. */
  lemma {:induction false} PortFreeIgnoresSerializer(v: Value, s1: Port -> int64, s2: Port -> int64)
    requires PortFree(v)
    ensures ToNv(v, s1) == ToNv(v, s2)
    decreases v, 2
  {
    match v
    case Dictionary(_) => EntriesIgnoreSerializer(v, 0, EmptyList(Nv.NvTypeNvlistDictionary), s1, s2);
    case Array(_) => ItemsIgnoreSerializer(v, 0, EmptyList(Nv.NvTypeNvlistArray), s1, s2);
    case _ =>
  }

  lemma {:induction false} EntriesIgnoreSerializer(v: Value, i: nat, acc: Nv.Nvl, s1: Port -> int64, s2: Port -> int64)
    requires v.Dictionary? && i <= |v.entries| && PortFree(v)
    ensures EntriesToNv(v, i, acc, s1) == EntriesToNv(v, i, acc, s2)
    decreases v, 1, |v.entries| - i
  {
    if i < |v.entries| {
      PairIgnoresSerializer(v.entries[i].key, v.entries[i].value, s1, s2);
      var p := PairFor(v.entries[i].key, v.entries[i].value, s1);
      if p.Ret? {
        EntriesIgnoreSerializer(v, i + 1, Nv.Moved(acc, p.value), s1, s2);
      }
    }
  }

  lemma {:induction false} ItemsIgnoreSerializer(v: Value, i: nat, acc: Nv.Nvl, s1: Port -> int64, s2: Port -> int64)
    requires v.Array? && i <= |v.items| && PortFree(v)
    ensures ItemsToNv(v, i, acc, s1) == ItemsToNv(v, i, acc, s2)
    decreases v, 1, |v.items| - i
  {
    if i < |v.items| {
      PairIgnoresSerializer(Decimal(i), v.items[i], s1, s2);
      var p := PairFor(Decimal(i), v.items[i], s1);
      if p.Ret? {
        ItemsIgnoreSerializer(v, i + 1, Nv.Moved(acc, p.value), s1, s2);
      }
    }
  }

  lemma {:induction false} PairIgnoresSerializer(key: string, x: Value, s1: Port -> int64, s2: Port -> int64)
    requires PortFree(x)
    ensures PairFor(key, x, s1) == PairFor(key, x, s2)
    decreases x, 3
  {
    match x
    case Dictionary(_) => PortFreeIgnoresSerializer(x, s1, s2);
    case Array(_) => PortFreeIgnoresSerializer(x, s1, s2);
    case _ =>
  }

  // ---------------------------------------------------------------------
  // What xpc2nv builds
  // ---------------------------------------------------------------------

  /** The shape of every list `xpc2nv` builds: unique names, values that fit
      their types, only types the packer knows and no descriptors, nested
      lists of the same shape. Unlike `Nv.ValidList` it says nothing about
      the error fields: a duplicate key sets one. */
  predicate FormedPairs(ignoreCase: bool, ps: seq<Nv.NvPair>)
    decreases ps, 1
  {
    Nv.UniqueNames(ignoreCase, ps) && forall i :: 0 <= i < |ps| ==> FormedPair(ps[i])
  }

  predicate FormedPair(p: Nv.NvPair)
    decreases p, 0
  {
    Nv.DataFits(p.ty, p.data) && Codec.PackedType(p.ty) && !p.data.DescriptorValue?
    && (p.data.ListValue? ==> FormedPairs(p.data.list.ignoreCase, p.data.list.pairs))
  }

  predicate Formed(l: Nv.Nvl) {
    FormedPairs(l.ignoreCase, l.pairs)
  }

  /** No list, the root or a nested one, has its error set: what
      `nvlist_size` asserts of every list it walks. */
  predicate ErrorFree(l: Nv.Nvl)
    decreases l, 1
  {
    l.error == 0 && forall i :: 0 <= i < |l.pairs| ==> ErrorFreeData(l.pairs[i].data)
  }

  predicate ErrorFreeData(d: Nv.Data)
    decreases d, 0
  {
    d.ListValue? ==> ErrorFree(d.list)
  }

  /** `nvlist_move_nvpair` keeps a list formed. */
  lemma MovedFormed(l: Nv.Nvl, p: Nv.NvPair)
    requires Formed(l) && FormedPair(p)
    ensures Formed(Nv.Moved(l, p))
  {
    if l.error == 0 && !Nv.Exists(l, p.name) {
      var ps := l.pairs + [p];
      Nv.ExistsIff(l, p.name);
      forall i, j | 0 <= i < j < |ps|
        ensures !Nv.NameMatches(l.ignoreCase, ps[i].name, ps[j].name)
      {
        if j == |l.pairs| {
          Nv.NameMatchesSymmetric(l.ignoreCase, ps[i].name, p.name);
        }
      }
    }
  }

  lemma WrapperFormed(tag: string, key: string, ty: Nv.uint8, d: Nv.Data)
    requires key != ObjectTypeKey && Nv.DataFits(ty, d) && Codec.PackedType(ty) && !d.DescriptorValue? && !d.ListValue?
    ensures Formed(Wrapper(tag, key, ty, d)) && ErrorFree(Wrapper(tag, key, ty, d)) && Nv.Height(Wrapper(tag, key, ty, d)) == 0
  {
    var w := Wrapper(tag, key, ty, d);
    assert FormedPair(w.pairs[0]) && FormedPair(w.pairs[1]);
    assert ErrorFreeData(w.pairs[0].data) && ErrorFreeData(w.pairs[1].data);
    assert Nv.HeightFrom(w, 2) == 0;
    assert Nv.HeightFrom(w, 1) == 0;
  }

  /** Everything `xpc2nv` returns is formed. */
  lemma {:induction false} ToNvFormed(v: Value, ser: Port -> int64)
    requires ToNv(v, ser).Ret?
    ensures Formed(ToNv(v, ser).value)
    decreases v, 2
  {
    match v
    case Dictionary(_) => EntriesFormed(v, 0, EmptyList(Nv.NvTypeNvlistDictionary), ser);
    case Array(_) => ItemsFormed(v, 0, EmptyList(Nv.NvTypeNvlistArray), ser);
  }

  lemma {:induction false} EntriesFormed(v: Value, i: nat, acc: Nv.Nvl, ser: Port -> int64)
    requires v.Dictionary? && i <= |v.entries| && Formed(acc)
    requires EntriesToNv(v, i, acc, ser).Ret?
    ensures Formed(EntriesToNv(v, i, acc, ser).value)
    decreases v, 1, |v.entries| - i
  {
    if i < |v.entries| {
      var p := PairFor(v.entries[i].key, v.entries[i].value, ser);
      PairFormed(v.entries[i].key, v.entries[i].value, ser);
      MovedFormed(acc, p.value);
      EntriesFormed(v, i + 1, Nv.Moved(acc, p.value), ser);
    }
  }

  lemma {:induction false} ItemsFormed(v: Value, i: nat, acc: Nv.Nvl, ser: Port -> int64)
    requires v.Array? && i <= |v.items| && Formed(acc)
    requires ItemsToNv(v, i, acc, ser).Ret?
    ensures Formed(ItemsToNv(v, i, acc, ser).value)
    decreases v, 1, |v.items| - i
  {
    if i < |v.items| {
      var p := PairFor(Decimal(i), v.items[i], ser);
      PairFormed(Decimal(i), v.items[i], ser);
      MovedFormed(acc, p.value);
      ItemsFormed(v, i + 1, Nv.Moved(acc, p.value), ser);
    }
  }

  lemma {:induction false} PairFormed(key: string, x: Value, ser: Port -> int64)
    requires PairFor(key, x, ser).Ret?
    ensures FormedPair(PairFor(key, x, ser).value)
    decreases x, 3
  {
    WrapperKeysReserved();
    match x
    case Dictionary(_) => ToNvFormed(x, ser);
    case Array(_) => ToNvFormed(x, ser);
    case Connection(p) => WrapperFormed("connection", PortIndexKey, Nv.NvTypeInt64, Nv.NumberValue(Unsigned(ser(p))));
    case Endpoint(p) => WrapperFormed("endpoint", PortIndexKey, Nv.NvTypeInt64, Nv.NumberValue(Unsigned(ser(p))));
    case Fd(p) => WrapperFormed("fileport", PortIndexKey, Nv.NvTypeInt64, Nv.NumberValue(Unsigned(ser(p))));
    case Date(i) => WrapperFormed("date", "date", Nv.NvTypeInt64, Nv.NumberValue(Unsigned(i)));
    case Double(bits) => WrapperFormed("double", "double", Nv.NvTypeBinary, Nv.BinaryValue(Codec.Le64(bits)));
    case _ =>
  }

  /** A formed list with no error anywhere is one the packer accepts: well
      formed, of packed types only, without descriptors. */
  lemma {:induction false} FormedPacks(l: Nv.Nvl)
    requires Formed(l) && ErrorFree(l)
    ensures Nv.ValidList(l) && Codec.PackedTypes(l) && Nv.Descriptors(l) == 0
    decreases l, 1
  {
    forall i | 0 <= i < |l.pairs|
      ensures Nv.ValidPair(l.pairs[i])
    {
      SubListPacks(l, i);
    }
    FormedPacksFrom(l, 0);
  }

  lemma {:induction false} FormedPacksFrom(l: Nv.Nvl, i: nat)
    requires Formed(l) && ErrorFree(l) && i <= |l.pairs|
    ensures Codec.PackedTypesFrom(l, i) && Nv.DescriptorsFrom(l, i) == 0
    decreases l, 0, |l.pairs| - i
  {
    if i < |l.pairs| {
      SubListPacks(l, i);
      FormedPacksFrom(l, i + 1);
    }
  }

  lemma {:induction false} SubListPacks(l: Nv.Nvl, i: nat)
    requires Formed(l) && ErrorFree(l) && i < |l.pairs|
    ensures Nv.ValidPair(l.pairs[i]) && Codec.PackedType(l.pairs[i].ty) && !l.pairs[i].data.DescriptorValue?
    ensures l.pairs[i].data.ListValue? ==>
      Codec.PackedTypes(l.pairs[i].data.list) && Nv.Descriptors(l.pairs[i].data.list) == 0
    decreases l, 0, 0
  {
    var p := l.pairs[i];
    assert FormedPair(p) && ErrorFreeData(p.data);
    if p.data.ListValue? {
      FormedPacks(p.data.list);
    }
  }

  // ---------------------------------------------------------------------
  // nv2xpc
  // ---------------------------------------------------------------------

  /** `nvlist_get_<type>(nv, name)`: the data of the first pair of that
      type whose name matches; a missing pair aborts. */
  function GetTyped(nv: Nv.Nvl, ty: Nv.uint8, name: string): (r: Outcome<Nv.Data>)
    ensures r.Ret? <==> Nv.FindIndex(nv, ty, name) < |nv.pairs|
  {
    var j := Nv.FindIndex(nv, ty, name);
    if j < |nv.pairs| then Ret(nv.pairs[j].data) else Abort
  }

  /** `nv2xpc`, as written (`fixed` false) and corrected (`fixed` true).
      The list must carry no error and be a dictionary or an array; a
      dictionary holding `NVLIST_XPC_TYPE` stands for one object; otherwise
      the pairs are converted in order. `deser` is the port deserializer
      block. */
  function FromNvBy(fixed: bool, nv: Nv.Nvl, deser: int64 -> Port): (r: Outcome<Value>)
    decreases nv, 2
  {
    if nv.error != 0 || (nv.ty != Nv.NvTypeNvlistDictionary && nv.ty != Nv.NvTypeNvlistArray) then Abort
    else if nv.ty == Nv.NvTypeNvlistDictionary && Nv.Exists(nv, ObjectTypeKey) then Unwrap(fixed, nv, deser)
    else PairsFromNv(fixed, nv, 0, if nv.ty == Nv.NvTypeNvlistDictionary then Dictionary([]) else Array([]), deser)
  }

  function FromNv(nv: Nv.Nvl, deser: int64 -> Port): Outcome<Value> {
    FromNvBy(false, nv, deser)
  }

  function FromNvFixed(nv: Nv.Nvl, deser: int64 -> Port): Outcome<Value> {
    FromNvBy(true, nv, deser)
  }

  /** The object an inner dictionary stands for. As written, a double is
      read from the pair named "date", which the writer never produces; the
      corrected reading uses "double", the name the writer uses. */
  function Unwrap(fixed: bool, nv: Nv.Nvl, deser: int64 -> Port): Outcome<Value> {
    match GetTyped(nv, Nv.NvTypeString, ObjectTypeKey)
    case Abort => Abort
    case Ret(d) =>
      if !d.StringValue? then Abort
      else if d.s == "connection" || d.s == "endpoint" || d.s == "fileport" then
        (match GetTyped(nv, Nv.NvTypeInt64, PortIndexKey)
         case Ret(NumberValue(n)) =>
           var p := deser(Signed(n));
           Ret(if d.s == "connection" then Connection(p) else if d.s == "endpoint" then Endpoint(p) else Fd(p))
         case _ => Abort)
      else if d.s == "date" then
        (match GetTyped(nv, Nv.NvTypeInt64, "date")
         case Ret(NumberValue(n)) => Ret(Date(Signed(n)))
         case _ => Abort)
      else if d.s == "double" then
        (match GetTyped(nv, Nv.NvTypeBinary, if fixed then "double" else "date")
         case Ret(BinaryValue(b)) =>
           if |b| == 8 then
             Codec.LeValueBound(b);
             Codec.Pow256Eight();
             Ret(Double(Codec.LeValue(b)))
           else Abort
         case _ => Abort)
      else Abort
  }

  /** The loop over `nvlist_next` from pair `i` on, with the container
      built so far: a dictionary inserts through `xpc_dictionary_set_value`
      (so a reserved name aborts), an array appends. */
  function PairsFromNv(fixed: bool, nv: Nv.Nvl, i: nat, acc: Value, deser: int64 -> Port): Outcome<Value>
    requires i <= |nv.pairs|
    requires nv.ty == Nv.NvTypeNvlistDictionary ==> acc.Dictionary?
    requires nv.ty != Nv.NvTypeNvlistDictionary ==> acc.Array?
    decreases nv, 1, |nv.pairs| - i
  {
    if i == |nv.pairs| then Ret(acc)
    else match ItemFromPair(fixed, nv, i, deser)
      case Abort => Abort
      case Ret(None) => PairsFromNv(fixed, nv, i + 1, acc, deser)
      case Ret(Some(x)) =>
        if nv.ty == Nv.NvTypeNvlistDictionary then
          if Reserved(nv.pairs[i].name) then Abort
          else PairsFromNv(fixed, nv, i + 1, Dictionary(Insert(acc.entries, nv.pairs[i].name, x)), deser)
        else PairsFromNv(fixed, nv, i + 1, Array(acc.items + [x]), deser)
  }

  /** The object made for pair `i`, or None when the switch skips it. Each
      value is read back by name with `nvlist_get_<type>`. As written a
      UUID falls through into the nvlist-array case, whose lookup aborts,
      and binary pairs and `NV_TYPE_NVLIST` pairs (the inner dictionaries)
      are skipped; the corrected switch converts all three. */
  function ItemFromPair(fixed: bool, nv: Nv.Nvl, i: nat, deser: int64 -> Port): (r: Outcome<Option<Value>>)
    requires i < |nv.pairs|
    decreases nv, 1, 0
  {
    var ty, name := nv.pairs[i].ty, nv.pairs[i].name;
    if ty == Nv.NvTypeBool then
      (match GetTyped(nv, ty, name) case Ret(BoolValue(b)) => Ret(Some(Bool(b))) case _ => Abort)
    else if ty == Nv.NvTypeString then
      (match GetTyped(nv, ty, name) case Ret(StringValue(s)) => Ret(Some(String(s))) case _ => Abort)
    else if ty == Nv.NvTypeInt64 then
      (match GetTyped(nv, ty, name) case Ret(NumberValue(n)) => Ret(Some(Int64(Signed(n)))) case _ => Abort)
    else if ty == Nv.NvTypeUInt64 then
      (match GetTyped(nv, ty, name) case Ret(NumberValue(n)) => Ret(Some(UInt64(n))) case _ => Abort)
    else if ty == Nv.NvTypeDescriptor then Abort
    else if ty == Nv.NvTypeBinary then
      if !fixed then Ret(None)
      else (match GetTyped(nv, ty, name) case Ret(BinaryValue(b)) => Ret(Some(Data(b))) case _ => Abort)
    else if ty == Nv.NvTypeUuid then
      if !fixed then
        (match GetTyped(nv, ty, name)
         case Ret(BinaryValue(_)) => Listed(fixed, nv, Nv.NvTypeNvlistArray, name, deser)
         case _ => Abort)
      else (match GetTyped(nv, ty, name) case Ret(BinaryValue(b)) => Ret(Some(Uuid(b))) case _ => Abort)
    else if ty == Nv.NvTypeNvlistArray || ty == Nv.NvTypeNvlistDictionary then Listed(fixed, nv, ty, name, deser)
    else if ty == Nv.NvTypeNvlist && fixed then Listed(fixed, nv, ty, name, deser)
    else Ret(None)
  }

  /** `nvlist_get_nvlist_array`/`_dictionary` (or `nvlist_get_nvlist`)
      followed by the recursive `nv2xpc`. */
  function Listed(fixed: bool, nv: Nv.Nvl, ty: Nv.uint8, name: string, deser: int64 -> Port): Outcome<Option<Value>>
    decreases nv, 0
  {
    var j := Nv.FindIndex(nv, ty, name);
    if j < |nv.pairs| && nv.pairs[j].data.ListValue? then
      match FromNvBy(fixed, nv.pairs[j].data.list, deser)
      case Abort => Abort
      case Ret(x) => Ret(Some(x))
    else Abort
  }

  /** `nv2xpc` as written, with its loop over `nvlist_next`. */
  method Nv2Xpc(nv: Nv.Nvl, deser: int64 -> Port) returns (r: Outcome<Value>)
    ensures r == FromNv(nv, deser)
    decreases nv, 2
  {
    if nv.error != 0 || (nv.ty != Nv.NvTypeNvlistDictionary && nv.ty != Nv.NvTypeNvlistArray) {
      return Abort;
    }
    if nv.ty == Nv.NvTypeNvlistDictionary && Nv.Exists(nv, ObjectTypeKey) {
      return Unwrap(false, nv, deser);
    }
    var xo: Value := if nv.ty == Nv.NvTypeNvlistDictionary then Dictionary([]) else Array([]);
    var i := 0;
    while i < |nv.pairs|
      invariant i <= |nv.pairs|
      invariant nv.ty == Nv.NvTypeNvlistDictionary ==> xo.Dictionary?
      invariant nv.ty != Nv.NvTypeNvlistDictionary ==> xo.Array?
      invariant PairsFromNv(false, nv, i, xo, deser) == FromNv(nv, deser)
      decreases |nv.pairs| - i
    {
      var item := ConvertPair(nv, i, deser);
      if item.Abort? {
        return Abort;
      }
      if item.value.Some? {
        if nv.ty == Nv.NvTypeNvlistDictionary {
          if Reserved(nv.pairs[i].name) {
            return Abort;
          }
          xo := Dictionary(Insert(xo.entries, nv.pairs[i].name, item.value.value));
        } else {
          xo := Array(xo.items + [item.value.value]);
        }
      }
      i := i + 1;
    }
    r := Ret(xo);
  }

  /** The body of the `nv2xpc` loop: the switch on the pair's type. */
  method ConvertPair(nv: Nv.Nvl, i: nat, deser: int64 -> Port) returns (item: Outcome<Option<Value>>)
    requires i < |nv.pairs|
    ensures item == ItemFromPair(false, nv, i, deser)
    decreases nv, 1
  {
    var ty, name := nv.pairs[i].ty, nv.pairs[i].name;
    var got := GetTyped(nv, ty, name);
    if ty == Nv.NvTypeBool {
      item := if got.Ret? && got.value.BoolValue? then Ret(Some(Bool(got.value.b))) else Abort;
    } else if ty == Nv.NvTypeString {
      item := if got.Ret? && got.value.StringValue? then Ret(Some(String(got.value.s))) else Abort;
    } else if ty == Nv.NvTypeInt64 {
      item := if got.Ret? && got.value.NumberValue? then Ret(Some(Int64(Signed(got.value.n)))) else Abort;
    } else if ty == Nv.NvTypeUInt64 {
      item := if got.Ret? && got.value.NumberValue? then Ret(Some(UInt64(got.value.n))) else Abort;
    } else if ty == Nv.NvTypeDescriptor {
      item := Abort;
    } else if ty == Nv.NvTypeBinary {
      item := Ret(None);
    } else if ty == Nv.NvTypeUuid || ty == Nv.NvTypeNvlistArray || ty == Nv.NvTypeNvlistDictionary {
      if ty == Nv.NvTypeUuid && !(got.Ret? && got.value.BinaryValue?) {
        return Abort;
      }
      // The UUID case has no `break` and continues into the array case.
      var lty := if ty == Nv.NvTypeUuid then Nv.NvTypeNvlistArray else ty;
      var j := Nv.FindIndex(nv, lty, name);
      if j < |nv.pairs| && nv.pairs[j].data.ListValue? {
        var c := Nv2Xpc(nv.pairs[j].data.list, deser);
        item := if c.Abort? then Abort else Ret(Some(c.value));
      } else {
        item := Abort;
      }
    } else {
      item := Ret(None);
    }
  }

  // ---------------------------------------------------------------------
  // What survives the round trip
  // ---------------------------------------------------------------------

  /** The values the translation carries across unchanged. As written:
      booleans, strings, integers and containers of them. Corrected: also
      byte blobs, UUIDs, dates, doubles and the three port-carrying types.
      Dictionary keys are unique and outside the reserved prefix. */
  predicate Survives(fixed: bool, x: Value) {
    match x
    case Bool(_) => true
    case String(_) => true
    case Int64(_) => true
    case UInt64(_) => true
    case Data(_) => fixed
    case Uuid(_) => fixed
    case Date(_) => fixed
    case Double(_) => fixed
    case Connection(_) => fixed
    case Endpoint(_) => fixed
    case Fd(_) => fixed
    case Dictionary(es) =>
      UniqueKeys(es) && forall j :: 0 <= j < |es| ==> !Reserved(es[j].key) && Survives(fixed, es[j].value)
    case Array(xs) => forall j :: 0 <= j < |xs| ==> Survives(fixed, xs[j])
    case _ => false
  }

  /** A pair whose name is not yet taken is appended. */
  lemma MovedFresh(acc: Nv.Nvl, p: Nv.NvPair)
    requires acc.error == 0 && !acc.ignoreCase
    requires forall m :: 0 <= m < |acc.pairs| ==> acc.pairs[m].name != p.name
    ensures Nv.Moved(acc, p) == acc.(pairs := acc.pairs + [p])
  {
    Nv.ExistsIff(acc, p.name);
  }

  /** One step of `xpc_dictionary_apply` in `xpc2nv`. */
  lemma EntriesStep(v: Value, i: nat, acc: Nv.Nvl, ser: Port -> int64)
    requires v.Dictionary? && i < |v.entries| && PairFor(v.entries[i].key, v.entries[i].value, ser).Ret?
    ensures EntriesToNv(v, i, acc, ser)
         == EntriesToNv(v, i + 1, Nv.Moved(acc, PairFor(v.entries[i].key, v.entries[i].value, ser).value), ser)
  {
  }

  /** One step of `xpc_array_apply` in `xpc2nv`. */
  lemma ItemsStep(v: Value, i: nat, acc: Nv.Nvl, ser: Port -> int64)
    requires v.Array? && i < |v.items| && PairFor(Decimal(i), v.items[i], ser).Ret?
    ensures ItemsToNv(v, i, acc, ser)
         == ItemsToNv(v, i + 1, Nv.Moved(acc, PairFor(Decimal(i), v.items[i], ser).value), ser)
  {
  }

  /** One pair of `nv2xpc` read into a dictionary under its own name. */
  lemma DictionaryStep(fixed: bool, nv: Nv.Nvl, i: nat, pre: seq<Entry>, x: Value, deser: int64 -> Port)
    requires nv.ty == Nv.NvTypeNvlistDictionary && i < |nv.pairs| && !Reserved(nv.pairs[i].name)
    requires ItemFromPair(fixed, nv, i, deser) == Ret(Some(x))
    ensures PairsFromNv(fixed, nv, i, Dictionary(pre), deser)
         == PairsFromNv(fixed, nv, i + 1, Dictionary(Insert(pre, nv.pairs[i].name, x)), deser)
  {
  }

  /** Encoding a dictionary: each entry adds exactly its own pair at the
      tail, because keys are unique and no insertion meets a taken name. */
  lemma {:induction false} EncodeEntries(v: Value, i: nat, acc: Nv.Nvl, ser: Port -> int64)
    requires v.Dictionary? && UniqueKeys(v.entries) && i <= |v.entries|
    requires acc.error == 0 && !acc.ignoreCase && |acc.pairs| == i
    requires forall m :: 0 <= m < i ==> acc.pairs[m].name == v.entries[m].key
    requires forall j :: i <= j < |v.entries| ==> PairFor(v.entries[j].key, v.entries[j].value, ser).Ret?
    ensures EntriesToNv(v, i, acc, ser).Ret?
    ensures var r := EntriesToNv(v, i, acc, ser).value;
      r.error == 0 && !r.ignoreCase && r.ty == acc.ty && |r.pairs| == |v.entries|
      && (forall m :: 0 <= m < i ==> r.pairs[m] == acc.pairs[m])
      && (forall j :: i <= j < |v.entries| ==> Ret(r.pairs[j]) == PairFor(v.entries[j].key, v.entries[j].value, ser))
    decreases |v.entries| - i
  {
    var es := v.entries;
    if i < |es| {
      var p := PairFor(es[i].key, es[i].value, ser).value;
      forall m | 0 <= m < i
        ensures acc.pairs[m].name != p.name
      {
      }
      MovedFresh(acc, p);
      var next := acc.(pairs := acc.pairs + [p]);
      EntriesStep(v, i, acc, ser);
      EncodeEntries(v, i + 1, next, ser);
    }
  }

  /** Index names already used are all different from the next one. */
  lemma DecimalFresh(acc: Nv.Nvl, i: nat)
    requires |acc.pairs| == i && forall m :: 0 <= m < i ==> acc.pairs[m].name == Decimal(m)
    ensures forall m :: 0 <= m < i ==> acc.pairs[m].name != Decimal(i)
  {
    forall m | 0 <= m < i
      ensures acc.pairs[m].name != Decimal(i)
    {
      if acc.pairs[m].name == Decimal(i) {
        DecimalInjective(m, i);
      }
    }
  }

  /** Encoding an array: element `j` adds its pair under the decimal name
      of `j`, and distinct indices never clash. */
  lemma {:induction false} EncodeItems(v: Value, i: nat, acc: Nv.Nvl, ser: Port -> int64)
    requires v.Array? && i <= |v.items|
    requires acc.error == 0 && !acc.ignoreCase && |acc.pairs| == i
    requires forall m :: 0 <= m < i ==> acc.pairs[m].name == Decimal(m)
    requires forall j :: i <= j < |v.items| ==> PairFor(Decimal(j), v.items[j], ser).Ret?
    ensures ItemsToNv(v, i, acc, ser).Ret?
    ensures var r := ItemsToNv(v, i, acc, ser).value;
      r.error == 0 && !r.ignoreCase && r.ty == acc.ty && |r.pairs| == |v.items|
      && (forall m :: 0 <= m < i ==> r.pairs[m] == acc.pairs[m])
      && (forall j :: i <= j < |v.items| ==> Ret(r.pairs[j]) == PairFor(Decimal(j), v.items[j], ser))
    decreases |v.items| - i
  {
    if i < |v.items| {
      var p := PairFor(Decimal(i), v.items[i], ser).value;
      DecimalFresh(acc, i);
      MovedFresh(acc, p);
      var next := acc.(pairs := acc.pairs + [p]);
      forall m | 0 <= m < i + 1
        ensures next.pairs[m].name == Decimal(m)
      {
      }
      ItemsStep(v, i, acc, ser);
      EncodeItems(v, i + 1, next, ser);
      var r := ItemsToNv(v, i + 1, next, ser).value;
      assert r.pairs[i] == p;
      forall m | 0 <= m < i
        ensures r.pairs[m] == acc.pairs[m]
      {
        assert next.pairs[m] == acc.pairs[m];
      }
    }
  }

  /** Decoding a dictionary whose pairs each read back as their entry
      rebuilds the entries in order. */
  lemma {:induction false} DecodeEntries(fixed: bool, nv: Nv.Nvl, es: seq<Entry>, i: nat, deser: int64 -> Port)
    requires nv.ty == Nv.NvTypeNvlistDictionary && i <= |nv.pairs| && |nv.pairs| == |es| && UniqueKeys(es)
    requires forall j :: 0 <= j < |es| ==> nv.pairs[j].name == es[j].key && !Reserved(es[j].key)
    requires forall j :: i <= j < |es| ==> ItemFromPair(fixed, nv, j, deser) == Ret(Some(es[j].value))
    ensures PairsFromNv(fixed, nv, i, Dictionary(es[..i]), deser) == Ret(Dictionary(es))
    decreases |es| - i
  {
    if i < |es| {
      var pre, k, x := es[..i], es[i].key, es[i].value;
      forall m | 0 <= m < |pre|
        ensures pre[m].key != k
      {
        assert pre[m] == es[m];
      }
      InsertNew(pre, k, x);
      var next := Insert(pre, k, x);
      assert next == es[..i + 1];
      DictionaryStep(fixed, nv, i, pre, x, deser);
      DecodeEntries(fixed, nv, es, i + 1, deser);
    } else {
      assert es[..i] == es;
    }
  }

  /** Decoding an array whose pairs each read back as their element
      rebuilds the elements in order. */
  lemma {:induction false} DecodeItems(fixed: bool, nv: Nv.Nvl, xs: seq<Value>, i: nat, deser: int64 -> Port)
    requires nv.ty == Nv.NvTypeNvlistArray && i <= |nv.pairs| && |nv.pairs| == |xs|
    requires forall j :: i <= j < |xs| ==> ItemFromPair(fixed, nv, j, deser) == Ret(Some(xs[j]))
    ensures PairsFromNv(fixed, nv, i, Array(xs[..i]), deser) == Ret(Array(xs))
    decreases |xs| - i
  {
    if i < |xs| {
      assert xs[..i] + [xs[i]] == xs[..i + 1];
      DecodeItems(fixed, nv, xs, i + 1, deser);
    } else {
      assert xs[..i] == xs;
    }
  }

  /** The inner dictionary is recognised by its tag, and its payload pair
      is found by name and type. */
  lemma WrapperFinds(tag: string, key: string, ty: Nv.uint8, d: Nv.Data)
    requires ty != Nv.NvTypeString && ty != Nv.NvTypeNone && key != ObjectTypeKey
    ensures Nv.Exists(Wrapper(tag, key, ty, d), ObjectTypeKey)
    ensures GetTyped(Wrapper(tag, key, ty, d), Nv.NvTypeString, ObjectTypeKey) == Ret(Nv.StringValue(tag))
    ensures GetTyped(Wrapper(tag, key, ty, d), ty, key) == Ret(d)
  {
    var w := Wrapper(tag, key, ty, d);
    Nv.FindIndexFirst(w, Nv.NvTypeNone, ObjectTypeKey, 0);
    Nv.FindIndexFirst(w, Nv.NvTypeString, ObjectTypeKey, 0);
    Nv.FindIndexFirst(w, ty, key, 1);
  }

  /** The inner dictionary written for a port reads back as that port. */
  lemma PortBack(x: Value, ser: Port -> int64, deser: int64 -> Port)
    requires x.Connection? || x.Endpoint? || x.Fd?
    requires forall p :: deser(ser(p)) == p
    ensures PairFor("", x, ser).Ret? && PairFor("", x, ser).value.data.ListValue?
    ensures FromNvBy(true, PairFor("", x, ser).value.data.list, deser) == Ret(x)
  {
    WrapperKeysReserved();
    var tag := if x.Connection? then "connection" else if x.Endpoint? then "endpoint" else "fileport";
    var d := Nv.NumberValue(Unsigned(ser(x.port)));
    WrapperFinds(tag, PortIndexKey, Nv.NvTypeInt64, d);
    assert PairFor("", x, ser).value.data.list == Wrapper(tag, PortIndexKey, Nv.NvTypeInt64, d);
  }

  /** The inner dictionary written for a date reads back as that date. */
  lemma DateBack(x: Value, ser: Port -> int64, deser: int64 -> Port)
    requires x.Date?
    ensures PairFor("", x, ser).Ret? && PairFor("", x, ser).value.data.ListValue?
    ensures FromNvBy(true, PairFor("", x, ser).value.data.list, deser) == Ret(x)
  {
    WrapperKeysReserved();
    WrapperFinds("date", "date", Nv.NvTypeInt64, Nv.NumberValue(Unsigned(x.i)));
  }

  /** The inner dictionary written for a double reads back, under the
      corrected name, as that double. */
  lemma DoubleBack(x: Value, ser: Port -> int64, deser: int64 -> Port)
    requires x.Double?
    ensures PairFor("", x, ser).Ret? && PairFor("", x, ser).value.data.ListValue?
    ensures FromNvBy(true, PairFor("", x, ser).value.data.list, deser) == Ret(x)
  {
    WrapperKeysReserved();
    WrapperFinds("double", "double", Nv.NvTypeBinary, Nv.BinaryValue(Codec.Le64(x.bits)));
    Codec.Le64RoundTrip(x.bits);
  }

  /** The corrected reader turns the inner dictionary written for a port,
      a date or a double back into that object. */
  lemma WrappedBack(x: Value, ser: Port -> int64, deser: int64 -> Port)
    requires x.Connection? || x.Endpoint? || x.Fd? || x.Date? || x.Double?
    requires forall p :: deser(ser(p)) == p
    ensures PairFor("", x, ser).Ret? && PairFor("", x, ser).value.data.ListValue?
    ensures FromNvBy(true, PairFor("", x, ser).value.data.list, deser) == Ret(x)
  {
    if x.Date? {
      DateBack(x, ser, deser);
    } else if x.Double? {
      DoubleBack(x, ser, deser);
    } else {
      PortBack(x, ser, deser);
    }
  }

  /** A scalar pair found first under its name reads back as the scalar. */
  lemma ScalarBack(fixed: bool, nv: Nv.Nvl, j: nat, x: Value, ser: Port -> int64, deser: int64 -> Port)
    requires x.Bool? || x.String? || x.Int64? || x.UInt64? || (fixed && (x.Data? || x.Uuid?))
    requires j < |nv.pairs| && PairFor(nv.pairs[j].name, x, ser) == Ret(nv.pairs[j])
    requires Nv.FindIndex(nv, nv.pairs[j].ty, nv.pairs[j].name) == j
    ensures ItemFromPair(fixed, nv, j, deser) == Ret(Some(x))
  {
  }

  /** A list pair found first under its name reads back as the object its
      list stands for. */
  lemma ListBack(fixed: bool, nv: Nv.Nvl, j: nat, x: Value, ser: Port -> int64, deser: int64 -> Port)
    requires x.Dictionary? || x.Array? || (fixed && (x.Connection? || x.Endpoint? || x.Fd? || x.Date? || x.Double?))
    requires j < |nv.pairs| && PairFor(nv.pairs[j].name, x, ser) == Ret(nv.pairs[j])
    requires Nv.FindIndex(nv, nv.pairs[j].ty, nv.pairs[j].name) == j
    requires nv.pairs[j].data.ListValue? && FromNvBy(fixed, nv.pairs[j].data.list, deser) == Ret(x)
    ensures ItemFromPair(fixed, nv, j, deser) == Ret(Some(x))
  {
  }

  /** Reading one pair back: it is the first pair of its type under its
      name, and gives the value that was written. */
  lemma ItemBack(fixed: bool, nv: Nv.Nvl, j: nat, x: Value, ser: Port -> int64, deser: int64 -> Port)
    requires j < |nv.pairs| && !nv.ignoreCase
    requires forall m :: 0 <= m < |nv.pairs| && m != j ==> nv.pairs[m].name != nv.pairs[j].name
    requires Survives(fixed, x) && PairFor(nv.pairs[j].name, x, ser) == Ret(nv.pairs[j])
    requires forall p :: deser(ser(p)) == p
    requires x.Dictionary? || x.Array? ==> ToNv(x, ser).Ret? && FromNvBy(fixed, ToNv(x, ser).value, deser) == Ret(x)
    ensures ItemFromPair(fixed, nv, j, deser) == Ret(Some(x))
  {
    var p := nv.pairs[j];
    Nv.FindIndexFirst(nv, p.ty, p.name, j);
    if x.Connection? || x.Endpoint? || x.Fd? || x.Date? || x.Double? {
      WrappedBack(x, ser, deser);
      ListBack(fixed, nv, j, x, ser, deser);
    } else if x.Dictionary? || x.Array? {
      ListBack(fixed, nv, j, x, ser, deser);
    } else {
      ScalarBack(fixed, nv, j, x, ser, deser);
    }
  }

  /** `nv2xpc(xpc2nv(x))`: a container whose every part survives comes back
      equal, in order. `deser` undoes `ser`. */
  lemma {:induction false} RoundTrip(fixed: bool, v: Value, ser: Port -> int64, deser: int64 -> Port)
    requires (v.Dictionary? || v.Array?) && Survives(fixed, v)
    requires forall p :: deser(ser(p)) == p
    ensures ToNv(v, ser).Ret?
    ensures FromNvBy(fixed, ToNv(v, ser).value, deser) == Ret(v)
    decreases v, 1
  {
    if v.Dictionary? {
      DictionaryRoundTrip(fixed, v, ser, deser);
    } else {
      ArrayRoundTrip(fixed, v, ser, deser);
    }
  }

  /** The dictionary case of `RoundTrip`. */
  lemma {:induction false} DictionaryRoundTrip(fixed: bool, v: Value, ser: Port -> int64, deser: int64 -> Port)
    requires v.Dictionary? && Survives(fixed, v)
    requires forall p :: deser(ser(p)) == p
    ensures ToNv(v, ser).Ret?
    ensures FromNvBy(fixed, ToNv(v, ser).value, deser) == Ret(v)
    decreases v, 0
  {
    WrapperKeysReserved();
    var es := v.entries;
    forall j | 0 <= j < |es|
      ensures PairFor(es[j].key, es[j].value, ser).Ret?
      ensures es[j].value.Dictionary? || es[j].value.Array? ==>
                ToNv(es[j].value, ser).Ret? && FromNvBy(fixed, ToNv(es[j].value, ser).value, deser) == Ret(es[j].value)
    {
      if es[j].value.Dictionary? || es[j].value.Array? {
        RoundTrip(fixed, es[j].value, ser, deser);
      }
    }
    EncodeEntries(v, 0, EmptyList(Nv.NvTypeNvlistDictionary), ser);
    var nv := ToNv(v, ser).value;
    Nv.ExistsIff(nv, ObjectTypeKey);
    forall j | 0 <= j < |es|
      ensures ItemFromPair(fixed, nv, j, deser) == Ret(Some(es[j].value))
    {
      ItemBack(fixed, nv, j, es[j].value, ser, deser);
    }
    assert es[..0] == [];
    DecodeEntries(fixed, nv, es, 0, deser);
  }

  /** The array case of `RoundTrip`. */
  lemma {:induction false} ArrayRoundTrip(fixed: bool, v: Value, ser: Port -> int64, deser: int64 -> Port)
    requires v.Array? && Survives(fixed, v)
    requires forall p :: deser(ser(p)) == p
    ensures ToNv(v, ser).Ret?
    ensures FromNvBy(fixed, ToNv(v, ser).value, deser) == Ret(v)
    decreases v, 0
  {
    var xs := v.items;
    forall j | 0 <= j < |xs|
      ensures PairFor(Decimal(j), xs[j], ser).Ret?
      ensures xs[j].Dictionary? || xs[j].Array? ==>
                ToNv(xs[j], ser).Ret? && FromNvBy(fixed, ToNv(xs[j], ser).value, deser) == Ret(xs[j])
    {
      if xs[j].Dictionary? || xs[j].Array? {
        RoundTrip(fixed, xs[j], ser, deser);
      }
    }
    EncodeItems(v, 0, EmptyList(Nv.NvTypeNvlistArray), ser);
    var nv := ToNv(v, ser).value;
    forall j | 0 <= j < |xs|
      ensures ItemFromPair(fixed, nv, j, deser) == Ret(Some(xs[j]))
    {
      forall m | 0 <= m < |nv.pairs| && m != j
        ensures nv.pairs[m].name != nv.pairs[j].name
      {
        if nv.pairs[m].name == nv.pairs[j].name {
          DecimalInjective(m, j);
        }
      }
      ItemBack(fixed, nv, j, xs[j], ser, deser);
    }
    assert xs[..0] == [];
    DecodeItems(fixed, nv, xs, 0, deser);
  }

  // ---------------------------------------------------------------------
  // Where the reader as written loses values
  // ---------------------------------------------------------------------

  /** As written, a byte blob is written as a binary pair and the reader
      skips binary pairs: the entry disappears. The corrected reader keeps
      it (`RoundTrip` with `fixed`). */
  lemma AsWrittenDropsData(k: string, b: seq<byte>, ser: Port -> int64, deser: int64 -> Port)
    requires !Reserved(k)
    ensures ToNv(Dictionary([Entry(k, Data(b))]), ser).Ret?
    ensures FromNv(ToNv(Dictionary([Entry(k, Data(b))]), ser).value, deser) == Ret(Dictionary([]))
  {
    var v := Dictionary([Entry(k, Data(b))]);
    EncodeEntries(v, 0, EmptyList(Nv.NvTypeNvlistDictionary), ser);
    WrapperKeysReserved();
    var nv := ToNv(v, ser).value;
    Nv.ExistsIff(nv, ObjectTypeKey);
    assert nv.pairs[0].ty == Nv.NvTypeBinary;
    assert ItemFromPair(false, nv, 0, deser) == Ret(None);
    assert PairsFromNv(false, nv, 0, Dictionary([]), deser) == PairsFromNv(false, nv, 1, Dictionary([]), deser);
  }

  /** As written, a UUID pair falls through to the array reader, which
      finds no array under its name and aborts. */
  lemma AsWrittenUuidAborts(k: string, u: seq<byte>, ser: Port -> int64, deser: int64 -> Port)
    requires !Reserved(k)
    ensures ToNv(Dictionary([Entry(k, Uuid(u))]), ser).Ret?
    ensures FromNv(ToNv(Dictionary([Entry(k, Uuid(u))]), ser).value, deser) == Abort
  {
    var v := Dictionary([Entry(k, Uuid(u))]);
    EncodeEntries(v, 0, EmptyList(Nv.NvTypeNvlistDictionary), ser);
    WrapperKeysReserved();
    var nv := ToNv(v, ser).value;
    Nv.ExistsIff(nv, ObjectTypeKey);
    assert nv.pairs == [Nv.NvPair(Nv.NvTypeUuid, k, Nv.BinaryValue(u))];
    Nv.FindIndexFirst(nv, Nv.NvTypeUuid, k, 0);
    Nv.FindIndexNone(nv, Nv.NvTypeNvlistArray, k);
    assert GetTyped(nv, Nv.NvTypeUuid, k) == Ret(Nv.BinaryValue(u));
    assert Listed(false, nv, Nv.NvTypeNvlistArray, k, deser) == Abort;
    assert ItemFromPair(false, nv, 0, deser) == Abort;
    assert PairsFromNv(false, nv, 0, Dictionary([]), deser) == Abort;
    assert !Nv.Exists(nv, ObjectTypeKey);
  }

  /** As written, the inner dictionaries that stand for ports, dates and
      doubles are nested-list pairs, and the reader skips those: the entry
      disappears. */
  lemma AsWrittenDropsWrapped(k: string, x: Value, ser: Port -> int64, deser: int64 -> Port)
    requires !Reserved(k)
    requires x.Connection? || x.Endpoint? || x.Fd? || x.Date? || x.Double?
    ensures ToNv(Dictionary([Entry(k, x)]), ser).Ret?
    ensures FromNv(ToNv(Dictionary([Entry(k, x)]), ser).value, deser) == Ret(Dictionary([]))
  {
    var v := Dictionary([Entry(k, x)]);
    EncodeEntries(v, 0, EmptyList(Nv.NvTypeNvlistDictionary), ser);
    WrapperKeysReserved();
    var nv := ToNv(v, ser).value;
    Nv.ExistsIff(nv, ObjectTypeKey);
    assert nv.pairs[0].ty == Nv.NvTypeNvlist;
    assert ItemFromPair(false, nv, 0, deser) == Ret(None);
    assert PairsFromNv(false, nv, 0, Dictionary([]), deser) == PairsFromNv(false, nv, 1, Dictionary([]), deser);
  }

  /** As written, even a double's inner dictionary reached on its own
      cannot be read: the reader asks for a binary pair named "date", and
      the writer named it "double". */
  lemma AsWrittenDoubleUnreadable(bits: uint64, deser: int64 -> Port)
    ensures FromNv(Wrapper("double", "double", Nv.NvTypeBinary, Nv.BinaryValue(Codec.Le64(bits))), deser) == Abort
  {
    var w := Wrapper("double", "double", Nv.NvTypeBinary, Nv.BinaryValue(Codec.Le64(bits)));
    WrapperKeysReserved();
    WrapperFinds("double", "double", Nv.NvTypeBinary, Nv.BinaryValue(Codec.Le64(bits)));
    Nv.FindIndexNone(w, Nv.NvTypeBinary, "date");
  }
}
