/** Dictionary objects (xpc_dictionary.c): insertion that replaces in place
    or appends, the reserved key prefix, lookups and typed getters, ordered
    apply, construction from parallel key/value arrays and reply creation. */
module XpcDictionary {
  import opened Common
  import opened XpcType

  /** `XPC_RESERVED_KEY_PREFIX` and the two keys built on it. */
  const ReservedPrefix: string := "__XPC_IMPL$"
  const SeqIdKey: string := ReservedPrefix + "sequence number"
  const RemotePortKey: string := ReservedPrefix + "remote port"

  /** Keys that `xpc_dictionary_set_value` refuses. */
  predicate Reserved(key: string) {
    HasPrefix(key, ReservedPrefix)
  }

  lemma ImplKeysReserved()
    ensures Reserved(SeqIdKey) && Reserved(RemotePortKey)
    ensures SeqIdKey != RemotePortKey
  {
    assert SeqIdKey[..|ReservedPrefix|] == ReservedPrefix;
    assert RemotePortKey[..|ReservedPrefix|] == ReservedPrefix;
    assert SeqIdKey[|ReservedPrefix|] != RemotePortKey[|ReservedPrefix|];
  }

  /** The tag of a dictionary object agrees with its payload. The recorded
      size is deliberately not part of it: `xpc_dictionary_create` gets the
      size wrong and the operations here do not rely on it. */
  predicate Shaped(xo: Object?)
    reads xo
  {
    xo != null && xo.kind == TDictionary ==> xo.payload.Dictionary?
  }

  // ---------------------------------------------------------------------
  // Insertion
  // ---------------------------------------------------------------------

  /** The pairs after inserting `k`: the pair under an equal key gets the
      new value in place, otherwise a new pair goes at the tail. */
  function Insert(es: seq<Entry>, k: string, v: Value): (r: seq<Entry>)
    ensures |r| == |es| + (if Lookup(es, k).None? then 1 else 0)
    ensures Lookup(es, k).None? ==> r[|es|] == Entry(k, v)
  {
    var i := KeyIndex(es, k);
    if i < |es| then es[i := Entry(k, v)] else es + [Entry(k, v)]
  }

  /** Insertion keeps every pair's key in its place. */
  lemma InsertKeys(es: seq<Entry>, k: string, v: Value)
    ensures forall m :: 0 <= m < |es| ==> Insert(es, k, v)[m].key == es[m].key
  {
  }

  /** A key no pair carries is appended at the tail. */
  lemma InsertNew(es: seq<Entry>, k: string, v: Value)
    requires forall m :: 0 <= m < |es| ==> es[m].key != k
    ensures Insert(es, k, v) == es + [Entry(k, v)]
  {
    LookupMissing(es, k);
  }

  /** Insertion keeps keys unique. */
  lemma InsertUnique(es: seq<Entry>, k: string, v: Value)
    requires UniqueKeys(es)
    ensures UniqueKeys(Insert(es, k, v))
  {
    var i := KeyIndex(es, k);
    var r := Insert(es, k, v);
    InsertKeys(es, k, v);
    if i == |es| {
      KeyIndexFirst(es, k);
      forall a, b | 0 <= a < b < |r|
        ensures r[a].key != r[b].key
      {
        if b == |es| {
          assert r[a].key == es[a].key;
        }
      }
    }
  }

  /** After an insertion the key finds the new value, and every other key
      finds what it found before. */
  lemma InsertLookup(es: seq<Entry>, k: string, v: Value)
    requires UniqueKeys(es)
    ensures Lookup(Insert(es, k, v), k) == Some(v)
    ensures forall k' :: k' != k ==> Lookup(Insert(es, k, v), k') == Lookup(es, k')
  {
    var i := KeyIndex(es, k);
    var r := Insert(es, k, v);
    InsertUnique(es, k, v);
    if i < |es| {
      assert r[i] == Entry(k, v);
      LookupFinds(r, i);
    } else {
      assert r[|es|] == Entry(k, v);
      LookupFinds(r, |es|);
    }
    forall k' | k' != k
      ensures Lookup(r, k') == Lookup(es, k')
    {
      var j := KeyIndex(es, k');
      if j < |es| {
        assert r[j] == es[j];
        LookupFinds(es, j);
        LookupFinds(r, j);
      } else {
        LookupMissing(es, k');
        LookupMissing(r, k');
      }
    }
  }

  /** `xpc_dictionary_set_value_nokeycheck`: the pair list walk finds an
      equal key and replaces its value, or appends a pair and increments the
      recorded size. */
  method SetValueNoKeyCheck(xo: Object?, key: string, value: Value) returns (r: Outcome<()>)
    requires Shaped(xo)
    modifies xo
    ensures xo != null ==> xo.kind == old(xo.kind)
    ensures r.Abort? <==> Mismatch(xo, TDictionary)
    ensures r.Abort? && xo != null ==> unchanged(xo)
    ensures r.Ret? ==> xo.payload == Dictionary(Insert(old(xo.payload.entries), key, value))
    ensures r.Ret? ==> xo.size == old(xo.size) + (if Lookup(old(xo.payload.entries), key).None? then 1 else 0)
    ensures r.Ret? ==> xo.kind == old(xo.kind) && xo.flags == old(xo.flags)
    ensures r.Ret? ==> xo.refcnt == old(xo.refcnt) && xo.hasAuditToken == old(xo.hasAuditToken)
  {
    if Mismatch(xo, TDictionary) {
      return Abort;
    }
    var es := xo.payload.entries;
    var i := 0;
    while i < |es|
      invariant i <= |es|
      invariant forall m :: 0 <= m < i ==> es[m].key != key
    {
      if es[i].key == key {
        KeyIndexFirst(es, key);
        xo.payload := Dictionary(es[i := Entry(key, value)]);
        return Ret(());
      }
      i := i + 1;
    }
    xo.size := xo.size + 1;
    xo.payload := Dictionary(es + [Entry(key, value)]);
    r := Ret(());
  }

  /** `xpc_dictionary_set_value`: a key with the reserved prefix aborts
      before anything else; otherwise as the unchecked insertion. */
  method SetValue(xo: Object?, key: string, value: Value) returns (r: Outcome<()>)
    requires Shaped(xo)
    modifies xo
    ensures xo != null ==> xo.kind == old(xo.kind)
    ensures r.Abort? <==> Reserved(key) || Mismatch(xo, TDictionary)
    ensures r.Abort? && xo != null ==> unchanged(xo)
    ensures r.Ret? ==> xo.payload == Dictionary(Insert(old(xo.payload.entries), key, value))
    ensures r.Ret? ==> xo.size == old(xo.size) + (if Lookup(old(xo.payload.entries), key).None? then 1 else 0)
    ensures r.Ret? ==> xo.kind == old(xo.kind) && xo.flags == old(xo.flags)
    ensures r.Ret? ==> xo.refcnt == old(xo.refcnt) && xo.hasAuditToken == old(xo.hasAuditToken)
  {
    if Reserved(key) {
      return Abort;
    }
    r := SetValueNoKeyCheck(xo, key, value);
  }

  /** `xpc_dictionary_set_bool`, `_int64`, `_uint64`, `_string`, `_uuid`,
      `_mach_send` and `_mach_recv`: a fresh value object stored through
      `xpc_dictionary_set_value`. The extra NULL and type checks some of
      them make first abort in the same cases. */
  method SetBool(xo: Object?, key: string, value: bool) returns (r: Outcome<()>)
    requires Shaped(xo)
    modifies xo
    ensures xo != null ==> xo.kind == old(xo.kind)
    ensures r.Abort? <==> Reserved(key) || Mismatch(xo, TDictionary)
    ensures r.Abort? && xo != null ==> unchanged(xo)
    ensures r.Ret? ==> xo.payload == Dictionary(Insert(old(xo.payload.entries), key, Bool(value)))
    ensures r.Ret? ==> xo.size == old(xo.size) + (if Lookup(old(xo.payload.entries), key).None? then 1 else 0)
    ensures r.Ret? ==> xo.flags == old(xo.flags) && xo.refcnt == old(xo.refcnt) && xo.hasAuditToken == old(xo.hasAuditToken)
  {
    if Mismatch(xo, TDictionary) {
      return Abort;
    }
    r := SetValue(xo, key, Bool(value));
  }

  method SetInt64(xo: Object?, key: string, value: int64) returns (r: Outcome<()>)
    requires Shaped(xo)
    modifies xo
    ensures xo != null ==> xo.kind == old(xo.kind)
    ensures r.Abort? <==> Reserved(key) || Mismatch(xo, TDictionary)
    ensures r.Abort? && xo != null ==> unchanged(xo)
    ensures r.Ret? ==> xo.payload == Dictionary(Insert(old(xo.payload.entries), key, Int64(value)))
    ensures r.Ret? ==> xo.size == old(xo.size) + (if Lookup(old(xo.payload.entries), key).None? then 1 else 0)
    ensures r.Ret? ==> xo.flags == old(xo.flags) && xo.refcnt == old(xo.refcnt) && xo.hasAuditToken == old(xo.hasAuditToken)
  {
    if Mismatch(xo, TDictionary) {
      return Abort;
    }
    r := SetValue(xo, key, Int64(value));
  }

  method SetUInt64(xo: Object?, key: string, value: uint64) returns (r: Outcome<()>)
    requires Shaped(xo)
    modifies xo
    ensures xo != null ==> xo.kind == old(xo.kind)
    ensures r.Abort? <==> Reserved(key) || Mismatch(xo, TDictionary)
    ensures r.Abort? && xo != null ==> unchanged(xo)
    ensures r.Ret? ==> xo.payload == Dictionary(Insert(old(xo.payload.entries), key, UInt64(value)))
    ensures r.Ret? ==> xo.size == old(xo.size) + (if Lookup(old(xo.payload.entries), key).None? then 1 else 0)
    ensures r.Ret? ==> xo.flags == old(xo.flags) && xo.refcnt == old(xo.refcnt) && xo.hasAuditToken == old(xo.hasAuditToken)
  {
    if Mismatch(xo, TDictionary) {
      return Abort;
    }
    r := SetValue(xo, key, UInt64(value));
  }

  method SetString(xo: Object?, key: string, value: string) returns (r: Outcome<()>)
    requires Shaped(xo)
    modifies xo
    ensures xo != null ==> xo.kind == old(xo.kind)
    ensures r.Abort? <==> Reserved(key) || Mismatch(xo, TDictionary)
    ensures r.Abort? && xo != null ==> unchanged(xo)
    ensures r.Ret? ==> xo.payload == Dictionary(Insert(old(xo.payload.entries), key, String(value)))
    ensures r.Ret? ==> xo.size == old(xo.size) + (if Lookup(old(xo.payload.entries), key).None? then 1 else 0)
    ensures r.Ret? ==> xo.flags == old(xo.flags) && xo.refcnt == old(xo.refcnt) && xo.hasAuditToken == old(xo.hasAuditToken)
  {
    r := SetValue(xo, key, String(value));
  }

  method SetUuid(xo: Object?, key: string, uuid: seq<byte>) returns (r: Outcome<()>)
    requires Shaped(xo) && |uuid| == UuidSize
    modifies xo
    ensures xo != null ==> xo.kind == old(xo.kind)
    ensures r.Abort? <==> Reserved(key) || Mismatch(xo, TDictionary)
    ensures r.Abort? && xo != null ==> unchanged(xo)
    ensures r.Ret? ==> xo.payload == Dictionary(Insert(old(xo.payload.entries), key, Uuid(uuid)))
    ensures r.Ret? ==> xo.size == old(xo.size) + (if Lookup(old(xo.payload.entries), key).None? then 1 else 0)
    ensures r.Ret? ==> xo.flags == old(xo.flags) && xo.refcnt == old(xo.refcnt) && xo.hasAuditToken == old(xo.hasAuditToken)
  {
    r := SetValue(xo, key, Uuid(uuid));
  }

  /** `xpc_dictionary_set_mach_send` and `xpc_dictionary_set_mach_recv`
      both store an endpoint object holding the port. */
  method SetMachSend(xo: Object?, key: string, port: Port) returns (r: Outcome<()>)
    requires Shaped(xo)
    modifies xo
    ensures xo != null ==> xo.kind == old(xo.kind)
    ensures r.Abort? <==> Reserved(key) || Mismatch(xo, TDictionary)
    ensures r.Abort? && xo != null ==> unchanged(xo)
    ensures r.Ret? ==> xo.payload == Dictionary(Insert(old(xo.payload.entries), key, Endpoint(port)))
    ensures r.Ret? ==> xo.size == old(xo.size) + (if Lookup(old(xo.payload.entries), key).None? then 1 else 0)
    ensures r.Ret? ==> xo.flags == old(xo.flags) && xo.refcnt == old(xo.refcnt) && xo.hasAuditToken == old(xo.hasAuditToken)
  {
    r := SetValue(xo, key, Endpoint(port));
  }

  method SetMachRecv(xo: Object?, key: string, port: Port) returns (r: Outcome<()>)
    requires Shaped(xo)
    modifies xo
    ensures xo != null ==> xo.kind == old(xo.kind)
    ensures r.Abort? <==> Reserved(key) || Mismatch(xo, TDictionary)
    ensures r.Abort? && xo != null ==> unchanged(xo)
    ensures r.Ret? ==> xo.payload == Dictionary(Insert(old(xo.payload.entries), key, Endpoint(port)))
    ensures r.Ret? ==> xo.size == old(xo.size) + (if Lookup(old(xo.payload.entries), key).None? then 1 else 0)
    ensures r.Ret? ==> xo.flags == old(xo.flags) && xo.refcnt == old(xo.refcnt) && xo.hasAuditToken == old(xo.hasAuditToken)
  {
    if Mismatch(xo, TDictionary) {
      return Abort;
    }
    r := SetValue(xo, key, Endpoint(port));
  }

  // ---------------------------------------------------------------------
  // Queries
  // ---------------------------------------------------------------------

  /** `xpc_dictionary_get_value`: aborts on NULL or a non-dictionary, else
      the value under the first equal key, or NULL. */
  function GetValue(xo: Object?, key: string): (r: Outcome<Option<Value>>)
    reads xo
    requires Shaped(xo)
    ensures r.Abort? <==> Mismatch(xo, TDictionary)
    ensures r.Ret? ==> (r.value.None? <==> forall m :: 0 <= m < |xo.payload.entries| ==> xo.payload.entries[m].key != key)
    ensures r.Ret? && r.value.Some? ==> exists m :: 0 <= m < |xo.payload.entries| && xo.payload.entries[m] == Entry(key, r.value.value)
  {
    if Mismatch(xo, TDictionary) then Abort
    else
      LookupMissing(xo.payload.entries, key);
      Ret(Lookup(xo.payload.entries, key))
  }

  /** `xpc_dictionary_get_count`: the recorded size. */
  function GetCount(xo: Object?): (r: Outcome<nat>)
    reads xo
    ensures r.Abort? <==> Mismatch(xo, TDictionary)
    ensures r.Ret? ==> r.value == xo.size
  {
    if Mismatch(xo, TDictionary) then Abort else Ret(xo.size)
  }

  /** On a valid dictionary the count is the number of pairs, which is the
      number of distinct keys. */
  lemma CountIsKeys(xo: Object)
    requires xo.Valid() && xo.kind == TDictionary
    ensures GetCount(xo) == Ret(|KeySet(xo.payload.entries)|)
    ensures |KeySet(xo.payload.entries)| == |xo.payload.entries|
  {
    UniqueKeyCount(xo.payload.entries);
  }

  function KeySet(es: seq<Entry>): (s: set<string>)
    ensures forall k :: k in s <==> exists m :: 0 <= m < |es| && es[m].key == k
  {
    set m | 0 <= m < |es| :: es[m].key
  }

  lemma {:induction false} UniqueKeyCount(es: seq<Entry>)
    requires UniqueKeys(es)
    ensures |KeySet(es)| == |es|
  {
    if es != [] {
      var init := es[..|es| - 1];
      assert UniqueKeys(init);
      UniqueKeyCount(init);
      var last := es[|es| - 1].key;
      assert KeySet(es) == KeySet(init) + {last} by {
        forall k | k in KeySet(es)
          ensures k in KeySet(init) + {last}
        {
          var m :| 0 <= m < |es| && es[m].key == k;
          if m < |es| - 1 {
            assert init[m].key == k;
          }
        }
      }
      assert last !in KeySet(init);
    }
  }

  /** The typed getters: false, 0 or NULL when the key is missing or holds
      a value of another type. Each aborts where `xpc_dictionary_get_value`
      does. */
  function GetBool(xo: Object?, key: string): (r: Outcome<bool>)
    reads xo
    requires Shaped(xo)
    ensures r.Abort? <==> Mismatch(xo, TDictionary)
    ensures r.Ret? ==> (r.value <==> GetValue(xo, key) == Ret(Some(Bool(true))))
  {
    match GetValue(xo, key)
    case Abort => Abort
    case Ret(Some(Bool(b))) => Ret(b)
    case Ret(_) => Ret(false)
  }

  function GetInt64(xo: Object?, key: string): (r: Outcome<int64>)
    reads xo
    requires Shaped(xo)
    ensures r.Abort? <==> Mismatch(xo, TDictionary)
    ensures r.Ret? && r.value != 0 ==> GetValue(xo, key) == Ret(Some(Int64(r.value)))
    ensures forall n: int64 :: GetValue(xo, key) == Ret(Some(Int64(n))) ==> r == Ret(n)
  {
    match GetValue(xo, key)
    case Abort => Abort
    case Ret(Some(Int64(n))) => Ret(n)
    case Ret(_) => Ret(0)
  }

  function GetUInt64(xo: Object?, key: string): (r: Outcome<uint64>)
    reads xo
    requires Shaped(xo)
    ensures r.Abort? <==> Mismatch(xo, TDictionary)
    ensures r.Ret? && r.value != 0 ==> GetValue(xo, key) == Ret(Some(UInt64(r.value)))
    ensures forall n: uint64 :: GetValue(xo, key) == Ret(Some(UInt64(n))) ==> r == Ret(n)
  {
    match GetValue(xo, key)
    case Abort => Abort
    case Ret(Some(UInt64(n))) => Ret(n)
    case Ret(_) => Ret(0)
  }

  function GetString(xo: Object?, key: string): (r: Outcome<Option<string>>)
    reads xo
    requires Shaped(xo)
    ensures r.Abort? <==> Mismatch(xo, TDictionary)
    ensures r.Ret? && r.value.Some? <==> (exists s :: GetValue(xo, key) == Ret(Some(String(s))))
    ensures r.Ret? && r.value.Some? ==> GetValue(xo, key) == Ret(Some(String(r.value.value)))
  {
    match GetValue(xo, key)
    case Abort => Abort
    case Ret(Some(String(s))) => Ret(Some(s))
    case Ret(_) => Ret(None)
  }

  /** `xpc_dictionary_get_data`: the bytes, whose count is what `length`
      receives. */
  function GetData(xo: Object?, key: string): (r: Outcome<Option<seq<byte>>>)
    reads xo
    requires Shaped(xo)
    ensures r.Abort? <==> Mismatch(xo, TDictionary)
    ensures r.Ret? && r.value.Some? <==> (exists b :: GetValue(xo, key) == Ret(Some(Data(b))))
    ensures r.Ret? && r.value.Some? ==> GetValue(xo, key) == Ret(Some(Data(r.value.value)))
  {
    match GetValue(xo, key)
    case Abort => Abort
    case Ret(Some(Data(b))) => Ret(Some(b))
    case Ret(_) => Ret(None)
  }

  /** `xpc_dictionary_copy_mach_send`: MACH_PORT_NULL for a missing key,
      the endpoint's port otherwise; a non-endpoint value aborts, and so
      does a refused `mach_port_insert_right`, whose answer is the
      parameter `insertRight`. */
  function CopyMachSend(xo: Object?, key: string, insertRight: bool): (r: Outcome<Port>)
    reads xo
    requires Shaped(xo)
    ensures r.Abort? <==> Mismatch(xo, TDictionary)
                          || (GetValue(xo, key).Ret? && GetValue(xo, key).value.Some?
                              && (!GetValue(xo, key).value.value.Endpoint? || !insertRight))
    ensures r.Ret? ==> (GetValue(xo, key) == Ret(None) && r.value == 0)
                       || GetValue(xo, key) == Ret(Some(Endpoint(r.value)))
  {
    match GetValue(xo, key)
    case Abort => Abort
    case Ret(None) => Ret(0)
    case Ret(Some(Endpoint(p))) => if insertRight then Ret(p) else Abort
    case Ret(Some(_)) => Abort
  }

  /** What a getter reads back after a setter: the stored value under its
      key, and the old answer under every other key. */
  lemma SetThenGet(xo: Object, es: seq<Entry>, k: string, v: Value)
    requires xo.kind == TDictionary && UniqueKeys(es)
    requires xo.payload == Dictionary(Insert(es, k, v))
    ensures GetValue(xo, k) == Ret(Some(v))
    ensures v.Bool? ==> GetBool(xo, k) == Ret(v.b)
    ensures v.Int64? ==> GetInt64(xo, k) == Ret(v.i)
    ensures v.UInt64? ==> GetUInt64(xo, k) == Ret(v.u)
    ensures v.String? ==> GetString(xo, k) == Ret(Some(v.str))
    ensures v.Data? ==> GetData(xo, k) == Ret(Some(v.bytes))
    ensures v.Endpoint? ==> CopyMachSend(xo, k, true) == Ret(v.port)
    ensures forall k' :: k' != k ==> GetValue(xo, k') == Ret(Lookup(es, k'))
  {
    InsertLookup(es, k, v);
  }

  // ---------------------------------------------------------------------
  // xpc_dictionary_apply
  // ---------------------------------------------------------------------

  /** Position of the first pair the applier refuses, or the number of
      pairs when it accepts them all. */
  function FirstRefused(es: seq<Entry>, applier: (string, Value) -> bool): (i: nat)
    ensures i <= |es|
    ensures forall m :: 0 <= m < i ==> applier(es[m].key, es[m].value)
    ensures i < |es| ==> !applier(es[i].key, es[i].value)
  {
    if es == [] then 0
    else if !applier(es[0].key, es[0].value) then 0
    else 1 + FirstRefused(es[1..], applier)
  }

  /** `xpc_dictionary_apply`: calls the applier on the pairs in insertion
      order and stops at the first refusal. `calls` is how many times the
      applier ran. */
  method Apply(xo: Object?, applier: (string, Value) -> bool) returns (r: Outcome<bool>, calls: nat)
    requires Shaped(xo)
    ensures r.Abort? <==> Mismatch(xo, TDictionary)
    ensures r.Ret? ==> (r.value <==> forall m :: 0 <= m < |xo.payload.entries| ==> applier(xo.payload.entries[m].key, xo.payload.entries[m].value))
    ensures r.Ret? ==> calls == Min(FirstRefused(xo.payload.entries, applier) + 1, |xo.payload.entries|)
  {
    calls := 0;
    if Mismatch(xo, TDictionary) {
      return Abort, 0;
    }
    var es := xo.payload.entries;
    var i := 0;
    while i < |es|
      invariant i <= |es| && calls == i
      invariant forall m :: 0 <= m < i ==> applier(es[m].key, es[m].value)
    {
      calls := calls + 1;
      if !applier(es[i].key, es[i].value) {
        return Ret(false), calls;
      }
      i := i + 1;
    }
    r := Ret(true);
  }

  // ---------------------------------------------------------------------
  // xpc_dictionary_create
  // ---------------------------------------------------------------------

  /** The pairs after inserting the first `n` keys in order, each with its
      value. */
  function InsertPrefix(keys: seq<string>, values: seq<Value>, n: nat): (r: seq<Entry>)
    requires |keys| == |values| && n <= |keys|
  {
    if n == 0 then []
    else Insert(InsertPrefix(keys, values, n - 1), keys[n - 1], values[n - 1])
  }

  /** The pairs after inserting every key in order. */
  function InsertAll(keys: seq<string>, values: seq<Value>): (r: seq<Entry>)
    requires |keys| == |values|
  {
    InsertPrefix(keys, values, |keys|)
  }

  /** The value of the last occurrence of `k` among the first `n` keys, if
      any. */
  function LastValueIn(keys: seq<string>, values: seq<Value>, n: nat, k: string): Option<Value>
    requires |keys| == |values| && n <= |keys|
  {
    if n == 0 then None
    else if keys[n - 1] == k then Some(values[n - 1])
    else LastValueIn(keys, values, n - 1, k)
  }

  /** The distinct keys among the first `n`. */
  function KeysIn(keys: seq<string>, n: nat): set<string>
    requires n <= |keys|
  {
    if n == 0 then {} else KeysIn(keys, n - 1) + {keys[n - 1]}
  }

  /** A key has a last value among the first `n` keys exactly when it is
      one of them. */
  lemma {:induction false} LastValueKeys(keys: seq<string>, values: seq<Value>, n: nat, k: string)
    requires |keys| == |values| && n <= |keys|
    ensures LastValueIn(keys, values, n, k).Some? <==> k in KeysIn(keys, n)
  {
    if n > 0 {
      LastValueKeys(keys, values, n - 1, k);
    }
  }

  lemma {:induction false} LastValuePrefix(keys: seq<string>, values: seq<Value>, n: nat, k: string)
    requires |keys| == |values| && n <= |keys|
    ensures LastValueIn(keys, values, n, k).None? <==> k !in keys[..n]
  {
    if n > 0 {
      LastValuePrefix(keys, values, n - 1, k);
      assert keys[..n] == keys[..n - 1] + [keys[n - 1]];
    }
  }

  /** A last value is a value the key was given. */
  lemma {:induction false} LastValueGiven(keys: seq<string>, values: seq<Value>, n: nat, k: string)
    requires |keys| == |values| && n <= |keys|
    ensures LastValueIn(keys, values, n, k).Some? ==>
      exists m :: 0 <= m < n && keys[m] == k && values[m] == LastValueIn(keys, values, n, k).value
  {
    if n > 0 && keys[n - 1] != k {
      LastValueGiven(keys, values, n - 1, k);
    }
  }

  /** The value of the last occurrence of `k` among the keys, if any. */
  function LastValue(keys: seq<string>, values: seq<Value>, k: string): (r: Option<Value>)
    requires |keys| == |values|
    ensures r.None? <==> k !in keys
    ensures r.Some? ==> exists m :: 0 <= m < |keys| && keys[m] == k && values[m] == r.value
  {
    LastValuePrefix(keys, values, |keys|, k);
    LastValueGiven(keys, values, |keys|, k);
    assert keys[..|keys|] == keys;
    LastValueIn(keys, values, |keys|, k)
  }

  /** `InsertLookup` for one key `q`. */
  lemma InsertLookupAt(es: seq<Entry>, k: string, v: Value, q: string)
    requires UniqueKeys(es)
    ensures Lookup(Insert(es, k, v), q) == if q == k then Some(v) else Lookup(es, q)
  {
    InsertLookup(es, k, v);
  }

  /** Inserting a sequence of keys keeps keys unique. */
  lemma {:induction false} InsertAllUnique(keys: seq<string>, values: seq<Value>, n: nat)
    requires |keys| == |values| && n <= |keys|
    ensures UniqueKeys(InsertPrefix(keys, values, n))
  {
    if n > 0 {
      InsertAllUnique(keys, values, n - 1);
      InsertUnique(InsertPrefix(keys, values, n - 1), keys[n - 1], values[n - 1]);
    }
  }

  /** After inserting a sequence of keys, each key finds the value of its
      last occurrence. */
  lemma {:induction false} InsertAllLookup(keys: seq<string>, values: seq<Value>, n: nat, k: string)
    requires |keys| == |values| && n <= |keys|
    ensures Lookup(InsertPrefix(keys, values, n), k) == LastValueIn(keys, values, n, k)
  {
    if n > 0 {
      InsertAllUnique(keys, values, n - 1);
      InsertAllLookup(keys, values, n - 1, k);
      InsertLookupAt(InsertPrefix(keys, values, n - 1), keys[n - 1], values[n - 1], k);
    }
  }

  /** Inserting a sequence of keys leaves one pair per distinct key. */
  lemma {:induction false} InsertAllCount(keys: seq<string>, values: seq<Value>, n: nat)
    requires |keys| == |values| && n <= |keys|
    ensures |InsertPrefix(keys, values, n)| == |KeysIn(keys, n)|
  {
    if n > 0 {
      var k := keys[n - 1];
      InsertAllCount(keys, values, n - 1);
      InsertAllLookup(keys, values, n - 1, k);
      LastValueKeys(keys, values, n - 1, k);
      CountStep(InsertPrefix(keys, values, n - 1), k, values[n - 1], KeysIn(keys, n - 1));
    }
  }

  lemma CountStep(es: seq<Entry>, k: string, v: Value, before: set<string>)
    requires |es| == |before| && (Lookup(es, k).Some? <==> k in before)
    ensures |Insert(es, k, v)| == |before + {k}|
  {
    if k in before {
      assert before + {k} == before;
    }
  }

  /** The distinct keys of the whole sequence are the set of its keys. */
  lemma AllKeys(keys: seq<string>, values: seq<Value>)
    requires |keys| == |values|
    ensures KeysIn(keys, |keys|) == set k | k in keys
  {
    assert keys[..|keys|] == keys;
    forall k
      ensures k in KeysIn(keys, |keys|) <==> k in keys
    {
      LastValueKeys(keys, values, |keys|, k);
      LastValuePrefix(keys, values, |keys|, k);
    }
  }

  /** `xpc_dictionary_create` as written: the size starts at `count` and
      every insertion of a new key increments it again. */
  method DictionaryCreateAsWritten(keys: seq<string>, values: seq<Value>) returns (r: Outcome<Object>)
    requires |keys| == |values|
    ensures r.Abort? <==> exists m :: 0 <= m < |keys| && Reserved(keys[m])
    ensures r.Ret? ==> fresh(r.value) && r.value.kind == TDictionary && r.value.refcnt == 1
    ensures r.Ret? ==> r.value.payload == Dictionary(InsertAll(keys, values))
    ensures r.Ret? ==> r.value.size == |keys| + |InsertAll(keys, values)|
  {
    var xo := new Object.PrimCreateFlags(TDictionary, Dictionary([]), |keys|, 0);
    var i := 0;
    while i < |keys|
      invariant i <= |keys|
      invariant xo.kind == TDictionary && xo.refcnt == 1
      invariant xo.payload == Dictionary(InsertPrefix(keys, values, i))
      invariant xo.size == |keys| + |InsertPrefix(keys, values, i)|
      invariant forall m {:trigger Reserved(keys[m])} :: 0 <= m < i ==> !Reserved(keys[m])
    {
      var s := SetValue(xo, keys[i], values[i]);
      if s.Abort? {
        return Abort;
      }
      assert !Reserved(keys[i]);
      i := i + 1;
    }
    r := Ret(xo);
  }

  /** A single key makes the as-written count 2 for a one-pair dictionary. */
  lemma DictionaryCreateAsWrittenCounterexample()
    ensures |InsertAll(["a"], [Null])| == 1
    ensures |["a"]| + |InsertAll(["a"], [Null])| == 2
  {
    assert InsertPrefix(["a"], [Null], 0) == [];
  }

  /** `xpc_dictionary_create` corrected: the size starts at 0, so the
      object is valid, its count is the number of distinct keys and each
      key holds the value of its last occurrence. */
  method DictionaryCreate(keys: seq<string>, values: seq<Value>) returns (r: Outcome<Object>)
    requires |keys| == |values|
    ensures r.Abort? <==> exists m :: 0 <= m < |keys| && Reserved(keys[m])
    ensures r.Ret? ==> fresh(r.value) && r.value.Valid() && r.value.kind == TDictionary
    ensures r.Ret? ==> r.value.refcnt == 1 && r.value.flags == 0 && !r.value.hasAuditToken
    ensures r.Ret? ==> r.value.payload == Dictionary(InsertAll(keys, values))
    ensures r.Ret? ==> GetCount(r.value) == Ret(|set k | k in keys|)
    ensures r.Ret? ==> forall k :: GetValue(r.value, k) == Ret(LastValue(keys, values, k))
  {
    var xo := new Object.PrimCreateFlags(TDictionary, Dictionary([]), 0, 0);
    var i := 0;
    while i < |keys|
      invariant i <= |keys|
      invariant xo.kind == TDictionary && xo.refcnt == 1 && xo.flags == 0 && !xo.hasAuditToken
      invariant xo.payload == Dictionary(InsertPrefix(keys, values, i))
      invariant xo.size == |InsertPrefix(keys, values, i)|
      invariant forall m {:trigger Reserved(keys[m])} :: 0 <= m < i ==> !Reserved(keys[m])
    {
      var s := SetValue(xo, keys[i], values[i]);
      if s.Abort? {
        return Abort;
      }
      assert !Reserved(keys[i]);
      i := i + 1;
    }
    InsertAllCount(keys, values, i);
    AllKeys(keys, values);
    InsertAllUnique(keys, values, i);
    forall k
      ensures GetValue(xo, k) == Ret(LastValue(keys, values, k))
    {
      InsertAllLookup(keys, values, i, k);
    }
    r := Ret(xo);
  }

  // ---------------------------------------------------------------------
  // xpc_dictionary_create_reply
  // ---------------------------------------------------------------------

  /** The pairs a reply to a message with remote port `port` and sequence
      number `seqid` should carry: each one only when it is non-zero. */
  function ReplyEntries(port: Port, seqid: uint64): (r: seq<Entry>)
    ensures UniqueKeys(r)
    ensures port != 0 ==> Lookup(r, RemotePortKey) == Some(Endpoint(port))
    ensures seqid != 0 ==> Lookup(r, SeqIdKey) == Some(UInt64(seqid))
    ensures port == 0 ==> Lookup(r, RemotePortKey) == None
    ensures seqid == 0 ==> Lookup(r, SeqIdKey) == None
  {
    ImplKeysReserved();
    var rp, sq := Entry(RemotePortKey, Endpoint(port)), Entry(SeqIdKey, UInt64(seqid));
    if port != 0 && seqid != 0 then
      LookupFinds([rp, sq], 0);
      LookupFinds([rp, sq], 1);
      [rp, sq]
    else if port != 0 then [rp]
    else if seqid != 0 then [sq]
    else []
  }

  /** The reply's two pairs written into a new empty dictionary through
      `xpc_dictionary_set_value_nokeycheck`, each only when non-zero. */
  method FillReply(reply: Object, port: Port, seqid: uint64)
    requires reply.kind == TDictionary && reply.payload == Dictionary([]) && reply.size == 0
    modifies reply
    ensures reply.kind == TDictionary && reply.payload == Dictionary(ReplyEntries(port, seqid))
    ensures reply.Valid()
  {
    ImplKeysReserved();
    ghost var first: seq<Entry> := [];
    if port != 0 {
      first := [Entry(RemotePortKey, Endpoint(port))];
      InsertNew([], RemotePortKey, Endpoint(port));
      var s := SetValueNoKeyCheck(reply, RemotePortKey, Endpoint(port));
    }
    assert reply.payload == Dictionary(first) && reply.size == |first|;
    if seqid != 0 {
      InsertNew(first, SeqIdKey, UInt64(seqid));
      var s := SetValueNoKeyCheck(reply, SeqIdKey, UInt64(seqid));
    }
  }

  /** `xpc_dictionary_create_reply` as written: NULL unless the original
      came off the wire; otherwise the remote port and sequence number are
      written through `xpc_dictionary_set_value`, whose reserved-key check
      aborts on both. `insertRight` is the answer of
      `mach_port_insert_right`. */
  method CreateReplyAsWritten(original: Object?, insertRight: bool) returns (r: Outcome<Option<Object>>)
    requires Shaped(original)
    ensures original == null ==> r.Abort?
    ensures original != null && !HasFlag(original.flags, FromWireFlag) ==> r == Ret(None)
    ensures (original != null && HasFlag(original.flags, FromWireFlag) && original.kind == TDictionary
             && (CopyMachSend(original, RemotePortKey, insertRight) != Ret(0)
                 || GetUInt64(original, SeqIdKey) != Ret(0))) ==> r.Abort?
    ensures r.Ret? && r.value.Some? ==> fresh(r.value.value) && r.value.value.Valid()
                                        && r.value.value.payload == Dictionary([])
  {
    if original == null {
      return Abort;
    }
    if !HasFlag(original.flags, FromWireFlag) {
      return Ret(None);
    }
    var made := DictionaryCreate([], []);
    if made.Abort? {
      return Abort;
    }
    var reply := made.value;
    var rport := CopyMachSend(original, RemotePortKey, insertRight);
    if rport.Abort? {
      return Abort;
    }
    if rport.value != 0 {
      var s := SetMachSend(reply, RemotePortKey, rport.value);
      ImplKeysReserved();
      assert s.Abort?;
      return Abort;
    }
    var seqid := GetUInt64(original, SeqIdKey);
    if seqid.value != 0 {
      var s := SetUInt64(reply, SeqIdKey, seqid.value);
      ImplKeysReserved();
      assert s.Abort?;
      return Abort;
    }
    assert InsertAll([], []) == [];
    r := Ret(Some(reply));
  }

  /** `xpc_dictionary_create_reply` corrected: the two reserved keys are
      written with the unchecked insertion, as the receive path does. */
  method CreateReply(original: Object?, insertRight: bool) returns (r: Outcome<Option<Object>>)
    requires Shaped(original)
    ensures original == null ==> r.Abort?
    ensures original != null && !HasFlag(original.flags, FromWireFlag) ==> r == Ret(None)
    ensures original != null && HasFlag(original.flags, FromWireFlag) ==>
              (r.Abort? <==> CopyMachSend(original, RemotePortKey, insertRight).Abort?) && (r.Ret? ==> r.value.Some?)
    ensures r.Ret? && r.value.Some? ==>
              fresh(r.value.value) && r.value.value.Valid() && r.value.value.kind == TDictionary
              && r.value.value.payload == Dictionary(ReplyEntries(CopyMachSend(original, RemotePortKey, insertRight).value,
                                                                  GetUInt64(original, SeqIdKey).value))
  {
    if original == null {
      return Abort;
    }
    if !HasFlag(original.flags, FromWireFlag) {
      return Ret(None);
    }
    var rport := CopyMachSend(original, RemotePortKey, insertRight);
    if rport.Abort? {
      return Abort;
    }
    var seqid := GetUInt64(original, SeqIdKey);
    var reply := new Object.PrimCreateFlags(TDictionary, Dictionary([]), 0, 0);
    FillReply(reply, rport.value, seqid.value);
    r := Ret(Some(reply));
  }
}
