/** `xpc_misc.c`: error strings, the transport's port bookkeeping, the
    tagging of received dictionaries, the reply path and the destruction of
    containers. Mach messaging (`mach_msg`, `mach_msg_send`,
    `mach_port_insert_right`, `mig_deallocate`) is replaced by parameters. */
module XpcMisc {
  import opened Common
  import opened XpcType
  import opened XpcDictionary
  import XpcNv
  import Nv = NvList
  import Codec = NvCodec

  // ---------------------------------------------------------------------
  // xpc_strerror
  // ---------------------------------------------------------------------

  const ErrorTable: seq<string> := ["No Error Found", "No Memory", "Invalid Argument", "No Such Process"]

  /** `xpc_strerror`, with the bound `EXMAX` as a parameter. A code inside
      the bound but past the four-entry table reads outside it, which the
      model turns into an abort. */
  function StrError(error: int, exmax: int): (r: Outcome<string>)
    ensures error < 0 || error > exmax ==> r == Ret("BAD ERROR")
    ensures 0 <= error <= exmax && error < |ErrorTable| ==> r == Ret(ErrorTable[error])
  {
    if error > exmax || error < 0 then Ret("BAD ERROR")
    else if error < |ErrorTable| then Ret(ErrorTable[error])
    else Abort
  }

  /** The lookup stays inside the table for every code exactly when the
      bound is at most 3. */
  lemma StrErrorSafe(exmax: int)
    ensures exmax <= 3 ==> forall e :: StrError(e, exmax).Ret?
    ensures exmax >= 4 ==> StrError(4, exmax).Abort?
  {
  }

  // ---------------------------------------------------------------------
  // The port serializer of xpc_pipe_send / xpc_pipe_routine_reply
  // ---------------------------------------------------------------------

  /** The table starts with room for 16 ports. */
  const InitialPortSlots := 16

  /** `struct xpc_port_set`: the ports handed to the serializer block, in
      the order of their indices. */
  class PortSet {
    var buffer: array<Port>
    var bufferSize: int
    var portCount: int

    ghost predicate Valid()
      reads this
    {
      buffer.Length == bufferSize && 1 <= bufferSize && 0 <= portCount <= bufferSize
    }

    /** The ports serialized so far; port `i` went out under index `i`. */
    function Ports(): seq<Port>
      reads this, buffer
      requires Valid()
    {
      buffer[..portCount]
    }

    /** `calloc(16, sizeof(mach_port_t))`, size 16, count 0. */
    constructor ()
      ensures Valid() && Ports() == [] && bufferSize == InitialPortSlots && fresh(buffer)
    {
      buffer := new Port[InitialPortSlots];
      bufferSize := InitialPortSlots;
      portCount := 0;
    }

    /** The table doubled into a new buffer holding the old ports. */
    method Grow()
      requires Valid()
      modifies this
      ensures Valid() && fresh(buffer) && bufferSize == 2 * old(bufferSize)
      ensures portCount == old(portCount) && Ports() == old(Ports())
    {
      var nb := new Port[2 * bufferSize];
      forall i | 0 <= i < buffer.Length {
        nb[i] := buffer[i];
      }
      assert nb[..portCount] == buffer[..portCount];
      buffer := nb;
      bufferSize := 2 * bufferSize;
    }

    /** The serializer block as written: the table grows only when the
        index exceeds its size, so the index equal to the size writes one
        slot past the end (the model aborts there). `insertRight` is the
        answer of `mach_port_insert_right`, which `xpc_pipe_send` asserts. */
    method SerializeAsWritten(port: Port, insertRight: bool) returns (r: Outcome<int>)
      requires Valid()
      modifies this, buffer
      ensures r.Abort? <==> !insertRight || old(portCount) == old(bufferSize)
      ensures r.Ret? ==> Valid() && r.value == old(portCount) && Ports() == old(Ports()) + [port]
      ensures r.Ret? ==> buffer == old(buffer) && bufferSize == old(bufferSize)
    {
      // The growth test `index > bufferSize` cannot succeed before the
      // write at `index == bufferSize` has gone past the end.
      var index := portCount;
      if !insertRight || index >= buffer.Length {
        return Abort;
      }
      portCount := portCount + 1;
      buffer[index] := port;
      r := Ret(index);
    }

    /** The serializer block with the growth test corrected to `>=`: the
        port goes out under the next index, at the end of the table. */
    method Serialize(port: Port, insertRight: bool) returns (r: Outcome<int>)
      requires Valid()
      modifies this, buffer
      ensures r.Abort? <==> !insertRight
      ensures r.Ret? ==> Valid() && r.value == old(portCount) && Ports() == old(Ports()) + [port]
      ensures buffer == old(buffer) || fresh(buffer)
    {
      var index := portCount;
      if index >= bufferSize {
        Grow();
      }
      if !insertRight {
        return Abort;
      }
      portCount := portCount + 1;
      buffer[index] := port;
      r := Ret(index);
    }
  }

  /** The receive side's answer for a port index. */
  datatype PortLookup = Found(port: Port) | Refused | PastEnd

  /** The deserializer block as written. Its assertion compares the
      `int64_t` index with a `size_t` count, so the index is converted to
      unsigned first: a negative index becomes at least 2^63 and is refused,
      while `index <= count` admits `index == count`, which reads past the
      received ports. The count is a byte size divided by
      `sizeof(mach_port_t)`, so it stays below 2^62. */
  function DeserializeAsWritten(ports: seq<Port>, index: int64): (r: PortLookup)
    requires |ports| < 0x4000_0000_0000_0000
    ensures index < 0 || index > |ports| ==> r == Refused
    ensures 0 <= index < |ports| ==> r == Found(ports[index])
    ensures r == PastEnd <==> index == |ports|
  {
    var unsigned: uint64 := if index < 0 then index + 0x1_0000_0000_0000_0000 else index;
    if unsigned > |ports| then Refused
    else if index < |ports| then Found(ports[index])
    else PastEnd
  }

  /** The deserializer block with the bound corrected to `<`. */
  function Deserialize(ports: seq<Port>, index: int): (r: PortLookup)
    ensures r != PastEnd
    ensures r.Found? <==> 0 <= index < |ports|
    ensures r.Found? ==> r.port == ports[index]
  {
    if 0 <= index < |ports| then Found(ports[index]) else Refused
  }

  /** The index equal to the number of ports passes the check as written. */
  lemma DeserializeAsWrittenPastEnd(ports: seq<Port>)
    requires |ports| < 0x4000_0000_0000_0000
    ensures DeserializeAsWritten(ports, |ports|) == PastEnd
  {
  }

  /** Serializing ports in first-use order: port `i` gets index `i`, the
      count is the number of ports, and the corrected receive side gives
      each index back its port. */
  method SerializeAll(ports: seq<Port>) returns (ps: PortSet)
    ensures fresh(ps) && ps.Valid() && ps.Ports() == ports && ps.portCount == |ports|
    ensures forall i :: 0 <= i < |ports| ==> Deserialize(ps.Ports(), i) == Found(ports[i])
  {
    ps := new PortSet();
    var i := 0;
    while i < |ports|
      invariant 0 <= i <= |ports|
      invariant ps.Valid() && ps.Ports() == ports[..i] && fresh(ps) && fresh(ps.buffer)
    {
      var r := ps.Serialize(ports[i], true);
      assert ports[..i + 1] == ports[..i] + [ports[i]];
      i := i + 1;
    }
    assert ports[..i] == ports;
  }

  /** As written, the seventeenth port writes past a table of sixteen. */
  method AsWrittenSeventeenthPort() returns (r: Outcome<int>)
    ensures r.Abort?
  {
    var ps := new PortSet();
    var i := 0;
    while i < InitialPortSlots
      invariant 0 <= i <= InitialPortSlots
      invariant ps.Valid() && ps.portCount == i && ps.bufferSize == InitialPortSlots && fresh(ps.buffer)
    {
      var s := ps.SerializeAsWritten(0, true);
      i := i + 1;
    }
    r := ps.SerializeAsWritten(0, true);
  }

  // ---------------------------------------------------------------------
  // Tagging received dictionaries
  // ---------------------------------------------------------------------

  /** `xo_flags |= _XPC_FROM_WIRE`: bit 0 is set and every other bit kept. */
  function SetFromWire(flags: uint16): (r: uint16)
    ensures HasFlag(r, FromWireFlag) && r / 2 == flags / 2
    ensures HasFlag(r, StaticObjectFlag) <==> HasFlag(flags, StaticObjectFlag)
  {
    if HasFlag(flags, FromWireFlag) then flags else flags + 1
  }

  /** The tail of `xpc_pipe_receive`: the decoded dictionary gets the audit
      token, the sender's port under the remote-port key and the sequence
      number under the sequence key, both through
      `xpc_dictionary_set_value_nokeycheck`, and the from-wire flag. NULL
      aborts; so does anything but a dictionary. */
  method TagReceived(xo: Object?, remote: Port, id: uint64) returns (r: Outcome<()>)
    requires Shaped(xo)
    modifies xo
    ensures r.Abort? <==> old(Mismatch(xo, TDictionary))
    ensures r.Ret? ==>
      old(xo.payload).Dictionary? && xo.payload == Dictionary(Insert(Insert(old(xo.payload.entries), RemotePortKey, Endpoint(remote)), SeqIdKey, UInt64(id)))
      && xo.flags == SetFromWire(old(xo.flags)) && xo.hasAuditToken && xo.kind == TDictionary
      && xo.refcnt == old(xo.refcnt)
      && xo.size == old(xo.size) + (if Lookup(old(xo.payload.entries), RemotePortKey).None? then 1 else 0)
                   + (if Lookup(Insert(old(xo.payload.entries), RemotePortKey, Endpoint(remote)), SeqIdKey).None? then 1 else 0)
    ensures r.Ret? && old(xo.payload).Dictionary? && UniqueKeys(old(xo.payload.entries)) ==>
      GetUInt64(xo, SeqIdKey) == Ret(id) && CopyMachSend(xo, RemotePortKey, true) == Ret(remote)
  {
    if xo == null {
      return Abort;
    }
    ImplKeysReserved();
    ghost var es := if xo.payload.Dictionary? then xo.payload.entries else [];
    xo.hasAuditToken := true;
    r := SetValueNoKeyCheck(xo, RemotePortKey, Endpoint(remote));
    if r.Abort? {
      return;
    }
    r := SetValueNoKeyCheck(xo, SeqIdKey, UInt64(id));
    xo.flags := SetFromWire(xo.flags);
    if UniqueKeys(es) {
      TaggedReadBack(xo, es, remote, id);
    }
  }

  /** The two tags read back through the typed getters. */
  lemma TaggedReadBack(xo: Object, es: seq<Entry>, remote: Port, id: uint64)
    requires xo.kind == TDictionary && UniqueKeys(es)
    requires xo.payload == Dictionary(Insert(Insert(es, RemotePortKey, Endpoint(remote)), SeqIdKey, UInt64(id)))
    ensures GetUInt64(xo, SeqIdKey) == Ret(id) && CopyMachSend(xo, RemotePortKey, true) == Ret(remote)
  {
    ImplKeysReserved();
    var es1 := Insert(es, RemotePortKey, Endpoint(remote));
    InsertUnique(es, RemotePortKey, Endpoint(remote));
    InsertLookup(es, RemotePortKey, Endpoint(remote));
    SetThenGet(xo, es1, SeqIdKey, UInt64(id));
  }

  /** The tail of `xpc_pipe_try_receive` as written: it tags through
      `xpc_dictionary_set_mach_send`, whose reserved-key check aborts on
      the remote-port key whatever was received. */
  method TryReceiveTagAsWritten(xo: Object?, remote: Port, id: uint64) returns (r: Outcome<()>)
    requires Shaped(xo)
    modifies xo
    ensures r.Abort?
  {
    if xo == null {
      return Abort;
    }
    xo.hasAuditToken := true;
    ImplKeysReserved();
    // The sequence number and the flag would follow; the call above never
    // returns.
    r := SetMachSend(xo, RemotePortKey, remote);
  }

  // ---------------------------------------------------------------------
  // xpc_pipe_routine_reply
  // ---------------------------------------------------------------------

  const KernSuccess := 0
  const KernInvalidTask := 16
  const EPIPE := 32

  /** The error a failed `mach_msg_send` turns into. */
  function SendError(kr: int): (e: int)
    ensures e == 0 <==> kr == KernSuccess
  {
    if kr == KernSuccess then 0 else if kr == KernInvalidTask then EPIPE else EINVAL
  }

  /** `xpc_pipe_routine_reply`: the reply must be a dictionary that
      translates; `nvlist_size` and `nvlist_pack_buffer` then abort on a
      list with an error set anywhere (a duplicate key) or nested three
      deep; the reply must carry a remote port and a non-zero sequence
      number, and either missing aborts. `lay` is the platform's record
      layout and `kr` what `mach_msg_send` answers. */
  method RoutineReply(xo: Object?, lay: Codec.Layout, ser: Port -> int64, insertRight: bool, kr: int) returns (r: Outcome<int>)
    requires Shaped(xo)
    ensures r.Abort? <==>
      Mismatch(xo, TDictionary) || XpcNv.ToNv(xo.payload, ser).Abort?
      || !XpcNv.ErrorFree(XpcNv.ToNv(xo.payload, ser).value)
      || Nv.Height(XpcNv.ToNv(xo.payload, ser).value) >= 3
      || CopyMachSend(xo, RemotePortKey, insertRight) in {Abort, Ret(0)}
      || GetUInt64(xo, SeqIdKey) == Ret(0)
    ensures r.Ret? ==> r.value == SendError(kr)
  {
    if xo == null || xo.kind != TDictionary {
      return Abort;
    }
    var nv := XpcNv.ToNv(xo.payload, ser);
    if nv.Abort? {
      return Abort;
    }
    if !XpcNv.ErrorFree(nv.value) {
      // nvlist_size asserts that no list it walks has its error set
      return Abort;
    }
    XpcNv.ToNvFormed(xo.payload, ser);
    XpcNv.FormedPacks(nv.value);
    var size := Codec.SizeOf(lay, nv.value);
    // a NULL buffer (EINVAL) needs an error or a descriptor: neither is here
    var packed, _ := Codec.PackBuffer(lay, nv.value, None);
    if packed.Abort? {
      return Abort;
    }
    var rport := CopyMachSend(xo, RemotePortKey, insertRight);
    if rport.Abort? || rport.value == 0 {
      return Abort;
    }
    var id := GetUInt64(xo, SeqIdKey);
    if id.value == 0 {
      return Abort;
    }
    r := Ret(SendError(kr));
  }

  /** The translation of the reply `xpc_dictionary_create_reply` builds: a
      remote-port wrapper then the sequence number, no error, height one. */
  lemma ReplyTranslates(remote: Port, id: uint64, ser: Port -> int64)
    requires remote != 0 && id != 0
    ensures XpcNv.ToNv(Dictionary(ReplyEntries(remote, id)), ser).Ret?
    ensures XpcNv.ErrorFree(XpcNv.ToNv(Dictionary(ReplyEntries(remote, id)), ser).value)
    ensures Nv.Height(XpcNv.ToNv(Dictionary(ReplyEntries(remote, id)), ser).value) == 1
  {
    ImplKeysReserved();
    XpcNv.WrapperKeysReserved();
    var v := Dictionary(ReplyEntries(remote, id));
    var w := XpcNv.PortWrapper("endpoint", ser(remote));
    var p1 := Nv.NvPair(Nv.NvTypeNvlist, RemotePortKey, Nv.ListValue(w));
    var p2 := Nv.NvPair(Nv.NvTypeUInt64, SeqIdKey, Nv.NumberValue(id));
    var e := XpcNv.EmptyList(Nv.NvTypeNvlistDictionary);
    assert v.entries == [Entry(RemotePortKey, Endpoint(remote)), Entry(SeqIdKey, UInt64(id))];
    assert Nv.Moved(e, p1) == e.(pairs := [p1]);
    assert !Nv.Matches(false, p1, Nv.NvTypeNone, SeqIdKey);
    assert Nv.Moved(e.(pairs := [p1]), p2) == e.(pairs := [p1, p2]);
    var l := e.(pairs := [p1, p2]);
    assert XpcNv.EntriesToNv(v, 2, l, ser) == Ret(l);
    assert XpcNv.PairFor(SeqIdKey, UInt64(id), ser) == Ret(p2);
    assert XpcNv.EntriesToNv(v, 1, e.(pairs := [p1]), ser) == Ret(l);
    assert XpcNv.PairFor(RemotePortKey, Endpoint(remote), ser) == Ret(p1);
    assert XpcNv.ToNv(v, ser) == Ret(l);
    XpcNv.WrapperFormed("endpoint", XpcNv.PortIndexKey, Nv.NvTypeInt64, Nv.NumberValue(XpcNv.Unsigned(ser(remote))));
    assert XpcNv.ErrorFreeData(l.pairs[0].data) && XpcNv.ErrorFreeData(l.pairs[1].data);
    assert Nv.HeightFrom(l, 1) == 0;
  }

  /** `xpc_pipe_routine_reply` accepts the reply `xpc_dictionary_create_reply`
      builds for a non-zero port and sequence number. */
  method ReplyAccepted(reply: Object, lay: Codec.Layout, remote: Port, id: uint64, ser: Port -> int64, kr: int) returns (r: Outcome<int>)
    requires reply.kind == TDictionary && reply.payload == Dictionary(ReplyEntries(remote, id))
    requires remote != 0 && id != 0
    ensures r == Ret(SendError(kr))
  {
    ImplKeysReserved();
    ReplyTranslates(remote, id, ser);
    r := RoutineReply(reply, lay, ser, true, kr);
  }

  /** A request received with a non-zero port and sequence number can be
      answered: the tagged dictionary yields a reply, and sending that reply
      reports what the send answered. */
  method ReceiveThenReply(xo: Object, lay: Codec.Layout, remote: Port, id: uint64, ser: Port -> int64, kr: int) returns (r: Outcome<int>)
    requires xo.kind == TDictionary && xo.payload.Dictionary? && UniqueKeys(xo.payload.entries)
    requires remote != 0 && id != 0
    modifies xo
    ensures r == Ret(SendError(kr))
  {
    var t := TagReceived(xo, remote, id);
    assert HasFlag(xo.flags, FromWireFlag);
    var made := CreateReply(xo, true);
    assert made.Ret?;
    r := ReplyAccepted(made.value.value, lay, remote, id, ser, kr);
  }

  // ---------------------------------------------------------------------
  // Destruction
  // ---------------------------------------------------------------------

  function Values(es: seq<Entry>): (vs: seq<Value>)
    ensures |vs| == |es| && forall i :: 0 <= i < |es| ==> vs[i] == es[i].value
  {
    if es == [] then [] else [es[0].value] + Values(es[1..])
  }

  /** `xpc_dictionary_destroy`: each pair is taken off the head and its
      value released, so every value is released once, in order. */
  method DictionaryDestroy(xo: Object) returns (released: seq<Value>)
    requires xo.payload.Dictionary?
    modifies xo
    ensures released == Values(old(xo.payload.entries))
    ensures xo.payload == Dictionary([])
    ensures xo.kind == old(xo.kind) && xo.flags == old(xo.flags) && xo.size == old(xo.size)
    ensures xo.refcnt == old(xo.refcnt) && xo.hasAuditToken == old(xo.hasAuditToken)
  {
    released := [];
    while xo.payload.entries != []
      invariant xo.payload.Dictionary?
      invariant released + Values(xo.payload.entries) == Values(old(xo.payload.entries))
      invariant xo.kind == old(xo.kind) && xo.flags == old(xo.flags) && xo.size == old(xo.size)
      invariant xo.refcnt == old(xo.refcnt) && xo.hasAuditToken == old(xo.hasAuditToken)
      decreases |xo.payload.entries|
    {
      var es := xo.payload.entries;
      assert Values(es) == [es[0].value] + Values(es[1..]);
      xo.payload := Dictionary(es[1..]);
      released := released + [es[0].value];
    }
  }

  /** `xpc_array_destroy`: each element is taken off the head and
      released, once, in order. */
  method ArrayDestroy(xo: Object) returns (released: seq<Value>)
    requires xo.payload.Array?
    modifies xo
    ensures released == old(xo.payload.items)
    ensures xo.payload == Array([])
    ensures xo.kind == old(xo.kind) && xo.flags == old(xo.flags) && xo.size == old(xo.size)
    ensures xo.refcnt == old(xo.refcnt) && xo.hasAuditToken == old(xo.hasAuditToken)
  {
    released := [];
    while xo.payload.items != []
      invariant xo.payload.Array?
      invariant released + xo.payload.items == old(xo.payload.items)
      invariant xo.kind == old(xo.kind) && xo.flags == old(xo.flags) && xo.size == old(xo.size)
      invariant xo.refcnt == old(xo.refcnt) && xo.hasAuditToken == old(xo.hasAuditToken)
      decreases |xo.payload.items|
    {
      var xs := xo.payload.items;
      xo.payload := Array(xs[1..]);
      released := released + [xs[0]];
    }
  }

  /** Heap storage owned by an object besides its children. */
  datatype Storage = StringBytes | DataBytes | AuditToken

  /** `xpc_object_destroy`: a dictionary or array releases its children, a
      string or data object frees its bytes, and an audit token is freed. */
  method ObjectDestroy(xo: Object) returns (released: seq<Value>, freed: seq<Storage>)
    requires xo.Valid()
    modifies xo
    ensures old(xo.kind) == TDictionary ==> released == Values(old(xo.payload.entries))
    ensures old(xo.kind) == TArray ==> released == old(xo.payload.items)
    ensures old(xo.kind) != TDictionary && old(xo.kind) != TArray ==> released == [] && xo.payload == old(xo.payload)
    ensures StringBytes in freed <==> old(xo.kind) == TString
    ensures DataBytes in freed <==> old(xo.kind) == TData
    ensures AuditToken in freed <==> old(xo.hasAuditToken)
    ensures !xo.hasAuditToken
  {
    released, freed := [], [];
    if xo.kind == TDictionary {
      released := DictionaryDestroy(xo);
    }
    if xo.kind == TArray {
      released := ArrayDestroy(xo);
    }
    if xo.kind == TString {
      freed := freed + [StringBytes];
    }
    if xo.kind == TData {
      freed := freed + [DataBytes];
    }
    if xo.hasAuditToken {
      freed := freed + [AuditToken];
      xo.hasAuditToken := false;
    }
  }
}
