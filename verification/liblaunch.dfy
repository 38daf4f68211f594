/** The launchd client library (liblaunch.c) over XPC objects: byte-order
    conversion of wire fields, the choice of socket, the mapping between
    launch data types and XPC types, and the framing of messages on the
    socket (`launchd_msg_send`, `launchd_msg_recv`). The socket calls
    (`sendmsg`, `recvmsg`) are replaced by their results, passed in as
    parameters; `launch_data_pack` is modelled down to the packed records,
    whose byte rendering is given with the message. */
module LibLaunch {
  import opened Common
  import opened XpcType
  import Codec = NvCodec
  import Nv = NvList
  import XpcNv

  // ---------------------------------------------------------------------
  // host2wire / big2wire
  // ---------------------------------------------------------------------

  predicate SwapWidth(width: nat) {
    width == 1 || width == 2 || width == 4 || width == 8
  }

  /** `host2wire(x)` for an integer of `width` bytes: its representation in
      little-endian order; one byte is left alone. Any other width is the
      build error `__OSBogusByteSwap__`, modelled as an abort. */
  function HostToWire(x: nat, width: nat): (r: Outcome<seq<byte>>)
    ensures r.Ret? <==> SwapWidth(width)
    ensures r.Ret? ==> |r.value| == width
  {
    if SwapWidth(width) then Ret(Codec.LeBytes(x, width)) else Abort
  }

  /** `big2wire(x)`: the integer whose little-endian representation is `b`. */
  function WireToHost(b: seq<byte>): (r: Outcome<nat>)
    ensures r.Ret? <==> SwapWidth(|b|)
    ensures r.Ret? ==> r.value < Codec.Pow256(|b|)
  {
    Codec.LeValueBound(b);
    if SwapWidth(|b|) then Ret(Codec.LeValue(b)) else Abort
  }

  /** Converting to the wire and back gives the value back, for every width
      the macros accept. */
  lemma WireRoundTrip(x: nat, width: nat)
    requires SwapWidth(width) && x < Codec.Pow256(width)
    ensures WireToHost(HostToWire(x, width).value) == Ret(x)
  {
    Codec.LeRoundTrip(x, width);
  }

  /** Converting wire bytes to the host and back gives the same bytes. */
  lemma HostRoundTrip(b: seq<byte>)
    requires SwapWidth(|b|)
    ensures HostToWire(WireToHost(b).value, |b|) == Ret(b)
  {
    Codec.LeBytesOfValue(b);
  }

  // ---------------------------------------------------------------------
  // launch_data_alloc / launch_data_get_type
  // ---------------------------------------------------------------------

  /** `launch_data_type_t`. launch.h is not part of this model: the types
      are named, not numbered. */
  datatype LaunchType =
    | LDictionary | LArray | LFd | LInteger | LReal | LBool | LString
    | LOpaque | LMachPort | LErrno

  /** `launch_data_alloc`: the initial value of the object made for each
      type; a descriptor or a Mach port can no longer be made. */
  function Alloc(t: LaunchType): (r: Outcome<Value>)
    ensures r.Abort? <==> t == LFd || t == LMachPort
    ensures r.Ret? && r.value.Dictionary? ==> r.value.entries == []
    ensures r.Ret? && r.value.Array? ==> r.value.items == []
  {
    match t
    case LDictionary => Ret(Dictionary([]))
    case LArray => Ret(Array([]))
    case LOpaque => Ret(Data([]))
    case LString => Ret(String(""))
    case LBool => Ret(Bool(false))
    case LInteger => Ret(Int64(0))
    case LReal => Ret(Double(0))
    case LErrno => Ret(UInt64(0))
    case _ => Abort
  }

  /** `launch_data_get_type` as written: nine XPC types have a launch type,
      everything else aborts, strings and unsigned integers included. */
  function GetTypeAsWritten(k: Kind): (r: Outcome<LaunchType>)
    ensures r.Abort? <==> !(k in {TDictionary, TArray, TFd, TInt64, TDouble, TBool, TData, TError, TEndpoint})
  {
    match k
    case TDictionary => Ret(LDictionary)
    case TArray => Ret(LArray)
    case TFd => Ret(LFd)
    case TInt64 => Ret(LInteger)
    case TDouble => Ret(LReal)
    case TBool => Ret(LBool)
    case TData => Ret(LOpaque)
    case TError => Ret(LErrno)
    case TEndpoint => Ret(LMachPort)
    case _ => Abort
  }

  /** A string made by `launch_data_alloc` has no type as written, nor has
      the unsigned integer it makes for an errno. */
  lemma AsWrittenAllocTypeless()
    ensures GetTypeAsWritten(KindOf(Alloc(LString).value)).Abort?
    ensures GetTypeAsWritten(KindOf(Alloc(LErrno).value)).Abort?
  {
  }

  /** `launch_data_get_type` with the two missing cases added: a string is
      a string, and the unsigned integer `launch_data_alloc` makes for an
      errno is an errno. */
  function GetType(k: Kind): (r: Outcome<LaunchType>)
    ensures GetTypeAsWritten(k).Ret? ==> r == GetTypeAsWritten(k)
    ensures r.Abort? <==> GetTypeAsWritten(k).Abort? && k != TString && k != TUInt64
  {
    match k
    case TString => Ret(LString)
    case TUInt64 => Ret(LErrno)
    case _ => GetTypeAsWritten(k)
  }

  /** Every object `launch_data_alloc` makes reports the type it was made
      for. */
  lemma AllocTypeRoundTrip(t: LaunchType)
    ensures Alloc(t).Ret? ==> GetType(KindOf(Alloc(t).value)) == Ret(t)
  {
  }

  // ---------------------------------------------------------------------
  // launch_data_array_pop_first
  // ---------------------------------------------------------------------

  /** `launch_data_array_pop_first`: a new array receives every element
      after the first, in order, through `xpc_array_apply`. The input is
      only released. xpc_array.c is not part of this model, so the input
      must be an array. */
  method PopFirst(where: Object) returns (copy: Object)
    requires where.kind == TArray && where.payload.Array?
    ensures fresh(copy) && copy.kind == TArray
    ensures copy.payload == Array(if where.payload.items == [] then [] else where.payload.items[1..])
  {
    copy := new Object.PrimCreateFlags(TArray, Array([]), 0, 0);
    var items := where.payload.items;
    var first := true;
    var index := 0;
    while index < |items|
      invariant 0 <= index <= |items|
      invariant first <==> index == 0
      invariant copy.kind == TArray
      invariant copy.payload == Array(if index == 0 then [] else items[1..index])
    {
      if first {
        first := false;
      } else {
        assert items[1..index + 1] == items[1..index] + [items[index]];
        copy.payload := Array(copy.payload.items + [items[index]]);
      }
      index := index + 1;
    }
  }

  // ---------------------------------------------------------------------
  // launch_data_pack
  // ---------------------------------------------------------------------

  /** `launch_data_pack` as written: the packed bytes are copied only when
      they are at least as long as the buffer, so a message that fits is
      not copied at all and one longer than the buffer overflows it (an
      abort here). The buffer's new contents come back with the size. */
  function PackAsWritten(packed: seq<byte>, buffer: seq<byte>): (r: Outcome<(nat, seq<byte>)>)
    ensures r.Abort? <==> |packed| > |buffer|
    ensures r.Ret? ==> r.value.0 == |packed|
    ensures r.Ret? && |packed| < |buffer| ==> r.value.1 == buffer
  {
    if |packed| > |buffer| then Abort
    else if |packed| >= |buffer| then Ret((|packed|, packed))
    else Ret((|packed|, buffer))
  }

  /** A message shorter than the buffer does not reach it as written. */
  lemma AsWrittenPackLosesMessage(packed: seq<byte>, buffer: seq<byte>)
    requires |packed| < |buffer| && buffer[..|packed|] != packed
    ensures PackAsWritten(packed, buffer).Ret?
    ensures PackAsWritten(packed, buffer).value.1[..|packed|] != packed
  {
  }

  /** `launch_data_pack` with the test corrected to a fits-check: bytes that
      fit are copied to the front of the buffer; the size is returned
      either way. */
  function Pack(packed: seq<byte>, buffer: seq<byte>): (r: (nat, seq<byte>))
    ensures r.0 == |packed| && |r.1| == |buffer|
    ensures |packed| <= |buffer| ==> r.1[..|packed|] == packed && r.1[|packed|..] == buffer[|packed|..]
    ensures |packed| > |buffer| ==> r.1 == buffer
  {
    if |packed| <= |buffer| then (|packed|, packed + buffer[|packed|..]) else (|packed|, buffer)
  }

  /** The port serializer `launch_data_pack` hands to `xpc2nv` reports an
      API misuse, which aborts; it is never consulted for a port-free
      value, where any serializer gives the same result
      (`XpcNv.PortFreeIgnoresSerializer`), so this one stands for it. */
  const NoPorts: Port -> int64 := p => 0

  /** When `launch_data_pack` aborts instead of returning a size: the value
      holds a port (the serializer's misuse report); `xpc2nv` refuses it (a
      root that is not a container, shared memory, an error or a null
      inside); a list of the translation carries an error (a duplicate
      key: `nvlist_pack` leaves the size unset at the root, and
      `nvlist_ndescriptors` asserts below it); or the nesting reaches three
      levels, which `nvlist_ndescriptors` asserts against. */
  predicate PackAborts(v: Value) {
    !XpcNv.PortFree(v)
    || XpcNv.ToNv(v, NoPorts).Abort?
    || !XpcNv.ErrorFree(XpcNv.ToNv(v, NoPorts).value)
    || Nv.Height(XpcNv.ToNv(v, NoPorts).value) >= 3
  }

  /** `launch_data_pack` up to the copy into the buffer: the records
      `nvlist_pack` produces for the message, which occupy exactly the
      bytes `nvlist_size` counts. */
  method DataPack(lay: Codec.Layout, v: Value) returns (r: Outcome<seq<Codec.Tok>>)
    ensures r.Abort? <==> PackAborts(v)
    ensures r.Ret? ==> r.value == Codec.Pack(lay, XpcNv.ToNv(v, NoPorts).value)
    ensures r.Ret? ==> Codec.TokBytes(lay, r.value) == Codec.Size(lay, XpcNv.ToNv(v, NoPorts).value)
  {
    if !XpcNv.PortFree(v) {
      // xpc2nv reaches the port and calls the serializer, which aborts
      return Abort;
    }
    var nv := XpcNv.ToNv(v, NoPorts);
    if nv.Abort? {
      return Abort;
    }
    if nv.value.error != 0 {
      // nvlist_pack returns NULL without setting the size
      return Abort;
    }
    if !XpcNv.ErrorFree(nv.value) {
      // nvlist_ndescriptors asserts that every nested list is error-free
      return Abort;
    }
    XpcNv.ToNvFormed(v, NoPorts);
    XpcNv.FormedPacks(nv.value);
    var packed, _ := Codec.PackBuffer(lay, nv.value, None);
    if packed.Abort? {
      return Abort;
    }
    Codec.PackSize(lay, nv.value);
    r := Ret(packed.value.value);
  }

  /** A message holding a connection cannot be packed: the serializer
      reports a misuse. */
  lemma PortMessageAborts(key: string, p: Port)
    ensures PackAborts(Dictionary([Entry(key, Connection(p))]))
  {
    var v := Dictionary([Entry(key, Connection(p))]);
    assert !XpcNv.PortFree(v.entries[0].value);
  }

  // ---------------------------------------------------------------------
  // Message framing
  // ---------------------------------------------------------------------

  /** `LAUNCH_MSG_HEADER_MAGIC`. */
  const HeaderMagic: nat := 0xD2FE_A023_66B3_9A41
  /** `sizeof(struct launch_msg_header)`: two 64-bit fields. */
  const MsgHeaderSize: nat := 16
  /** The send buffer `launchd_msg_send` allocates for a new message. */
  const SendBufferSize: nat := 10 * 1024 * 1024

  /** `host2wire(LAUNCH_MSG_HEADER_MAGIC)`: the magic's bytes in
      little-endian order. */
  const MagicBytes: seq<byte> := [0x41, 0x9A, 0xB3, 0x66, 0x23, 0xA0, 0xFE, 0xD2]

  lemma MagicBytesValue()
    ensures Codec.LeValue(MagicBytes) == HeaderMagic
  {
  }

  /** The header of a message whose whole length, header included, is
      `len`: the magic and the length, each in little-endian order. */
  function MsgHeader(len: nat): (h: seq<byte>)
    ensures |h| == MsgHeaderSize
  {
    MagicBytes + Codec.Le64(len)
  }

  /** What `launchd_msg_send` puts on the socket for a payload. */
  function Frame(payload: seq<byte>): (f: seq<byte>)
    ensures |f| == MsgHeaderSize + |payload|
    ensures f[MsgHeaderSize..] == payload
  {
    MsgHeader(|payload| + MsgHeaderSize) + payload
  }

  /** The header fields of a frame read back as the magic and the frame's
      length. */
  lemma {:induction false} FrameHeader(payload: seq<byte>, rest: seq<byte>)
    requires |payload| + MsgHeaderSize < Codec.Two64
    ensures Codec.LeValue((Frame(payload) + rest)[..8]) == HeaderMagic
    ensures Codec.LeValue((Frame(payload) + rest)[8..16]) == |payload| + MsgHeaderSize
  {
    var len := |payload| + MsgHeaderSize;
    var a, b := MagicBytes, Codec.Le64(len);
    var f := Frame(payload) + rest;
    assert f == a + b + (payload + rest);
    assert f[..8] == a;
    assert f[8..16] == b;
    MagicBytesValue();
    Codec.Le64RoundTrip(len);
  }

  /** The answer of a `launchd_msg_*` call: 0, or -1 with `errno`. */
  datatype Status = Ok | Err(errno: int)

  /** What draining the receive buffer gives when the process survives it:
      the status returned, the messages handed to the callback in order,
      and the bytes left in the buffer. */
  datatype Drained = Drained(status: Status, delivered: seq<Value>, rest: seq<byte>)

  /** `launch_data_unpack(data, ...)`: `nvlist_unpack` first reads an
      nvlist header at the front of `data`, with no descriptors to hand;
      `nvlist_unpack_header` aborts when the header does not fit, fails its
      check or disagrees with the length. The records after the header are
      read and turned into an XPC object by `decode`, whose `None` is a
      NULL result. Record decoding belongs to nvpair.c, which is not part
      of this model. */
  function Unpack(data: seq<byte>, decode: seq<byte> -> Outcome<Option<Value>>): (r: Outcome<Option<Value>>)
    ensures r.Ret? ==> |data| >= Codec.HeaderSize && data[0] == Codec.HeaderMagic && r == decode(data)
  {
    if |data| < Codec.HeaderSize then Abort
    else match Codec.UnpackHeader(data[..Codec.HeaderSize], |data|, 0)
      case Abort => Abort
      case Ret(_) => decode(data)
  }

  /** A payload that starts with the header `nvlist_pack_header` writes for
      a list without descriptors, followed by the bytes it announces,
      passes the header checks and reaches the record reader. */
  lemma PackedPayloadUnpacks(l: Nv.Nvl, body: seq<byte>, decode: seq<byte> -> Outcome<Option<Value>>)
    requires Nv.Descriptors(l) == 0 && |body| < Codec.Two64
    ensures Unpack(Codec.HeaderOf(l, |body|) + body, decode) == decode(Codec.HeaderOf(l, |body|) + body)
  {
    var data := Codec.HeaderOf(l, |body|) + body;
    Codec.CheckHeaderRoundTrip(l, |body|);
    assert data[..Codec.HeaderSize] == Codec.HeaderOf(l, |body|);
  }

  /** The two defects of the receive path, each either as written or
      corrected: `payload` says whether the nvlist reader is handed the
      message's payload instead of the whole buffer, `consume` whether the
      whole message is removed instead of `data_offset` bytes. */
  datatype Fixes = Fixes(payload: bool, consume: bool)

  const RecvAsWritten: Fixes := Fixes(false, false)
  const RecvCorrected: Fixes := Fixes(true, true)

  /** What `launch_data_unpack` is handed for a message of length `len` at
      the front of `buf`: as written the whole buffer, header included;
      corrected the payload after the 16-byte header. */
  function Handed(fx: Fixes, buf: seq<byte>, len: nat): (data: seq<byte>)
    requires MsgHeaderSize <= len <= |buf|
  {
    if fx.payload then buf[MsgHeaderSize..len] else buf
  }

  /** How many bytes `launchd_msg_recv` removes after a message of length
      `len`: as written `data_offset`, which stays at the header size
      because `launch_data_unpack` never sets it; corrected, the length. */
  function Consumed(fx: Fixes, len: nat): nat {
    if fx.consume then len else MsgHeaderSize
  }

  /** Messages handed to the callback ahead of what draining the rest
      gives; an abort stays an abort. */
  function Prepend(ms: seq<Value>, next: Outcome<Drained>): (r: Outcome<Drained>)
    ensures ms == [] ==> r == next
  {
    match next
    case Abort => Abort
    case Ret(d) =>
      assert ms == [] ==> ms + d.delivered == d.delivered;
      Ret(Drained(d.status, ms + d.delivered, d.rest))
  }

  lemma PrependTwice(a: seq<Value>, b: seq<Value>, next: Outcome<Drained>)
    ensures Prepend(a, Prepend(b, next)) == Prepend(a + b, next)
  {
    if next.Ret? {
      Codec.Assoc(a, b, next.value.delivered);
    }
  }

  /** The loop of `launchd_msg_recv` over the receive buffer. Fewer bytes
      than a header, or than the header's length, is EAGAIN; a wrong magic,
      a length no longer than the header or a NULL from
      `launch_data_unpack` is EBADRPC; an abort in the nvlist reader ends
      the process. */
  function Drain(fx: Fixes, buf: seq<byte>, decode: seq<byte> -> Outcome<Option<Value>>): Outcome<Drained>
    decreases |buf|
  {
    if buf == [] then Ret(Drained(Ok, [], []))
    else if |buf| < MsgHeaderSize then Ret(Drained(Err(EAGAIN), [], buf))
    else
      var len := Codec.LeValue(buf[8..16]);
      if Codec.LeValue(buf[..8]) != HeaderMagic || len <= MsgHeaderSize then Ret(Drained(Err(EBADRPC), [], buf))
      else if |buf| < len then Ret(Drained(Err(EAGAIN), [], buf))
      else match Unpack(Handed(fx, buf, len), decode)
        case Abort => Abort
        case Ret(None) => Ret(Drained(Err(EBADRPC), [], buf))
        case Ret(Some(m)) => Prepend([m], Drain(fx, buf[Consumed(fx, len)..], decode))
  }

  /** When draining returns, it stops only on EAGAIN or EBADRPC, or on an
      empty buffer with nothing left over; what is left over is a suffix of
      the buffer. */
  lemma {:induction false} DrainOutcomes(fx: Fixes, buf: seq<byte>, decode: seq<byte> -> Outcome<Option<Value>>)
    ensures buf == [] ==> Drain(fx, buf, decode) == Ret(Drained(Ok, [], []))
    ensures var d := Drain(fx, buf, decode);
      d.Ret? ==>
        (d.value.status.Err? ==> d.value.status.errno == EAGAIN || d.value.status.errno == EBADRPC)
        && (d.value.status == Ok ==> d.value.rest == [])
        && |d.value.rest| <= |buf| && d.value.rest == buf[|buf| - |d.value.rest|..]
    decreases |buf|
  {
    if |buf| >= MsgHeaderSize {
      var len := Codec.LeValue(buf[8..16]);
      if Codec.LeValue(buf[..8]) == HeaderMagic && MsgHeaderSize < len <= |buf| {
        var u := Unpack(Handed(fx, buf, len), decode);
        if u.Ret? && u.value.Some? {
          var tail := buf[Consumed(fx, len)..];
          DrainOutcomes(fx, tail, decode);
          var d := Drain(fx, tail, decode);
          if d.Ret? {
            assert tail[|tail| - |d.value.rest|..] == buf[|buf| - |d.value.rest|..];
          }
        }
      }
    }
  }

  /** The first byte of the launch magic in little-endian order, 0x41, is
      never the nvlist magic 0x6c. */
  lemma MagicFirstByte(b: seq<byte>)
    requires |b| >= 8 && Codec.LeValue(b[..8]) == HeaderMagic
    ensures b[0] == 0x41 && b[0] != Codec.HeaderMagic
  {
    var h := b[..8];
    assert Codec.LeValue(h) == h[0] + 256 * Codec.LeValue(h[1..]);
    assert h[0] == HeaderMagic % 256;
  }

  /** As written the nvlist reader is handed the whole buffer, which starts
      with the launch magic and not with an nvlist header: every complete
      message at the front of the buffer aborts the process. */
  lemma AsWrittenAbortsOnMessage(fx: Fixes, buf: seq<byte>, decode: seq<byte> -> Outcome<Option<Value>>)
    requires !fx.payload
    requires |buf| >= MsgHeaderSize && Codec.LeValue(buf[..8]) == HeaderMagic
    requires MsgHeaderSize < Codec.LeValue(buf[8..16]) <= |buf|
    ensures Drain(fx, buf, decode) == Abort
  {
    MagicFirstByte(buf);
  }

  /** So a frame `launchd_msg_send` puts on the socket is never delivered
      as written. */
  lemma AsWrittenFrameAborts(payload: seq<byte>, rest: seq<byte>, decode: seq<byte> -> Outcome<Option<Value>>)
    requires 0 < |payload| && |payload| + MsgHeaderSize < Codec.Two64
    ensures Drain(RecvAsWritten, Frame(payload) + rest, decode) == Abort
  {
    FrameHeader(payload, rest);
    AsWrittenAbortsOnMessage(RecvAsWritten, Frame(payload) + rest, decode);
  }

  /** What one turn of the loop of `launchd_msg_recv` does with a
      non-empty receive buffer. */
  datatype Step = Stop(status: Status) | Halt | Next(msg: Value, rest: seq<byte>)

  /** One turn of the loop of `launchd_msg_recv`: it stops with EAGAIN or
      EBADRPC under the conditions `Drain` names, aborts where the nvlist
      reader does, or delivers the message at the front and drops the
      bytes it consumes. */
  function Front(fx: Fixes, buf: seq<byte>, decode: seq<byte> -> Outcome<Option<Value>>): (s: Step)
    requires buf != []
    ensures s.Stop? ==> Drain(fx, buf, decode) == Ret(Drained(s.status, [], buf))
    ensures s.Halt? ==> Drain(fx, buf, decode) == Abort
    ensures s.Next? ==> |s.rest| < |buf|
    ensures s.Next? ==> Drain(fx, buf, decode) == Prepend([s.msg], Drain(fx, s.rest, decode))
  {
    if |buf| < MsgHeaderSize then Stop(Err(EAGAIN))
    else
      var len := Codec.LeValue(buf[8..16]);
      if Codec.LeValue(buf[..8]) != HeaderMagic || len <= MsgHeaderSize then Stop(Err(EBADRPC))
      else if |buf| < len then Stop(Err(EAGAIN))
      else match Unpack(Handed(fx, buf, len), decode)
        case Abort => Halt
        case Ret(None) => Stop(Err(EBADRPC))
        case Ret(Some(m)) => Next(m, buf[Consumed(fx, len)..])
  }

  /** With both corrections, a complete frame at the front of the buffer
      whose payload the reader decodes is delivered and removed whole, and
      draining goes on with the bytes after it. */
  lemma FrameDrained(payload: seq<byte>, rest: seq<byte>, decode: seq<byte> -> Outcome<Option<Value>>, m: Value)
    requires 0 < |payload| && |payload| + MsgHeaderSize < Codec.Two64
    requires Unpack(payload, decode) == Ret(Some(m))
    ensures Drain(RecvCorrected, Frame(payload) + rest, decode) == Prepend([m], Drain(RecvCorrected, rest, decode))
  {
    var buf := Frame(payload) + rest;
    FrameHeader(payload, rest);
    assert buf[MsgHeaderSize..|payload| + MsgHeaderSize] == payload;
    assert buf[|payload| + MsgHeaderSize..] == rest;
  }

  /** A message packed from a list without descriptors, framed and
      received whole, is delivered when its records decode. */
  lemma PackedFrameDelivered(l: Nv.Nvl, body: seq<byte>, rest: seq<byte>,
                             decode: seq<byte> -> Outcome<Option<Value>>, m: Value)
    requires Nv.Descriptors(l) == 0 && Codec.HeaderSize + |body| + MsgHeaderSize < Codec.Two64
    requires decode(Codec.HeaderOf(l, |body|) + body) == Ret(Some(m))
    ensures Drain(RecvCorrected, Frame(Codec.HeaderOf(l, |body|) + body) + rest, decode)
         == Prepend([m], Drain(RecvCorrected, rest, decode))
  {
    PackedPayloadUnpacks(l, body, decode);
    FrameDrained(Codec.HeaderOf(l, |body|) + body, rest, decode, m);
  }

  /** With the payload handed over but the consumption as written, a
      message is delivered while its payload stays in the buffer, where its
      nvlist magic reads as a bad launch header: the call answers EBADRPC
      with the payload left over. With both corrections the buffer is
      emptied and the call answers 0. */
  lemma {:induction false} AsWrittenKeepsPayload(payload: seq<byte>, decode: seq<byte> -> Outcome<Option<Value>>, m: Value)
    requires |payload| + MsgHeaderSize < Codec.Two64
    requires Unpack(payload, decode) == Ret(Some(m))
    ensures Drain(Fixes(true, false), Frame(payload), decode) == Ret(Drained(Err(EBADRPC), [m], payload))
    ensures Drain(RecvCorrected, Frame(payload), decode) == Ret(Drained(Ok, [m], []))
  {
    var f := Frame(payload);
    FrameHeader(payload, []);
    assert f + [] == f;
    assert f[MsgHeaderSize..|payload| + MsgHeaderSize] == payload;
    assert f[MsgHeaderSize..] == payload;
    if Codec.LeValue(payload[..8]) == HeaderMagic {
      MagicFirstByte(payload);
    }
    var fx := Fixes(true, false);
    assert Drain(fx, payload, decode) == Ret(Drained(Err(EBADRPC), [], payload));
    assert Handed(fx, f, |payload| + MsgHeaderSize) == payload;
    assert Drain(fx, f, decode) == Prepend([m], Drain(fx, payload, decode));
    assert [m] + [] == [m];
    FrameDrained(payload, [], decode, m);
    assert Drain(RecvCorrected, [], decode) == Ret(Drained(Ok, [], []));
  }

  // ---------------------------------------------------------------------
  // The connection to launchd
  // ---------------------------------------------------------------------

  /** The socket `launchd_fdopen` settles on: the check-in descriptor when
      there is one or when the other is missing, the other one otherwise. */
  function ChooseFd(fd: int, cifd: int): (r: int)
    ensures cifd != -1 ==> r == cifd
    ensures cifd == -1 ==> r == fd
    ensures r == -1 <==> fd == -1 && cifd == -1
  {
    if fd == -1 || (fd != -1 && cifd != -1) then cifd else fd
  }

  /** `struct _launch`: the two descriptors, the choice between them and
      the pending send and receive bytes and descriptors. The lengths
      `sendlen`, `recvlen`, `sendfdcnt` and `recvfdcnt` are the lengths of
      the sequences. */
  class Launch {
    var sendbuf: seq<byte>
    var sendfds: seq<int>
    var recvbuf: seq<byte>
    var recvfds: seq<int>
    var useCheckin: bool
    var cifd: int
    var fd: int

    /** `launchd_getfd`. */
    function GetFd(): int
      reads this
    {
      if useCheckin then cifd else fd
    }

    /** `launchd_fdopen`: empty buffers and the socket `ChooseFd` picks.
        Allocation failure is not modelled. */
    constructor FdOpen(fd: int, cifd: int)
      ensures GetFd() == ChooseFd(fd, cifd)
      ensures this.fd == fd && this.cifd == cifd
      ensures sendbuf == [] && sendfds == [] && recvbuf == [] && recvfds == []
    {
      this.fd := fd;
      this.cifd := cifd;
      useCheckin := fd == -1 || (fd != -1 && cifd != -1);
      sendbuf, sendfds, recvbuf, recvfds := [], [], [], [];
    }

    /** `launchd_msg_send`. `msg` is the message, or None to push out what
        an earlier call left. The message is packed by `DataPack` under the
        record layout `lay`; `packed` is the byte rendering of those
        records, as long as they are. `sent` is the answer of `sendmsg` (-1
        with `ioErrno` on failure), `ctrlKept` whether it left the control
        length alone. The header goes out only with a new message; after a
        partial send the unsent bytes of the payload move to the front of
        the buffer and the call answers EAGAIN. */
    method MsgSend(lay: Codec.Layout, msg: Option<Value>, packed: seq<byte>, sent: int, ioErrno: int, ctrlKept: bool)
      returns (r: Outcome<Status>, ghost frame: seq<byte>)
      requires msg.Some? && !PackAborts(msg.value) ==>
        |packed| == Codec.Size(lay, XpcNv.ToNv(msg.value, NoPorts).value)
      requires -1 <= sent
      requires msg.Some? ==> sent <= MsgHeaderSize + |packed|
      requires msg.None? ==> sent <= |sendbuf|
      modifies this
      ensures r.Abort? <==>
        GetFd() != -1
        && ((msg.Some? != (old(sendbuf) == []))
            || (msg.Some? && PackAborts(msg.value))
            || (msg.Some? && |packed| > SendBufferSize)
            || (msg.Some? && 0 < |packed| && 0 < sent < MsgHeaderSize && ctrlKept))
      ensures GetFd() == -1 ==> r == Ret(Err(EPERM)) && sendbuf == old(sendbuf)
      ensures frame == (if msg.Some? then Frame(packed) else old(sendbuf))
      ensures r == Ret(Ok) ==> sendbuf == [] && sendfds == []
      ensures r.Ret? && GetFd() != -1 && msg.Some? && packed == [] ==> r == Ret(Err(ENOMEM)) && sendbuf == []
      ensures r.Ret? && GetFd() != -1 && (msg.None? || packed != []) && sent == -1 ==>
        r == Ret(Err(ioErrno)) && sendbuf == (if msg.Some? then packed else old(sendbuf))
        && sendfds == (if msg.Some? then [] else old(sendfds))
      ensures r.Ret? && GetFd() != -1 && (msg.None? || packed != []) && (sent == 0 || (sent > 0 && !ctrlKept)) ==>
        r == Ret(Err(ECONNRESET)) && sendbuf == (if msg.Some? then packed else old(sendbuf))
        && sendfds == (if msg.Some? then [] else old(sendfds))
      ensures r.Ret? && 0 < sent && ctrlKept && GetFd() != -1 && (msg.None? || packed != []) ==>
        sendbuf == frame[sent..] && sendfds == []
        && (sent == |frame| ==> r == Ret(Ok)) && (sent < |frame| ==> r == Ret(Err(EAGAIN)))
    {
      frame := if msg.Some? then Frame(packed) else sendbuf;
      if GetFd() == -1 {
        return Ret(Err(EPERM)), frame;
      }
      if msg.Some? != (sendbuf == []) {
        return Abort, frame;
      }
      var payload := sendbuf;
      if msg.Some? {
        var records := DataPack(lay, msg.value);
        if records.Abort? {
          return Abort, frame;
        }
        if |packed| > SendBufferSize {
          return Abort, frame;
        }
        payload := packed;
        // the records start with a header, so the ENOMEM answer for an
        // empty packing is never given
        assert |payload| >= Codec.HeaderSize;
        sendfds := [];
      }
      if sent == -1 {
        sendbuf := payload;
        return Ret(Err(ioErrno)), frame;
      }
      if sent == 0 || !ctrlKept {
        sendbuf := payload;
        return Ret(Err(ECONNRESET)), frame;
      }
      var done := sent;
      if msg.Some? {
        done := sent - MsgHeaderSize;
        if done < 0 {
          return Abort, frame;
        }
      }
      sendbuf := payload[done..];
      sendfds := [];
      if sendbuf != [] {
        return Ret(Err(EAGAIN)), frame;
      }
      r := Ret(Ok);
    }

    /** `launchd_msg_recv`, from the reception on: `incoming` is what
        `recvmsg` read (`got` is its answer, -1 with `ioErrno` on failure),
        `truncated` whether the control data was cut, `fdsIn` the
        descriptors it carried. The bytes are appended to the receive
        buffer, which is then drained; `fx` selects which defects of the
        loop are corrected. Descriptors are never consumed, since
        `launch_data_unpack` never reports any. */
    method MsgRecv(fx: Fixes, got: int, ioErrno: int, incoming: seq<byte>, truncated: bool, fdsIn: seq<int>,
                   decode: seq<byte> -> Outcome<Option<Value>>)
      returns (r: Outcome<Status>, delivered: seq<Value>)
      requires got >= -1 && (got > 0 ==> got == |incoming|)
      modifies this
      ensures GetFd() == -1 ==> r == Ret(Err(EPERM)) && delivered == [] && recvbuf == old(recvbuf)
      ensures GetFd() != -1 && got == -1 ==> r == Ret(Err(ioErrno)) && delivered == [] && recvbuf == old(recvbuf)
      ensures GetFd() != -1 && got == 0 ==> r == Ret(Err(ECONNRESET)) && delivered == [] && recvbuf == old(recvbuf)
      ensures GetFd() != -1 && got > 0 && truncated ==>
        r == Ret(Err(ECONNABORTED)) && delivered == [] && recvbuf == old(recvbuf)
      ensures GetFd() != -1 && got > 0 && !truncated ==>
        var d := Drain(fx, old(recvbuf) + incoming, decode);
        (r.Abort? <==> d.Abort?)
        && (d.Ret? ==> r == Ret(d.value.status) && delivered == d.value.delivered && recvbuf == d.value.rest
                       && recvfds == old(recvfds) + fdsIn)
    {
      delivered := [];
      if GetFd() == -1 {
        return Ret(Err(EPERM)), [];
      }
      if got == -1 {
        return Ret(Err(ioErrno)), [];
      }
      if got == 0 {
        return Ret(Err(ECONNRESET)), [];
      }
      if truncated {
        return Ret(Err(ECONNABORTED)), [];
      }
      recvbuf := recvbuf + incoming;
      recvfds := recvfds + fdsIn;
      r, delivered := DrainBuffer(fx, decode);
    }

    /** The loop of `launchd_msg_recv`: messages are decoded and handed
        over while the buffer starts with a complete one, and each is
        removed from the front. */
    method DrainBuffer(fx: Fixes, decode: seq<byte> -> Outcome<Option<Value>>) returns (r: Outcome<Status>, delivered: seq<Value>)
      modifies this
      ensures var d := Drain(fx, old(recvbuf), decode);
        (r.Abort? <==> d.Abort?)
        && (d.Ret? ==> r == Ret(d.value.status) && delivered == d.value.delivered && recvbuf == d.value.rest)
      ensures recvfds == old(recvfds) && GetFd() == old(GetFd())
    {
      delivered := [];
      r := Ret(Ok);
      ghost var d := Drain(fx, recvbuf, decode);
      while recvbuf != []
        invariant d == Prepend(delivered, Drain(fx, recvbuf, decode))
        invariant recvfds == old(recvfds) && GetFd() == old(GetFd())
        decreases |recvbuf|
      {
        var step := Front(fx, recvbuf, decode);
        if step.Halt? {
          return Abort, delivered;
        }
        if step.Stop? {
          return Ret(step.status), delivered;
        }
        PrependTwice(delivered, [step.msg], Drain(fx, step.rest, decode));
        delivered := delivered + [step.msg];
        recvbuf := step.rest;
      }
    }
  }
}
