/** `xpc_connection.c`: a connection as a sequential state machine. It holds
    a sequence counter, the calls waiting for a reply and, on a listener,
    the peers it has accepted.

    The dispatch queues are abstracted away. A block handed to a target
    queue is recorded, in order, in the `posted` log of the connection
    whose receive path queued it. A message handed to the send queue is
    recorded in `sent`. The removal of an answered call, which the source
    defers into the reply block, happens at once. Mach calls
    (`mach_port_allocate`, `mach_port_insert_right`, `bootstrap_check_in`,
    `bootstrap_look_up`, `xpc_pipe_receive`) are parameters. */
module XpcConnection {
  import opened Common
  import opened XpcType
  import XpcDictionary

  const U64Limit := 0x1_0000_0000_0000_0000

  /** `XPC_CONNECTION_MACH_SERVICE_LISTENER`: bit 0 of the flags. */
  const ListenerFlag: uint64 := 1

  type int32 = x: int | -0x8000_0000 <= x < 0x8000_0000

  /** A handler block and a dispatch queue, by identity. */
  type HandlerId = nat
  type QueueId = nat

  /** `struct xpc_pending_call`. */
  datatype PendingCall = PendingCall(id: uint64, handler: HandlerId, queue: QueueId)

  /** What `xpc_pipe_receive` hands back: the sender's port, the sequence
      number, the decoded message and the words of its audit token, if it
      carries one. */
  datatype Incoming = Incoming(remote: Port, id: uint64, msg: Value, token: Option<seq<uint32>>)

  /** A block queued on a target queue. */
  datatype Event =
    | Reply(call: PendingCall, msg: Value)          // call->xp_handler(result)
    | Deliver(target: Connection, msg: Value)       // target->xc_handler(result)
    | NewPeer(listener: Connection, peer: Connection) // listener->xc_handler(peer)

  /** A block queued on the send queue: `xpc_send(conn, message, id)`. */
  datatype Send = Send(message: Object?, id: uint64)

  /** Every field of a connection, as one value. */
  datatype ConnState = ConnState(
    remotePort: Port, localPort: Port, handler: Option<HandlerId>, flags: uint64,
    lastId: uint64, parent: Connection?, euid: uint32, guid: uint32, pid: int32, asid: int32,
    pending: seq<PendingCall>, peers: seq<Connection>, posted: seq<Event>, sent: seq<Send>)

  /** The state `xpc_connection_create` leaves behind: `memset` to zero,
      the counter at 1 and both lists empty. */
  function Initial(local: Port): (s: ConnState)
    ensures s.lastId == 1 && s.pending == [] && s.peers == [] && s.handler.None?
    ensures s.localPort == local && s.parent == null
  {
    ConnState(0, local, None, 0, 1, null, 0, 0, 0, 0, [], [], [], [])
  }

  /** `atomic_fetch_add` on a 64-bit counter: the value after `n`. */
  function Succ(n: uint64): (m: uint64)
    ensures n + 1 < U64Limit ==> m == n + 1
    ensures n + 1 == U64Limit ==> m == 0
  {
    (n + 1) % U64Limit
  }

  /** A `u_int32_t` token word stored into a signed `pid_t`/`au_asid_t`. */
  function ToInt32(u: uint32): (i: int32)
    ensures i % 0x1_0000_0000 == u
  {
    if u < 0x8000_0000 then u else u - 0x1_0000_0000
  }

  /** The first pending call with sequence number `id`, or `|ps|`. */
  function FindCall(ps: seq<PendingCall>, id: uint64): (k: nat)
    ensures k <= |ps|
    ensures k < |ps| ==> ps[k].id == id
    ensures forall m :: 0 <= m < k ==> ps[m].id != id
  {
    if ps == [] then 0
    else if ps[0].id == id then 0
    else 1 + FindCall(ps[1..], id)
  }

  /** The state the receive path of a plain connection `self` leaves
      behind: credentials from the message's token, then the first pending
      call with the message's sequence number answered and removed; failing
      that, the message delivered to the event handler if one is set, and
      otherwise dropped. */
  function Dispatched(s0: ConnState, self: Connection, inc: Incoming): ConnState
    requires inc.token.Some? ==> |inc.token.value| == 8
  {
    var k := FindCall(s0.pending, inc.id);
    var s1 := if inc.token.None? then s0
              else s0.(euid := inc.token.value[1], guid := inc.token.value[2],
                       pid := ToInt32(inc.token.value[5]), asid := ToInt32(inc.token.value[6]));
    if k < |s0.pending| then
      s1.(pending := s0.pending[..k] + s0.pending[k + 1..], posted := s0.posted + [Reply(s0.pending[k], inc.msg)])
    else if s0.handler.Some? then s1.(posted := s0.posted + [Deliver(self, inc.msg)])
    else s1
  }

  /** Pending sequence numbers strictly increase and are all below the
      counter: each was drawn once from it. */
  predicate IdsIssued(ps: seq<PendingCall>, lastId: uint64) {
    (forall a, b :: 0 <= a < b < |ps| ==> ps[a].id < ps[b].id)
    && forall a :: 0 <= a < |ps| ==> ps[a].id < lastId
  }

  /** Under `IdsIssued`, no two pending calls share a sequence number, so a
      reply resolves at most one call. */
  lemma IssuedIdsDistinct(ps: seq<PendingCall>, lastId: uint64, a: nat, b: nat)
    requires IdsIssued(ps, lastId) && a < |ps| && b < |ps| && ps[a].id == ps[b].id
    ensures a == b
  {
  }

  /** Removing a call keeps the rest in order, so keeps `IdsIssued`. */
  lemma RemoveKeepsIssued(ps: seq<PendingCall>, lastId: uint64, k: nat)
    requires IdsIssued(ps, lastId) && k < |ps|
    ensures IdsIssued(ps[..k] + ps[k + 1..], lastId)
  {
    var r := ps[..k] + ps[k + 1..];
    forall m | 0 <= m < |r|
      ensures r[m] == ps[if m < k then m else m + 1]
    {
    }
  }

  /** Appending a call with the counter's value, before the counter moves
      on without wrapping, keeps `IdsIssued`. */
  lemma AppendKeepsIssued(ps: seq<PendingCall>, lastId: uint64, c: PendingCall)
    requires IdsIssued(ps, lastId) && c.id == lastId && lastId + 1 < U64Limit
    ensures IdsIssued(ps + [c], lastId + 1)
  {
  }

  class Connection {
    var remotePort: Port
    var localPort: Port
    var handler: Option<HandlerId>
    var flags: uint64
    var lastId: uint64
    var parent: Connection?
    var euid: uint32
    var guid: uint32
    var pid: int32
    var asid: int32
    var pending: seq<PendingCall>
    var peers: seq<Connection>
    var posted: seq<Event>
    var sent: seq<Send>

    function State(): ConnState
      reads this
    {
      ConnState(remotePort, localPort, handler, flags, lastId, parent, euid, guid, pid, asid,
                pending, peers, posted, sent)
    }

    ghost predicate Valid()
      reads this
    {
      IdsIssued(pending, lastId)
    }

    constructor Init(local: Port)
      ensures State() == Initial(local) && Valid()
    {
      remotePort, localPort, handler, flags, lastId, parent := 0, local, None, 0, 1, null;
      euid, guid, pid, asid := 0, 0, 0, 0;
      pending, peers, posted, sent := [], [], [], [];
    }

    predicate IsListener()
      reads this
    {
      flags % 2 == ListenerFlag
    }

    /** `XPC_CONNECTION_NEXT_ID`: the counter's value, which then moves on
        by one (wrapping at 2^64). */
    method NextId() returns (id: uint64)
      modifies this
      ensures id == old(lastId)
      ensures State() == old(State()).(lastId := Succ(old(lastId)))
    {
      id := lastId;
      lastId := Succ(lastId);
    }

    /** `xpc_connection_send_message`: the message's own non-zero sequence
        number is reused, otherwise the next one is drawn. Reading the
        number from anything but a dictionary aborts. */
    method SendMessage(message: Object?) returns (r: Outcome<()>)
      requires XpcDictionary.Shaped(message)
      modifies this
      ensures r.Abort? <==> Mismatch(message, TDictionary)
      ensures r.Abort? ==> State() == old(State())
      ensures r.Ret? ==>
        var s := XpcDictionary.GetUInt64(message, XpcDictionary.SeqIdKey).value;
        var id := if s == 0 then old(lastId) else s;
        State() == old(State()).(lastId := if s == 0 then Succ(old(lastId)) else old(lastId),
                                 sent := old(sent) + [Send(message, id)])
    {
      var s := XpcDictionary.GetUInt64(message, XpcDictionary.SeqIdKey);
      if s.Abort? {
        return Abort;
      }
      var id := s.value;
      if id == 0 {
        id := NextId();
      }
      sent := sent + [Send(message, id)];
      r := Ret(());
    }

    /** `xpc_connection_send_message_with_reply`: exactly one call record,
        with a fresh sequence number, is appended at the tail of the
        pending list, and the message goes out under that number. */
    method SendMessageWithReply(message: Object?, queue: QueueId, h: HandlerId) returns (id: uint64)
      modifies this
      ensures id == old(lastId)
      ensures State() == old(State()).(lastId := Succ(old(lastId)),
                                       pending := old(pending) + [PendingCall(id, h, queue)],
                                       sent := old(sent) + [Send(message, id)])
      ensures old(Valid()) && old(lastId) + 1 < U64Limit ==> Valid()
    {
      id := NextId();
      ghost var before := pending;
      pending := pending + [PendingCall(id, h, queue)];
      sent := sent + [Send(message, id)];
      if old(Valid()) && old(lastId) + 1 < U64Limit {
        AppendKeepsIssued(before, old(lastId), PendingCall(id, h, queue));
      }
    }

    /** `xpc_connection_set_credentials`: words 1, 2, 5 and 6 of the token
        become the remote euid, gid, pid and audit session; no token
        leaves them as they are. */
    method SetCredentials(tok: Option<seq<uint32>>)
      requires tok.Some? ==> |tok.value| == 8
      modifies this
      ensures tok.None? ==> State() == old(State())
      ensures tok.Some? ==>
        State() == old(State()).(euid := tok.value[1], guid := tok.value[2],
                                 pid := ToInt32(tok.value[5]), asid := ToInt32(tok.value[6]))
    {
      if tok.None? {
        return;
      }
      euid := tok.value[1];
      guid := tok.value[2];
      pid := ToInt32(tok.value[5]);
      asid := ToInt32(tok.value[6]);
    }

    /** `xpc_connection_set_event_handler` as written: the line that would
        store the handler is commented out, so nothing changes. */
    method SetEventHandlerAsWritten(h: HandlerId)
      ensures State() == old(State())
    {
    }

    /** `xpc_connection_set_event_handler` as intended: the handler is
        stored. */
    method SetEventHandler(h: HandlerId)
      modifies this
      ensures State() == old(State()).(handler := Some(h))
    {
      handler := Some(h);
    }

    /** The receive path of a plain connection: credentials from the
        message's token, then the first pending call with the message's
        sequence number gets the message and leaves the list; failing
        that, the event handler gets it if one is set, and otherwise it is
        dropped. */
    method Dispatch(inc: Incoming)
      requires inc.token.Some? ==> |inc.token.value| == 8
      modifies this
      ensures State() == Dispatched(old(State()), this, inc)
      ensures old(Valid()) ==> Valid() && forall a :: 0 <= a < |pending| ==> pending[a].id != inc.id
    {
      SetCredentials(inc.token);
      var k := CallLookup(inc.id);
      if k < |pending| {
        ghost var ps := pending;
        posted := posted + [Reply(pending[k], inc.msg)];
        pending := pending[..k] + pending[k + 1..];
        if old(Valid()) {
          RemoveKeepsIssued(ps, lastId, k);
          forall a | 0 <= a < |pending|
            ensures pending[a].id != inc.id
          {
            var b := if a < k then a else a + 1;
            assert pending[a] == ps[b];
          }
        }
      } else if handler.Some? {
        posted := posted + [Deliver(this, inc.msg)];
      }
    }

    /** The `TAILQ_FOREACH` over the pending calls. */
    method CallLookup(id: uint64) returns (k: nat)
      ensures k == FindCall(pending, id)
    {
      k := 0;
      while k < |pending|
        invariant k <= |pending|
        invariant forall m :: 0 <= m < k ==> pending[m].id != id
      {
        if pending[k].id == id {
          return;
        }
        k := k + 1;
      }
    }
  }

  /** The first peer whose remote port is `remote`, or `|ps|`. */
  function FindPeer(ps: seq<Connection>, remote: Port): (k: nat)
    reads ps
    ensures k <= |ps|
    ensures k < |ps| ==> ps[k].remotePort == remote
    ensures forall m :: 0 <= m < k ==> ps[m].remotePort != remote
  {
    if ps == [] then 0
    else if ps[0].remotePort == remote then 0
    else 1 + FindPeer(ps[1..], remote)
  }

  /** `xpc_connection_create`: NULL when the local port cannot be
      allocated or given a send right; otherwise a fresh connection in its
      initial state. */
  method Create(local: Option<Port>, insertRight: bool) returns (c: Connection?)
    ensures c != null <==> local.Some? && insertRight
    ensures c != null ==> fresh(c) && c.State() == Initial(local.value) && c.Valid()
  {
    if local.None? || !insertRight {
      return null;
    }
    c := new Connection.Init(local.value);
  }

  /** `xpc_connection_create_mach_service`: the flags are recorded; a
      listener takes the port `bootstrap_check_in` gives as its local port
      (none: NULL); the name "bootstrap" talks to the bootstrap port;
      any other name talks to the port `bootstrap_look_up` finds (none:
      NULL). */
  method CreateMachService(name: string, flags: uint64, local: Option<Port>, insertRight: bool,
                           checkIn: Option<Port>, bootstrapPort: Port, lookUp: Option<Port>)
    returns (c: Connection?)
    ensures c != null <==> local.Some? && insertRight
                           && (if flags % 2 == ListenerFlag then checkIn.Some?
                               else name == "bootstrap" || lookUp.Some?)
    ensures c != null ==> fresh(c) && c.Valid() && c.lastId == 1 && c.pending == [] && c.peers == []
    ensures c != null ==> c.flags == flags
    ensures c != null && flags % 2 == ListenerFlag ==> c.localPort == checkIn.value && c.remotePort == 0
    ensures c != null && flags % 2 != ListenerFlag ==>
              c.localPort == local.value && c.remotePort == (if name == "bootstrap" then bootstrapPort else lookUp.value)
  {
    c := Create(local, insertRight);
    if c == null {
      return null;
    }
    c.flags := flags;
    if flags % 2 == ListenerFlag {
      if checkIn.None? {
        return null;
      }
      c.localPort := checkIn.value;
      return c;
    }
    if name == "bootstrap" {
      c.remotePort := bootstrapPort;
      return c;
    }
    if lookUp.None? {
      return null;
    }
    c.remotePort := lookUp.value;
  }

  /** `xpc_connection_create_from_endpoint`: an anonymous connection
      talking to the endpoint's port. */
  method CreateFromEndpoint(endpoint: Port, local: Option<Port>, insertRight: bool) returns (c: Connection?)
    ensures c != null <==> local.Some? && insertRight
    ensures c != null ==> fresh(c) && c.State() == Initial(local.value).(remotePort := endpoint)
  {
    c := Create(local, insertRight);
    if c != null {
      c.remotePort := endpoint;
    }
  }

  /** The receive path of a listener: a message from a known peer's port
      goes to that peer and no peer is made. Otherwise one new peer is made
      (`xpc_connection_create`; NULL aborts on the next line), with the
      listener as parent, the sender's port as remote port and the token's
      credentials, and it is appended; the listener's handler is then told
      of the peer and the peer's handler gets the message. */
  method Accept(conn: Connection, inc: Incoming, local: Option<Port>, insertRight: bool)
    returns (r: Outcome<()>)
    requires inc.token.Some? ==> |inc.token.value| == 8
    modifies conn
    ensures var k := FindPeer(old(conn.peers), inc.remote);
      k < |old(conn.peers)| ==>
        r.Ret? && conn.State() == old(conn.State()).(posted := old(conn.posted) + [Deliver(old(conn.peers)[k], inc.msg)])
    ensures FindPeer(old(conn.peers), inc.remote) == |old(conn.peers)| ==>
      (r.Abort? <==> !(local.Some? && insertRight))
    ensures r.Abort? ==> conn.State() == old(conn.State())
    ensures FindPeer(old(conn.peers), inc.remote) == |old(conn.peers)| && r.Ret? ==>
      |conn.peers| == |old(conn.peers)| + 1 && conn.peers[..|old(conn.peers)|] == old(conn.peers)
      && var p := conn.peers[|old(conn.peers)|];
         fresh(p) && p.parent == conn && p.remotePort == inc.remote && p.localPort == local.value
         && p.lastId == 1 && p.pending == [] && p.peers == [] && p.Valid()
         && (inc.token.Some? ==> p.euid == inc.token.value[1] && p.pid == ToInt32(inc.token.value[5]))
         && conn.State() == old(conn.State()).(peers := old(conn.peers) + [p],
                                               posted := old(conn.posted) + [NewPeer(conn, p), Deliver(p, inc.msg)])
  {
    var k := PeerLookup(conn, inc.remote);
    if k < |conn.peers| {
      conn.posted := conn.posted + [Deliver(conn.peers[k], inc.msg)];
      return Ret(());
    }
    var peer := MakePeer(conn, inc, local, insertRight);
    if peer == null {
      return Abort;
    }
    conn.peers := conn.peers + [peer];
    conn.posted := conn.posted + [NewPeer(conn, peer), Deliver(peer, inc.msg)];
    r := Ret(());
  }

  /** The `TAILQ_FOREACH` over the listener's peers. */
  method PeerLookup(conn: Connection, remote: Port) returns (k: nat)
    ensures k == FindPeer(conn.peers, remote)
  {
    k := 0;
    while k < |conn.peers|
      invariant k <= |conn.peers|
      invariant forall m :: 0 <= m < k ==> conn.peers[m].remotePort != remote
    {
      if conn.peers[k].remotePort == remote {
        return;
      }
      k := k + 1;
    }
  }

  /** The new peer: a fresh connection whose parent is the listener, whose
      remote port is the sender's, with the message's credentials. */
  method MakePeer(conn: Connection, inc: Incoming, local: Option<Port>, insertRight: bool) returns (peer: Connection?)
    requires inc.token.Some? ==> |inc.token.value| == 8
    ensures peer != null <==> local.Some? && insertRight
    ensures peer != null ==>
      fresh(peer) && peer.parent == conn && peer.remotePort == inc.remote && peer.localPort == local.value
      && peer.lastId == 1 && peer.pending == [] && peer.peers == [] && peer.Valid()
      && (inc.token.Some? ==> peer.euid == inc.token.value[1] && peer.pid == ToInt32(inc.token.value[5]))
  {
    peer := Create(local, insertRight);
    if peer != null {
      peer.parent := conn;
      peer.remotePort := inc.remote;
      peer.SetCredentials(inc.token);
    }
  }

  /** `xpc_connection_recv_message`: nothing happens when the receive
      fails; otherwise a listener accepts and a plain connection
      dispatches. */
  method RecvMessage(conn: Connection, received: Option<Incoming>, local: Option<Port>, insertRight: bool)
    returns (r: Outcome<()>)
    requires received.Some? && received.value.token.Some? ==> |received.value.token.value| == 8
    modifies conn
    ensures received.None? ==> r.Ret? && conn.State() == old(conn.State())
    ensures received.Some? && !old(conn.IsListener()) ==>
      r.Ret? && conn.State() == Dispatched(old(conn.State()), conn, received.value)
    ensures received.Some? && old(conn.IsListener()) ==>
      var inc := received.value;
      var n := |old(conn.peers)|;
      var k := FindPeer(old(conn.peers), inc.remote);
      (k < n ==> r.Ret? && conn.State() == old(conn.State()).(posted := old(conn.posted) + [Deliver(old(conn.peers)[k], inc.msg)]))
      && (k == n ==> (r.Abort? <==> !(local.Some? && insertRight)))
      && (r.Abort? ==> conn.State() == old(conn.State()))
      && (k == n && r.Ret? ==>
            |conn.peers| == n + 1 && conn.peers[..n] == old(conn.peers)
            && fresh(conn.peers[n]) && conn.peers[n].parent == conn && conn.peers[n].remotePort == inc.remote
            && conn.State() == old(conn.State()).(peers := conn.peers,
                                                  posted := old(conn.posted) + [NewPeer(conn, conn.peers[n]), Deliver(conn.peers[n], inc.msg)]))
    ensures received.Some? && !old(conn.IsListener()) && old(conn.Valid()) ==>
              conn.Valid() && forall a :: 0 <= a < |conn.pending| ==> conn.pending[a].id != received.value.id
    ensures received.Some? && old(conn.IsListener()) ==> conn.pending == old(conn.pending)
  {
    if received.None? {
      return Ret(());
    }
    if conn.IsListener() {
      r := Accept(conn, received.value, local, insertRight);
    } else {
      conn.Dispatch(received.value);
      r := Ret(());
    }
  }

  // ---------------------------------------------------------------------
  // The event handler is never stored
  // ---------------------------------------------------------------------

  /** As written, a handler installed on a plain connection never sees a
      message that answers no pending call: it is dropped. */
  method AsWrittenHandlerMissesMessage(inc: Incoming) returns (log: seq<Event>)
    requires inc.token.None?
    ensures log == []
  {
    var c := new Connection.Init(0);
    c.SetEventHandlerAsWritten(7);
    c.Dispatch(inc);
    log := c.posted;
  }

  /** With the handler stored, the same message is delivered to it. */
  method HandlerGetsMessage(inc: Incoming) returns (log: seq<Event>)
    requires inc.token.None?
    ensures |log| == 1 && log[0].Deliver? && log[0].msg == inc.msg
  {
    var c := new Connection.Init(0);
    c.SetEventHandler(7);
    c.Dispatch(inc);
    log := c.posted;
  }
}
