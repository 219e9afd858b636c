/** The QRTR proxy: QMI clients are given client ids and QRTR ports of the proxy's own, and their
    messages are carried to and from the modem's services under those ports. */
module QrtrProxy {
  import opened Common
  import opened IdTable

  const NODE_MYSELF: nat := 1
  const NODE_MODEM: nat := 3
  const NODE_BCAST: nat := 0xffff_ffff

  datatype Client = Client(svc: byte, cid: nat, port: nat)

  datatype Conn = Conn(fd: int, clients: seq<Client>)

  datatype Service = Service(service: nat, node: nat, port: nat, srcNode: nat)

  datatype Proxy = Proxy(conns: seq<Conn>, cids: seq<byte>, ports: seq<byte>, services: seq<Service>)

  /** A data packet towards the modem, and the notice that one of the proxy's ports is gone. */
  datatype Packet =
    | Data(srcNode: nat, srcPort: nat, dstNode: nat, dstPort: nat, payload: seq<byte>)
    | DelClient(node: nat, port: nat, toNode: nat)

  /** A message to a client: its 16-bit length field counts the five header bytes after the first and
      the payload. */
  datatype Qmi = Qmi(fd: int, svc: byte, cid: nat, length: nat, payload: seq<byte>)

  // ---------------------------------------------------------------- handlers as functions

  function FindService(services: seq<Service>, svc: byte): (r: Option<Service>)
    ensures r.Some? ==> r.value in services && r.value.service == svc
    ensures r.None? <==> forall j :: 0 <= j < |services| ==> services[j].service != svc
  {
    if services == [] then None
    else if services[0].service == svc then Some(services[0])
    else FindService(services[1..], svc)
  }

  function IndexOf(conns: seq<Conn>, fd: int): (i: nat)
    ensures i <= |conns| && (i < |conns| ==> conns[i].fd == fd)
    ensures forall j :: 0 <= j < i ==> conns[j].fd != fd
  {
    if conns == [] || conns[0].fd == fd then 0 else 1 + IndexOf(conns[1..], fd)
  }

  function Find(cs: seq<Client>, svc: byte, cid: nat): (i: nat)
    ensures i <= |cs| && (i < |cs| ==> cs[i].svc == svc && cs[i].cid == cid)
    ensures forall j :: 0 <= j < i ==> !(cs[j].svc == svc && cs[j].cid == cid)
  {
    if cs == [] || (cs[0].svc == svc && cs[0].cid == cid) then 0 else 1 + Find(cs[1..], svc, cid)
  }

  function Accept(s: Proxy, fd: int): Proxy { s.(conns := s.conns + [Conn(fd, [])]) }

  /** GET_CLIENT_ID: the id answered, 0 for a refusal. A refusal for want of client ids still leaves a
      record, with id 0 and a port of its own. */
  function GetId(s: Proxy, i: nat, svc: byte): (Proxy, nat)
    requires i < |s.conns| && |s.cids| > 0 && |s.ports| > 0
  {
    if FindService(s.services, svc).None? then (s, 0)
    else
      var cid := FirstFree(s.cids, 1);
      var port := FirstFree(s.ports, 1);
      var c := s.conns[i];
      (s.(cids := Taken(s.cids, cid), ports := Taken(s.ports, port),
          conns := s.conns[i := c.(clients := c.clients + [Client(svc, cid, port)])]), cid)
  }

  function DelNotice(s: Proxy, c: Client): Packet {
    DelClient(NODE_MYSELF, c.port, match FindService(s.services, c.svc) case Some(v) => v.srcNode case None => NODE_BCAST)
  }

  /** RELEASE_CLIENT_ID: only a record in the connection's own list is released. */
  function Release(s: Proxy, i: nat, svc: byte, cid: nat): (Proxy, seq<Packet>)
    requires i < |s.conns|
  {
    var cs := s.conns[i].clients;
    var k := Find(cs, svc, cid);
    if k == |cs| then (s, [])
    else (s.(cids := Freed(s.cids, cid), ports := Freed(s.ports, cs[k].port),
             conns := s.conns[i := s.conns[i].(clients := cs[..k] + cs[k + 1..])]),
          [DelNotice(s, cs[k])])
  }

  /** The loop of cleanup_qrtr_connection: the head record is released until none is left. */
  function ReleaseAll(s: Proxy, i: nat): (r: (Proxy, seq<Packet>))
    requires i < |s.conns|
    ensures |r.0.conns| == |s.conns|
    decreases |s.conns[i].clients|
  {
    var cs := s.conns[i].clients;
    if cs == [] then (s, [])
    else
      var (s1, p1) := Release(s, i, cs[0].svc, cs[0].cid);
      var (s2, p2) := ReleaseAll(s1, i);
      (s2, p1 + p2)
  }

  function Cleanup(s: Proxy, fd: int): (Proxy, seq<Packet>) {
    var i := IndexOf(s.conns, fd);
    if i == |s.conns| then (s, [])
    else
      var (s1, p) := ReleaseAll(s, i);
      (s1.(conns := s1.conns[..i] + s1.conns[i + 1..]), p)
  }

  /** NEW_SERVER adds the modem's service; DEL_SERVER unlinks a record it has just made, which is in no
      list, so the list keeps the service. */
  function ServerChange(s: Proxy, isNew: bool, v: Service): Proxy {
    if v.node != NODE_MODEM then s else if isNew then s.(services := s.services + [v]) else s
  }

  /** A service message from connection `i`: sent only for an id in its own list. */
  function Send(s: Proxy, i: nat, svc: byte, cid: nat, payload: seq<byte>): Option<Packet>
    requires i < |s.conns|
  {
    var cs := s.conns[i].clients;
    var k := Find(cs, svc, cid);
    if k == |cs| then None
    else match FindService(s.services, svc)
      case None => None
      case Some(v) =>
        if v.service == 0 then None else Some(Data(NODE_MYSELF, cs[k].port, v.node, v.port, payload))
  }

  function ToClient(fd: int, c: Client, payload: seq<byte>): Qmi {
    Qmi(fd, c.svc, c.cid, (|payload| + 5) % 0x10000, payload)
  }

  function ListDeliveries(fd: int, cs: seq<Client>, node: nat, port: nat, payload: seq<byte>): seq<Qmi> {
    if cs == [] then []
    else (if node == NODE_MYSELF && cs[0].port == port then [ToClient(fd, cs[0], payload)] else [])
         + ListDeliveries(fd, cs[1..], node, port, payload)
  }

  /** A data packet from the modem goes to every record with the addressed node and port. */
  function Deliver(conns: seq<Conn>, node: nat, port: nat, payload: seq<byte>): seq<Qmi> {
    if conns == [] then []
    else ListDeliveries(conns[0].fd, conns[0].clients, node, port, payload) + Deliver(conns[1..], node, port, payload)
  }

  // ---------------------------------------------------------------- the running proxy

  class QrtrProxyLoop {
    var conns: seq<Conn>
    const clientBitmap: array<byte>
    const portBitmap: array<byte>
    var services: seq<Service>
    var sent: seq<Packet>
    var toClients: seq<Qmi>

    predicate Valid()
      reads this
    {
      clientBitmap.Length == CLIENT_IDS && portBitmap.Length == PORT_IDS && clientBitmap != portBitmap
    }

    constructor ()
      ensures Valid() && conns == [] && services == [] && sent == [] && toClients == []
      ensures State() == Proxy([], seq(CLIENT_IDS, _ => 0), seq(PORT_IDS, _ => 0), [])
      ensures fresh(clientBitmap) && fresh(portBitmap)
    {
      clientBitmap := new byte[CLIENT_IDS](_ => 0);
      portBitmap := new byte[PORT_IDS](_ => 0);
      conns, services, sent, toClients := [], [], [], [];
    }

    function State(): Proxy
      reads this, clientBitmap, portBitmap
    {
      Proxy(conns, clientBitmap[..], portBitmap[..], services)
    }

    method FindConn(fd: int) returns (i: nat)
      ensures i == IndexOf(conns, fd)
    {
      i := 0;
      while i < |conns| && conns[i].fd != fd
        invariant i <= |conns| && forall j :: 0 <= j < i ==> conns[j].fd != fd
      {
        i := i + 1;
      }
    }

    method FindClient(i: nat, svc: byte, cid: nat) returns (k: nat)
      requires i < |conns|
      ensures k == Find(conns[i].clients, svc, cid)
    {
      var cs := conns[i].clients;
      k := 0;
      while k < |cs| && !(cs[k].svc == svc && cs[k].cid == cid)
        invariant k <= |cs| && forall j :: 0 <= j < k ==> !(cs[j].svc == svc && cs[j].cid == cid)
      {
        k := k + 1;
      }
    }

    method AllocClient(i: nat, svc: byte) returns (cid: nat)
      requires Valid() && i < |conns|
      modifies this`conns, clientBitmap, portBitmap
      ensures (State(), cid) == GetId(old(State()), i, svc)
    {
      if FindService(services, svc).None? {
        return 0;
      }
      cid := Alloc(clientBitmap);
      var port := Alloc(portBitmap);
      conns := conns[i := conns[i].(clients := conns[i].clients + [Client(svc, cid, port)])];
    }

    method ReleaseClient(i: nat, svc: byte, cid: nat)
      requires Valid() && i < |conns|
      modifies this`conns, this`sent, clientBitmap, portBitmap
      ensures (State(), sent) == var r := Release(old(State()), i, svc, cid); (r.0, old(sent) + r.1)
    {
      var k := FindClient(i, svc, cid);
      var cs := conns[i].clients;
      if k < |cs| {
        sent := sent + [DelNotice(State(), cs[k])];
        Free(clientBitmap, cid);
        Free(portBitmap, cs[k].port);
        conns := conns[i := conns[i].(clients := cs[..k] + cs[k + 1..])];
      } else {
        assert sent + [] == sent;
      }
    }

    method ReleaseEach(i: nat)
      requires Valid() && i < |conns|
      modifies this`conns, this`sent, clientBitmap, portBitmap
      ensures (State(), sent) == var r := ReleaseAll(old(State()), i); (r.0, old(sent) + r.1)
    {
      ghost var all := ReleaseAll(State(), i);
      while conns[i].clients != []
        invariant i < |conns|
        invariant var r := ReleaseAll(State(), i); r.0 == all.0 && sent + r.1 == old(sent) + all.1
        decreases |conns[i].clients|
      {
        ghost var s0, sent0 := State(), sent;
        var c := conns[i].clients[0];
        ReleaseClient(i, c.svc, c.cid);
        Assoc(sent0, Release(s0, i, c.svc, c.cid).1, ReleaseAll(State(), i).1);
      }
      assert sent + [] == sent;
    }

    method CleanupConnection(fd: int)
      requires Valid()
      modifies this`conns, this`sent, clientBitmap, portBitmap
      ensures (State(), sent) == var r := Cleanup(old(State()), fd); (r.0, old(sent) + r.1)
    {
      var i := FindConn(fd);
      if i == |conns| {
        assert sent + [] == sent;
        return;
      }
      ghost var r := ReleaseAll(State(), i);
      ReleaseEach(i);
      assert conns == r.0.conns;
      conns := conns[..i] + conns[i + 1..];
      assert State() == r.0.(conns := conns);
    }

    method SendToModem(fd: int, svc: byte, cid: nat, payload: seq<byte>) returns (ret: int)
      requires Valid()
      modifies this`sent
      ensures var i := IndexOf(conns, fd);
              if i == |conns| then ret == -1 && sent == old(sent)
              else ret == 0 && sent == old(sent) + (match Send(State(), i, svc, cid, payload) case Some(p) => [p] case None => [])
    {
      var i := FindConn(fd);
      if i == |conns| {
        return -1;
      }
      var k := FindClient(i, svc, cid);
      if k < |conns[i].clients| {
        var srv := FindService(services, svc);
        if srv.Some? && srv.value.service != 0 {
          sent := sent + [Data(NODE_MYSELF, conns[i].clients[k].port, srv.value.node, srv.value.port, payload)];
        }
      }
      return 0;
    }

    method RecvData(node: nat, port: nat, payload: seq<byte>)
      modifies this`toClients
      ensures toClients == old(toClients) + Deliver(conns, node, port, payload)
    {
      var i := 0;
      while i < |conns|
        invariant i <= |conns|
        invariant toClients + Deliver(conns[i..], node, port, payload) == old(toClients) + Deliver(conns, node, port, payload)
      {
        assert conns[i..][1..] == conns[i + 1..];
        ghost var before := toClients;
        DeliverTo(conns[i], node, port, payload);
        Assoc(before, ListDeliveries(conns[i].fd, conns[i].clients, node, port, payload), Deliver(conns[i + 1..], node, port, payload));
        i := i + 1;
      }
    }

    method DeliverTo(c: Conn, node: nat, port: nat, payload: seq<byte>)
      modifies this`toClients
      ensures toClients == old(toClients) + ListDeliveries(c.fd, c.clients, node, port, payload)
    {
      var k := 0;
      while k < |c.clients|
        invariant k <= |c.clients|
        invariant toClients + ListDeliveries(c.fd, c.clients[k..], node, port, payload)
               == old(toClients) + ListDeliveries(c.fd, c.clients, node, port, payload)
      {
        assert c.clients[k..][1..] == c.clients[k + 1..];
        if node == NODE_MYSELF && c.clients[k].port == port {
          Assoc(toClients, [ToClient(c.fd, c.clients[k], payload)], ListDeliveries(c.fd, c.clients[k + 1..], node, port, payload));
          toClients := toClients + [ToClient(c.fd, c.clients[k], payload)];
        }
        k := k + 1;
      }
    }
  }

  lemma Assoc<T>(a: seq<T>, b: seq<T>, c: seq<T>)
    ensures (a + b) + c == a + (b + c)
  {
  }
}
