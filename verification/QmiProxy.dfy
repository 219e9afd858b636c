/** The QMI proxy: many local connections share one modem device. Control requests go through one
    queue, of which only the head is at the modem; client ids the modem grants are recorded with the
    connection that asked for them. */
module QmiProxy {
  import opened Common

  const TYPE_CTL: byte := 0
  const FLAG_RSP: byte := 1
  const FLAG_IND: byte := 2
  const GET_CLIENT_ID := 0x22
  const RELEASE_CLIENT_ID := 0x23
  const REVOKE_CLIENT_ID := 0x24
  const SYNC := 0x27
  const RELEASE_TID: byte := 255

  /** A service type and a client id within it. */
  datatype Id = Id(svc: byte, cid: byte)

  /** A control message, with the client id it names and whether its result code is success, or a
      service message addressed to a client id (0 addresses all clients of the service). */
  datatype Msg =
    | Ctl(flags: byte, tid: byte, ctlType: nat, ok: bool, id: Id)
    | Svc(qmiType: byte, clientId: byte, payload: seq<byte>)

  function TypeOf(m: Msg): byte { if m.Ctl? then TYPE_CTL else m.qmiType }

  datatype Conn = Conn(fd: int, clients: seq<Id>)

  /** A queued control request: who asked (the proxy itself when `fd` is the server's), and which
      allocation of a queue node this is. */
  datatype Pending = Pending(fd: int, uid: nat, msg: Msg)

  datatype Delivery = Delivery(fd: int, msg: Msg)

  datatype Proxy = Proxy(
    serverFd: int, conns: seq<Conn>, ctl: seq<Pending>, nextUid: nat,
    syncDone: bool, modemReset: bool)

  /** A handler's new state and what it wrote: control requests and service messages to the modem,
      and messages to clients. */
  datatype Out = Out(p: Proxy, ctlWrites: seq<Pending>, svcWrites: seq<Msg>, toClients: seq<Delivery>)

  // ---------------------------------------------------------------- handlers as functions

  function IndexOf(conns: seq<Conn>, fd: int): (i: nat)
    ensures i <= |conns|
    ensures i < |conns| ==> conns[i].fd == fd
    ensures forall j :: 0 <= j < i ==> conns[j].fd != fd
  {
    if conns == [] || conns[0].fd == fd then 0 else 1 + IndexOf(conns[1..], fd)
  }

  function ReleaseReq(id: Id): Msg { Ctl(0, RELEASE_TID, RELEASE_CLIENT_ID, true, id) }

  /** One release request of the proxy's own per client id, in list order. */
  function Releases(serverFd: int, uid: nat, ids: seq<Id>): seq<Pending> {
    seq(|ids|, i requires 0 <= i < |ids| => Pending(serverFd, uid + i, ReleaseReq(ids[i])))
  }

  function RemoveFirst(ctl: seq<Pending>, fd: int): seq<Pending> {
    if ctl == [] then [] else if ctl[0].fd == fd then ctl[1..] else [ctl[0]] + RemoveFirst(ctl[1..], fd)
  }

  lemma WithoutOne<T>(s: seq<T>, c: nat)
    requires 0 < c < |s|
    ensures [s[0]] + (s[1..][..c - 1] + s[1..][c..]) == s[..c] + s[c + 1..]
  {
  }

  lemma {:induction false} RemoveFirstAt(ctl: seq<Pending>, fd: int, c: nat)
    requires c <= |ctl| && (c < |ctl| ==> ctl[c].fd == fd) && forall j :: 0 <= j < c ==> ctl[j].fd != fd
    ensures RemoveFirst(ctl, fd) == if c < |ctl| then ctl[..c] + ctl[c + 1..] else ctl
  {
    if c > 0 {
      RemoveFirstAt(ctl[1..], fd, c - 1);
      if c < |ctl| {
        WithoutOne(ctl, c);
      }
    }
  }

  function RemoveId(ids: seq<Id>, id: Id): seq<Id> {
    if ids == [] then [] else if ids[0] == id then ids[1..] else [ids[0]] + RemoveId(ids[1..], id)
  }

  function Accept(p: Proxy, fd: int): Out {
    Out(p.(conns := p.conns + [Conn(fd, [])]), [], [], [])
  }

  function Cleanup(p: Proxy, fd: int, disconnect: bool): Out {
    var i := IndexOf(p.conns, fd);
    if i == |p.conns| then Out(p, [], [], [])
    else
      var rel := if disconnect then Releases(p.serverFd, p.nextUid, p.conns[i].clients) else [];
      Out(p.(conns := p.conns[..i] + p.conns[i + 1..],
             ctl := RemoveFirst(p.ctl + rel, fd),
             nextUid := p.nextUid + |rel|),
          if p.ctl == [] then rel[..if rel == [] then 0 else 1] else [], [], [])
  }

  /** A connection's records after the response to a request it made. */
  function AfterResponse(c: Conn, m: Msg): Conn
    requires m.Ctl?
  {
    if m.ctlType == GET_CLIENT_ID then (if m.ok then c.(clients := c.clients + [m.id]) else c)
    else if m.ctlType == RELEASE_CLIENT_ID then (if m.ok then c.(clients := RemoveId(c.clients, m.id)) else c)
    else c
  }

  function Respond(conns: seq<Conn>, fd: int, m: Msg): seq<Conn>
    requires m.Ctl?
  {
    seq(|conns|, i requires 0 <= i < |conns| => if conns[i].fd == fd then AfterResponse(conns[i], m) else conns[i])
  }

  function ResponseWrites(conns: seq<Conn>, fd: int, m: Msg): seq<Delivery> {
    if conns == [] then []
    else (if conns[0].fd == fd then [Delivery(fd, m)] else []) + ResponseWrites(conns[1..], fd, m)
  }

  predicate Wants(id: Id, m: Msg)
    requires m.Svc?
  {
    m.qmiType == id.svc && (m.clientId == 0 || m.clientId == id.cid)
  }

  function ConnWrites(fd: int, ids: seq<Id>, m: Msg): seq<Delivery>
    requires m.Svc?
  {
    if ids == [] then []
    else (if Wants(ids[0], m) then [Delivery(fd, m)] else []) + ConnWrites(fd, ids[1..], m)
  }

  function ServiceWrites(conns: seq<Conn>, m: Msg): seq<Delivery>
    requires m.Svc?
  {
    if conns == [] then [] else ConnWrites(conns[0].fd, conns[0].clients, m) + ServiceWrites(conns[1..], m)
  }

  predicate Answers(req: Msg, m: Msg)
    requires req.Ctl? && m.Ctl?
  {
    req.tid == m.tid && req.ctlType == m.ctlType
  }

  /** The revoke notice sets the reset flag when the field that is tested says it is an indication. */
  function AfterNotice(p: Proxy, tested: byte, m: Msg): Proxy
    requires m.Ctl?
  {
    if tested == FLAG_IND && m.ctlType == REVOKE_CLIENT_ID then p.(modemReset := true) else p
  }

  function FromDev(p: Proxy, m: Msg): Out
    requires forall q :: q in p.ctl ==> q.msg.Ctl?
  {
    if p.serverFd == -1 then Out(p.(syncDone := true), [], [], [])
    else if m.Svc? then Out(p, [], [], ServiceWrites(p.conns, m))
    else if m.flags == FLAG_RSP && p.ctl != [] then
      var head := p.ctl[0];
      var p1 := p.(ctl := p.ctl[1..]);
      var next := p.ctl[1..if |p.ctl| > 1 then 2 else 1];
      if !Answers(head.msg, m) || head.fd == p.serverFd then Out(p1, next, [], [])
      else Out(p1.(conns := Respond(p.conns, head.fd, m)), next, [], ResponseWrites(p.conns, head.fd, m))
    else if m.flags == FLAG_RSP then Out(p, [], [], [])
    // the service type is tested where the message's flags are meant
    else Out(AfterNotice(p, TypeOf(m), m), [], [], [])
  }

  function FromClient(p: Proxy, fd: int, m: Msg): Out {
    if p.serverFd == -1 then Out(p, [], [], [])
    else if m.Svc? then Out(p, [], [m], [])
    else if m.ctlType == SYNC then Out(p, [], [], [])
    else
      var q := Pending(fd, p.nextUid, m);
      Out(p.(ctl := p.ctl + [q], nextUid := p.nextUid + 1), if p.ctl == [] then [q] else [], [], [])
  }

  // ---------------------------------------------------------------- the running proxy

  class QmiProxyLoop {
    var serverFd: int
    var conns: seq<Conn>
    var ctl: seq<Pending>
    var nextUid: nat
    var syncDone: bool
    var modemReset: bool
    var ctlWrites: seq<Pending>
    var svcWrites: seq<Msg>
    var toClients: seq<Delivery>

    constructor ()
      ensures State() == Proxy(-1, [], [], 0, false, false) && Valid()
      ensures ctlWrites == [] && svcWrites == [] && toClients == []
    {
      serverFd, conns, ctl, nextUid, syncDone, modemReset := -1, [], [], 0, false, false;
      ctlWrites, svcWrites, toClients := [], [], [];
    }

    function State(): Proxy
      reads this
    {
      Proxy(serverFd, conns, ctl, nextUid, syncDone, modemReset)
    }

    /** Only control messages are queued. */
    predicate Valid()
      reads this
    {
      forall q :: q in ctl ==> q.msg.Ctl?
    }

    /** The state and the three logs after a handler that computed `o`. */
    twostate predicate Did(o: Out)
      reads this
    {
      && State() == o.p && ctlWrites == old(ctlWrites) + o.ctlWrites
      && svcWrites == old(svcWrites) + o.svcWrites && toClients == old(toClients) + o.toClients
    }

    method AcceptConnection(fd: int)
      requires Valid()
      modifies this
      ensures Valid() && Did(Accept(old(State()), fd))
    {
      conns := conns + [Conn(fd, [])];
    }

    method FindConn(fd: int) returns (i: nat)
      ensures i == IndexOf(conns, fd)
    {
      i := 0;
      while i < |conns| && conns[i].fd != fd
        invariant i <= |conns| && forall j :: 0 <= j < i ==> conns[j].fd != fd
      {
        i := i + 1;
      }
    }

    method CleanupConnection(fd: int, disconnect: bool)
      requires Valid()
      modifies this
      ensures Valid() && Did(Cleanup(old(State()), fd, disconnect))
    {
      var i := FindConn(fd);
      if i == |conns| {
        return;
      }
      ReleaseAll(conns[i].clients, disconnect);
      DropQueued(fd);
      conns := conns[..i] + conns[i + 1..];
    }

    /** Gives up a connection's records from the head of its list, queueing a release for each. */
    method ReleaseAll(clients: seq<Id>, disconnect: bool)
      requires Valid()
      modifies `ctl, `nextUid, `ctlWrites
      ensures Valid()
      ensures var rel := if disconnect then Releases(serverFd, old(nextUid), clients) else [];
              && ctl == old(ctl) + rel && nextUid == old(nextUid) + |rel|
              && ctlWrites == old(ctlWrites) + (if old(ctl) == [] then rel[..if rel == [] then 0 else 1] else [])
    {
      ghost var rel := Releases(serverFd, nextUid, clients);
      var k := 0;
      while disconnect && k < |clients|
        invariant k <= |clients| && Valid() && nextUid == old(nextUid) + k && ctl == old(ctl) + rel[..k]
        invariant ctlWrites == old(ctlWrites) + (if old(ctl) == [] then rel[..if k == 0 then 0 else 1] else [])
        invariant !disconnect ==> k == 0
      {
        var msg := Pending(serverFd, nextUid, ReleaseReq(clients[k]));
        assert rel[..k + 1] == rel[..k] + [msg];
        if ctl == [] {
          ctlWrites := ctlWrites + [msg];
        }
        ctl := ctl + [msg];
        nextUid := nextUid + 1;
        k := k + 1;
      }
      assert rel[..|rel|] == rel;
    }

    /** Takes the first queued request of a connection, and only that one, off the queue. */
    method DropQueued(fd: int)
      requires Valid()
      modifies `ctl
      ensures Valid() && ctl == RemoveFirst(old(ctl), fd)
    {
      var c := 0;
      while c < |ctl| && ctl[c].fd != fd
        invariant c <= |ctl| && forall j :: 0 <= j < c ==> ctl[j].fd != fd
      {
        c := c + 1;
      }
      RemoveFirstAt(ctl, fd, c);
      if c < |ctl| {
        ctl := ctl[..c] + ctl[c + 1..];
      }
    }

    method RecvFromDev(m: Msg)
      requires Valid()
      modifies this
      ensures Valid() && Did(FromDev(old(State()), m))
    {
      if serverFd == -1 {
        syncDone := true;
        return;
      }
      if TypeOf(m) == TYPE_CTL && m.Ctl? {
        if m.flags == FLAG_RSP {
          if ctl != [] {
            var head := ctl[0];
            if head.msg.tid != m.tid || head.msg.ctlType != m.ctlType {
              // logged as an error
            } else if head.fd == serverFd {
              // the answer to one of the proxy's own releases is only logged
            } else {
              DeliverResponse(head.fd, m);
            }
            ctl := ctl[1..];
            if ctl != [] {
              ctlWrites := ctlWrites + [ctl[0]];
            }
          }
        } else {
          TakeNotice(TypeOf(m), m);
        }
      } else if m.Svc? {
        DeliverService(m);
      }
    }

    /** The branch for indications, which goes by the field `tested`. */
    method TakeNotice(tested: byte, m: Msg)
      requires m.Ctl?
      modifies `modemReset
      ensures State() == AfterNotice(old(State()), tested, m)
    {
      if tested == FLAG_IND {
        if m.ctlType == REVOKE_CLIENT_ID {
          modemReset := true;
        }
      }
    }

    /** The walk over all connections that answers those with the requester's descriptor. */
    method DeliverResponse(fd: int, m: Msg)
      requires m.Ctl?
      modifies `conns, `toClients
      ensures conns == Respond(old(conns), fd, m)
      ensures toClients == old(toClients) + ResponseWrites(old(conns), fd, m)
    {
      var i := 0;
      while i < |conns|
        invariant i <= |conns| == |old(conns)|
        invariant forall j :: 0 <= j < i ==> conns[j] == Respond(old(conns), fd, m)[j]
        invariant forall j :: i <= j < |conns| ==> conns[j] == old(conns)[j]
        invariant toClients + ResponseWrites(old(conns)[i..], fd, m) == old(toClients) + ResponseWrites(old(conns), fd, m)
      {
        var c := conns[i];
        WritesStep(toClients, old(conns), i, fd, m);
        if c.fd == fd {
          toClients := toClients + [Delivery(fd, m)];
          conns := conns[i := AfterResponse(c, m)];
        }
        i := i + 1;
      }
      assert toClients + [] == toClients;
    }

    /** The walk over all records of all connections that forwards a service message. */
    method DeliverService(m: Msg)
      requires m.Svc?
      modifies `toClients
      ensures toClients == old(toClients) + ServiceWrites(conns, m)
    {
      var i := 0;
      while i < |conns|
        invariant i <= |conns|
        invariant toClients + ServiceWrites(conns[i..], m) == old(toClients) + ServiceWrites(conns, m)
      {
        assert conns[i..][1..] == conns[i + 1..];
        ghost var before := toClients;
        DeliverTo(conns[i], m);
        Assoc(before, ConnWrites(conns[i].fd, conns[i].clients, m), ServiceWrites(conns[i + 1..], m));
        i := i + 1;
      }
    }

    method DeliverTo(c: Conn, m: Msg)
      requires m.Svc?
      modifies `toClients
      ensures toClients == old(toClients) + ConnWrites(c.fd, c.clients, m)
    {
      var k := 0;
      while k < |c.clients|
        invariant k <= |c.clients|
        invariant toClients + ConnWrites(c.fd, c.clients[k..], m) == old(toClients) + ConnWrites(c.fd, c.clients, m)
      {
        assert c.clients[k..][1..] == c.clients[k + 1..];
        if c.clients[k].svc == m.qmiType && (m.clientId == 0 || m.clientId == c.clients[k].cid) {
          Assoc(toClients, [Delivery(c.fd, m)], ConnWrites(c.fd, c.clients[k + 1..], m));
          toClients := toClients + [Delivery(c.fd, m)];
        }
        k := k + 1;
      }
    }

    method RecvFromClient(fd: int, m: Msg) returns (ret: int)
      requires Valid()
      modifies this
      ensures Valid() && Did(FromClient(old(State()), fd, m))
      ensures ret == if old(serverFd) == -1 then -1 else 0
    {
      if serverFd == -1 {
        return -1;
      }
      if m.Ctl? {
        if m.ctlType == SYNC {
          return 0;
        }
        var q := Pending(fd, nextUid, m);
        nextUid := nextUid + 1;
        if ctl == [] {
          ctlWrites := ctlWrites + [q];
        }
        ctl := ctl + [q];
      } else {
        svcWrites := svcWrites + [m];
      }
      return 0;
    }
  }

  lemma WritesStep(log: seq<Delivery>, conns: seq<Conn>, i: nat, fd: int, m: Msg)
    requires i < |conns|
    ensures log + ResponseWrites(conns[i..], fd, m)
         == (if conns[i].fd == fd then log + [Delivery(fd, m)] else log) + ResponseWrites(conns[i + 1..], fd, m)
  {
    assert conns[i..][1..] == conns[i + 1..];
    Assoc(log, [Delivery(fd, m)], ResponseWrites(conns[i + 1..], fd, m));
    assert [] + ResponseWrites(conns[i + 1..], fd, m) == ResponseWrites(conns[i + 1..], fd, m);
  }

  lemma Assoc<T>(a: seq<T>, b: seq<T>, c: seq<T>)
    ensures (a + b) + c == a + (b + c)
  {
  }
}
