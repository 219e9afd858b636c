/** Whole runs of the QRTR proxy: ids and ports stay distinct and the tables exact, a message comes
    back to where it was sent from, and a closed connection gives everything back. */
module QrtrRuns {
  import opened Common
  import opened IdTable
  import opened QrtrProxy

  /** A record's port, or its client id. */
  function Num(c: Client, port: bool): nat { if port then c.port else c.cid }

  function NumsOf(cs: seq<Client>, port: bool): multiset<nat> {
    if cs == [] then multiset{} else multiset{Num(cs[0], port)} + NumsOf(cs[1..], port)
  }

  /** The ports, or the client ids, in all records of all connections. */
  function Nums(conns: seq<Conn>, port: bool): multiset<nat> {
    if conns == [] then multiset{} else NumsOf(conns[0].clients, port) + Nums(conns[1..], port)
  }

  function Records(conns: seq<Conn>): nat { |Nums(conns, true)| }

  lemma {:induction false} NumsOfSize(cs: seq<Client>)
    ensures |NumsOf(cs, false)| == |NumsOf(cs, true)| == |cs|
  {
    if cs != [] {
      NumsOfSize(cs[1..]);
    }
  }

  lemma {:induction false} NumsSize(conns: seq<Conn>)
    ensures |Nums(conns, false)| == Records(conns)
  {
    if conns != [] {
      NumsOfSize(conns[0].clients);
      NumsSize(conns[1..]);
    }
  }

  // ---------------------------------------------------------------- lemmas on the collections

  lemma {:induction false} NumsOfAppend(a: seq<Client>, b: seq<Client>, port: bool)
    ensures NumsOf(a + b, port) == NumsOf(a, port) + NumsOf(b, port)
  {
    if a == [] {
      assert a + b == b;
    } else {
      assert (a + b)[1..] == a[1..] + b;
      NumsOfAppend(a[1..], b, port);
    }
  }

  lemma NumsOfSplit(cs: seq<Client>, k: nat, port: bool)
    requires k < |cs|
    ensures NumsOf(cs, port) == NumsOf(cs[..k] + cs[k + 1..], port) + multiset{Num(cs[k], port)}
  {
    NumsOfAppend(cs[..k], cs[k + 1..], port);
    NumsOfAppend(cs[..k], cs[k..], port);
    assert cs == cs[..k] + cs[k..] && cs[k..][1..] == cs[k + 1..];
  }

  lemma {:induction false} NumsAppend(a: seq<Conn>, b: seq<Conn>, port: bool)
    ensures Nums(a + b, port) == Nums(a, port) + Nums(b, port)
  {
    if a == [] {
      assert a + b == b;
    } else {
      assert (a + b)[1..] == a[1..] + b;
      NumsAppend(a[1..], b, port);
    }
  }

  lemma WithoutStep<T>(s: seq<T>, i: nat)
    requires 0 < i < |s|
    ensures s[..i] + s[i + 1..] == [s[0]] + (s[1..][..i - 1] + s[1..][i..])
  {
  }

  lemma {:induction false} NumsRemove(conns: seq<Conn>, i: nat, port: bool)
    requires i < |conns|
    ensures Nums(conns, port) == Nums(conns[..i] + conns[i + 1..], port) + NumsOf(conns[i].clients, port)
  {
    if i == 0 {
      assert conns[..0] + conns[1..] == conns[1..];
    } else {
      WithoutStep(conns, i);
      NumsRemove(conns[1..], i - 1, port);
      var rest := conns[1..][..i - 1] + conns[1..][i..];
      assert Nums([conns[0]] + rest, port) == NumsOf(conns[0].clients, port) + Nums(rest, port) by {
        assert ([conns[0]] + rest)[1..] == rest;
      }
    }
  }

  lemma NumsSplit(conns: seq<Conn>, i: nat, c: Conn, port: bool)
    requires i < |conns|
    ensures Nums(conns, port) == Nums(conns[..i] + conns[i + 1..], port) + NumsOf(conns[i].clients, port)
    ensures Nums(conns[i := c], port) == Nums(conns[..i] + conns[i + 1..], port) + NumsOf(c.clients, port)
  {
    NumsRemove(conns, i, port);
    NumsRemove(conns[i := c], i, port);
    assert conns[i := c][..i] == conns[..i] && conns[i := c][i + 1..] == conns[i + 1..];
  }

  // ---------------------------------------------------------------- the invariants

  /** The client id table is exact: every nonzero id in a record is marked, no two records share one,
      and nothing else is marked. */
  ghost predicate CidsExact(s: Proxy) {
    |s.cids| == CLIENT_IDS && Marks(s.cids, Nums(s.conns, false))
  }

  /** The same of the ports, none of which is 0. */
  ghost predicate PortsExact(s: Proxy) {
    |s.ports| == PORT_IDS && Marks(s.ports, Nums(s.conns, true)) && Nums(s.conns, true)[0] == 0
  }

  predicate FdsDistinct(conns: seq<Conn>) {
    forall i, j :: 0 <= i < j < |conns| ==> conns[i].fd != conns[j].fd
  }

  // ---------------------------------------------------------------- looking up services and records

  /** Place `j` of the list is the first service with the number. */
  predicate FirstService(services: seq<Service>, svc: byte, j: nat) {
    j < |services| && services[j].service == svc && forall n :: 0 <= n < j ==> services[n].service != svc
  }

  predicate Listed(services: seq<Service>, svc: byte) {
    exists j :: 0 <= j < |services| && services[j].service == svc
  }

  /** Of several services with one number the first listed is used. */
  lemma {:induction false} FindsFirst(services: seq<Service>, svc: byte, j: nat)
    requires FirstService(services, svc, j)
    ensures FindService(services, svc) == Some(services[j])
  {
    if j > 0 {
      FindsFirst(services[1..], svc, j - 1);
    }
  }

  lemma FirstListed(services: seq<Service>, svc: byte) returns (j: nat)
    requires Listed(services, svc)
    ensures FirstService(services, svc, j)
  {
    j := 0;
    while services[j].service != svc
      invariant j < |services| && forall n :: 0 <= n < j ==> services[n].service != svc
      decreases |services| - j
    {
      j := j + 1;
    }
  }

  /** Place `k` of the list is the first record with the service type and client id. */
  predicate FirstRecord(cs: seq<Client>, svc: byte, cid: nat, k: nat) {
    k < |cs| && cs[k].svc == svc && cs[k].cid == cid && forall n :: 0 <= n < k ==> cs[n].svc != svc || cs[n].cid != cid
  }

  predicate HasRecord(cs: seq<Client>, svc: byte, cid: nat) {
    exists k :: 0 <= k < |cs| && cs[k].svc == svc && cs[k].cid == cid
  }

  // ---------------------------------------------------------------- allocation

  /** A request for an id is answered with 0 exactly when no such service is listed or all 239 nonzero
      ids are in use. Without the service nothing changes; with it the asking connection, and no other,
      gets a record with the id answered and a port. */
  lemma GrantRecords(s: Proxy, i: nat, svc: byte)
    requires CidsExact(s) && |s.ports| > 0 && i < |s.conns|
    ensures var (s', cid) := GetId(s, i, svc); var used := Nums(s.conns, false);
            && s'.services == s.services
            && (cid == 0 <==> !Listed(s.services, svc) || |used| - used[0] == 239)
            && (!Listed(s.services, svc) ==> s' == s)
            && (Listed(s.services, svc) ==>
                  s'.conns == s.conns[i := Conn(s.conns[i].fd,
                                                s.conns[i].clients + [Client(svc, cid, FirstFree(s.ports, 1))])])
  {
    if Listed(s.services, svc) {
      NoneFreeExactly(s.cids, Nums(s.conns, false));
    }
  }

  lemma GetNums(s: Proxy, i: nat, svc: byte, port: bool)
    requires i < |s.conns| && |s.cids| > 0 && |s.ports| > 0 && FindService(s.services, svc).Some?
    ensures Nums(GetId(s, i, svc).0.conns, port)
         == Nums(s.conns, port) + multiset{if port then FirstFree(s.ports, 1) else FirstFree(s.cids, 1)}
  {
    var c := s.conns[i];
    var r := Client(svc, FirstFree(s.cids, 1), FirstFree(s.ports, 1));
    NumsOfAppend(c.clients, [r], port);
    NumsSplit(s.conns, i, c.(clients := c.clients + [r]), port);
  }

  /** A client id granted to one connection is in nobody else's list, and the table stays exact whether
      the grant fails or not. */
  lemma GetKeepsCids(s: Proxy, i: nat, svc: byte)
    requires CidsExact(s) && |s.ports| > 0 && i < |s.conns|
    ensures CidsExact(GetId(s, i, svc).0)
    ensures var cid := GetId(s, i, svc).1;
            && (cid != 0 ==> cid !in Nums(s.conns, false))
            && (cid == 0 && FindService(s.services, svc).Some? ==> Records(s.conns) >= 239)
  {
    if FindService(s.services, svc).Some? {
      GetNums(s, i, svc, false);
      AllocExact(s.cids, Nums(s.conns, false));
      NoneFreeExactly(s.cids, Nums(s.conns, false));
      NumsSize(s.conns);
    }
  }

  /** For a known service a grant fails exactly when all 239 nonzero ids are in use. A refusal takes no
      id, but it leaves a record with id 0, and with the next port. */
  lemma GrantFailsExactly(s: Proxy, i: nat, svc: byte)
    requires CidsExact(s) && |s.ports| > 0 && i < |s.conns| && FindService(s.services, svc).Some?
    ensures var (s', cid) := GetId(s, i, svc);
            var used := Nums(s.conns, false);
            && (cid == 0 <==> |used| - used[0] == 239)
            && (cid == 0 ==> s'.cids == s.cids && s'.conns[i].clients == s.conns[i].clients + [Client(svc, 0, FirstFree(s.ports, 1))])
            && Nums(s'.conns, false) == used + multiset{cid}
            && Nums(s'.conns, true) == Nums(s.conns, true) + multiset{FirstFree(s.ports, 1)}
  {
    NoneFreeExactly(s.cids, Nums(s.conns, false));
    GetNums(s, i, svc, false);
    GetNums(s, i, svc, true);
  }

  /** A new record keeps the port table exact if and only if fewer than 255 records exist. */
  lemma GetKeepsPortsExactly(s: Proxy, i: nat, svc: byte)
    requires PortsExact(s) && |s.cids| > 0 && i < |s.conns| && FindService(s.services, svc).Some?
    ensures PortsExact(GetId(s, i, svc).0) <==> Records(s.conns) < 255
  {
    GetNums(s, i, svc, true);
    var used := Nums(s.conns, true);
    AllocExact(s.ports, used);
    FullExactly(s.ports, used);
    if |used| < 255 {
      FreeIdExists(s.ports, used);
    }
  }

  // ---------------------------------------------------------------- release

  lemma ReleaseNums(s: Proxy, i: nat, k: nat, port: bool)
    requires i < |s.conns| && k < |s.conns[i].clients|
    ensures var c := s.conns[i].clients[k];
            && k == Find(s.conns[i].clients, c.svc, c.cid) ==>
               && Num(c, port) in Nums(s.conns, port)
               && Nums(Release(s, i, c.svc, c.cid).0.conns, port) == Nums(s.conns, port) - multiset{Num(c, port)}
  {
    var cs := s.conns[i].clients;
    NumsOfSplit(cs, k, port);
    NumsSplit(s.conns, i, s.conns[i].(clients := cs[..k] + cs[k + 1..]), port);
  }

  lemma ReleaseKeepsCids(s: Proxy, i: nat, svc: byte, cid: nat)
    requires CidsExact(s) && i < |s.conns| && Find(s.conns[i].clients, svc, cid) < |s.conns[i].clients|
    ensures CidsExact(Release(s, i, svc, cid).0)
  {
    ReleaseNums(s, i, Find(s.conns[i].clients, svc, cid), false);
    FreeExact(s.cids, Nums(s.conns, false), cid);
  }

  lemma ReleaseKeepsPorts(s: Proxy, i: nat, svc: byte, cid: nat)
    requires PortsExact(s) && i < |s.conns| && Find(s.conns[i].clients, svc, cid) < |s.conns[i].clients|
    ensures PortsExact(Release(s, i, svc, cid).0)
  {
    var k := Find(s.conns[i].clients, svc, cid);
    ReleaseNums(s, i, k, true);
    FreeExact(s.ports, Nums(s.conns, true), s.conns[i].clients[k].port);
  }

  lemma ReleaseKeeps(s: Proxy, i: nat, svc: byte, cid: nat)
    requires i < |s.conns|
    ensures CidsExact(s) ==> CidsExact(Release(s, i, svc, cid).0)
    ensures PortsExact(s) ==> PortsExact(Release(s, i, svc, cid).0)
  {
    if Find(s.conns[i].clients, svc, cid) < |s.conns[i].clients| {
      if CidsExact(s) {
        ReleaseKeepsCids(s, i, svc, cid);
      }
      if PortsExact(s) {
        ReleaseKeepsPorts(s, i, svc, cid);
      }
    }
  }

  function Notices(s: Proxy, cs: seq<Client>): seq<Packet> {
    if cs == [] then [] else [DelNotice(s, cs[0])] + Notices(s, cs[1..])
  }

  /** The notice that a port is gone names the proxy's node and the record's port. It goes to the node
      that announced the first service with the record's type, and to all nodes when none is listed. */
  lemma NoticeNames(s: Proxy, c: Client, j: nat)
    ensures var p := DelNotice(s, c);
            && p.DelClient? && p.node == 1 && p.port == c.port
            && (FirstService(s.services, c.svc, j) ==> p.toNode == s.services[j].srcNode)
            && (!Listed(s.services, c.svc) ==> p.toNode == 0xffff_ffff)
  {
    if FirstService(s.services, c.svc, j) {
      FindsFirst(s.services, c.svc, j);
    }
  }

  lemma {:induction false} NoticesAre(s: Proxy, cs: seq<Client>)
    ensures |Notices(s, cs)| == |cs| && forall n :: 0 <= n < |cs| ==> Notices(s, cs)[n] == DelNotice(s, cs[n])
  {
    if cs != [] {
      NoticesAre(s, cs[1..]);
    }
  }

  /** A release takes the first record with the type and id out of the connection's list, and no other
      record, and announces its port; an id the connection does not hold is left alone. */
  lemma ReleaseEffect(s: Proxy, i: nat, svc: byte, cid: nat, k: nat)
    requires i < |s.conns|
    ensures var (s', p) := Release(s, i, svc, cid); var c := s.conns[i];
            && (FirstRecord(c.clients, svc, cid, k) ==>
                  && s'.conns == s.conns[i := Conn(c.fd, c.clients[..k] + c.clients[k + 1..])]
                  && s'.services == s.services && p == [DelNotice(s, c.clients[k])])
            && (!HasRecord(c.clients, svc, cid) ==> s' == s && p == [])
  {
  }

  lemma {:induction false} NoticesSame(s: Proxy, s': Proxy, cs: seq<Client>)
    requires s.services == s'.services
    ensures Notices(s, cs) == Notices(s', cs)
  {
    if cs != [] {
      NoticesSame(s, s', cs[1..]);
    }
  }

  /** Releasing the head record. */
  lemma ReleaseHead(s: Proxy, i: nat)
    requires i < |s.conns| && s.conns[i].clients != []
    ensures var cs := s.conns[i].clients;
            var (s1, p) := Release(s, i, cs[0].svc, cs[0].cid);
            && s1.conns == s.conns[i := s.conns[i].(clients := cs[1..])] && s1.services == s.services
            && p == [DelNotice(s, cs[0])]
  {
    var cs := s.conns[i].clients;
    assert Find(cs, cs[0].svc, cs[0].cid) == 0;
    assert cs[..0] + cs[1..] == cs[1..];
  }

  /** Emptying a connection's list releases each of its records once, in order, and leaves every other
      connection as it was. */
  lemma {:induction false} ReleaseAllEffect(s: Proxy, i: nat)
    requires i < |s.conns|
    ensures var (s', p) := ReleaseAll(s, i);
            && s'.conns == s.conns[i := s.conns[i].(clients := [])] && s'.services == s.services
            && p == Notices(s, s.conns[i].clients)
    decreases |s.conns[i].clients|
  {
    var cs := s.conns[i].clients;
    if cs == [] {
      assert s.conns[i := s.conns[i].(clients := [])] == s.conns;
    } else {
      ReleaseHead(s, i);
      var s1 := Release(s, i, cs[0].svc, cs[0].cid).0;
      ReleaseAllEffect(s1, i);
      NoticesSame(s, s1, cs[1..]);
      assert s1.conns[i := s.conns[i].(clients := [])] == s.conns[i := s.conns[i].(clients := [])];
    }
  }

  lemma {:induction false} ReleaseAllKeeps(s: Proxy, i: nat)
    requires i < |s.conns|
    ensures var s' := ReleaseAll(s, i).0;
            (CidsExact(s) ==> CidsExact(s')) && (PortsExact(s) ==> PortsExact(s'))
    decreases |s.conns[i].clients|
  {
    var cs := s.conns[i].clients;
    if cs != [] {
      ReleaseKeeps(s, i, cs[0].svc, cs[0].cid);
      ReleaseAllKeeps(Release(s, i, cs[0].svc, cs[0].cid).0, i);
    }
  }

  lemma UpdateThenRemove<T>(s: seq<T>, i: nat, x: T)
    requires i < |s|
    ensures s[i := x][..i] + s[i := x][i + 1..] == s[..i] + s[i + 1..]
  {
    assert s[i := x][..i] == s[..i] && s[i := x][i + 1..] == s[i + 1..];
  }

  lemma CleanupConns(s: Proxy, fd: int)
    requires IndexOf(s.conns, fd) < |s.conns|
    ensures var i := IndexOf(s.conns, fd); Cleanup(s, fd).0.conns == s.conns[..i] + s.conns[i + 1..]
  {
    var i := IndexOf(s.conns, fd);
    ReleaseAllEffect(s, i);
    UpdateThenRemove(s.conns, i, s.conns[i].(clients := []));
  }

  lemma CloseUnknown(s: Proxy, fd: int)
    requires forall j :: 0 <= j < |s.conns| ==> s.conns[j].fd != fd
    ensures Cleanup(s, fd) == (s, [])
  {
  }

  /** What closing a connection leaves: the other connections, less the ids and ports it held. */
  lemma CleanupNums(s: Proxy, fd: int, port: bool)
    requires IndexOf(s.conns, fd) < |s.conns|
    ensures var i := IndexOf(s.conns, fd); var s' := Cleanup(s, fd).0;
            && s'.conns == s.conns[..i] + s.conns[i + 1..]
            && Nums(s'.conns, port) == Nums(s.conns, port) - NumsOf(s.conns[i].clients, port)
            && Nums(s'.conns, port) == Nums(ReleaseAll(s, i).0.conns, port)
  {
    var i := IndexOf(s.conns, fd);
    CleanupConns(s, fd);
    ReleaseAllEffect(s, i);
    NumsSplit(s.conns, i, s.conns[i].(clients := []), port);
  }

  /** Closing a connection frees exactly the ids and ports it held, so that the tables stay exact, and
      announces the end of each of its ports once, in list order. */
  lemma CleanupFreesAll(s: Proxy, fd: int)
    requires IndexOf(s.conns, fd) < |s.conns|
    ensures var (s', p) := Cleanup(s, fd);
            && p == Notices(s, s.conns[IndexOf(s.conns, fd)].clients)
            && |p| == |s.conns[IndexOf(s.conns, fd)].clients|
            && (forall n :: 0 <= n < |p| ==> p[n] == DelNotice(s, s.conns[IndexOf(s.conns, fd)].clients[n]))
            && (CidsExact(s) ==> CidsExact(s')) && (PortsExact(s) ==> PortsExact(s'))
  {
    ReleaseAllEffect(s, IndexOf(s.conns, fd));
    NoticesAre(s, s.conns[IndexOf(s.conns, fd)].clients);
    ReleaseAllKeeps(s, IndexOf(s.conns, fd));
    CleanupNums(s, fd, true);
    CleanupNums(s, fd, false);
  }

  // ---------------------------------------------------------------- runs

  datatype Event =
    | Connect(fd: int)
    | Get(fd: int, svc: byte)
    | Give(fd: int, svc: byte, cid: nat)
    | Close(fd: int)
    | Server(isNew: bool, v: Service)

  predicate Enabled(s: Proxy, e: Event) {
    match e
    case Connect(fd) => IndexOf(s.conns, fd) == |s.conns|
    case Get(fd, _) => IndexOf(s.conns, fd) < |s.conns|
    case Give(fd, _, _) => IndexOf(s.conns, fd) < |s.conns|
    case Close(fd) => IndexOf(s.conns, fd) < |s.conns|
    case Server(_, _) => true
  }

  function Step(s: Proxy, e: Event): Proxy
    requires |s.cids| > 0 && |s.ports| > 0 && Enabled(s, e)
  {
    match e
    case Connect(fd) => Accept(s, fd)
    case Get(fd, svc) => GetId(s, IndexOf(s.conns, fd), svc).0
    case Give(fd, svc, cid) => Release(s, IndexOf(s.conns, fd), svc, cid).0
    case Close(fd) => Cleanup(s, fd).0
    case Server(isNew, v) => ServerChange(s, isNew, v)
  }

  predicate Init(s: Proxy) {
    s.conns == [] && s.cids == seq(CLIENT_IDS, _ => 0 as byte) && s.ports == seq(PORT_IDS, _ => 0 as byte)
  }

  predicate Behavior(ss: seq<Proxy>, es: seq<Event>) {
    && |ss| == |es| + 1 && Init(ss[0])
    && forall i :: 0 <= i < |es| ==>
         |ss[i].cids| > 0 && |ss[i].ports| > 0 && Enabled(ss[i], es[i]) && ss[i + 1] == Step(ss[i], es[i])
  }

  lemma NewNums(conns: seq<Conn>, fd: int, port: bool)
    ensures Nums(conns + [Conn(fd, [])], port) == Nums(conns, port)
  {
    NumsAppend(conns, [Conn(fd, [])], port);
    assert Nums([Conn(fd, [])], port) == multiset{};
  }

  lemma GetKeepsPorts(s: Proxy, i: nat, svc: byte)
    requires |s.cids| > 0 && |s.ports| > 0 && i < |s.conns|
    ensures PortsExact(s) && Records(GetId(s, i, svc).0.conns) <= 255 ==> PortsExact(GetId(s, i, svc).0)
  {
    if PortsExact(s) && FindService(s.services, svc).Some? {
      GetNums(s, i, svc, true);
      GetKeepsPortsExactly(s, i, svc);
    }
  }

  lemma StepKeepsTables(s: Proxy, e: Event)
    requires CidsExact(s) && |s.ports| == PORT_IDS && Enabled(s, e)
    ensures CidsExact(Step(s, e))
    ensures PortsExact(s) && Records(Step(s, e).conns) <= 255 ==> PortsExact(Step(s, e))
  {
    match e
    case Connect(fd) =>
      NewNums(s.conns, fd, true);
      NewNums(s.conns, fd, false);
    case Get(fd, svc) =>
      GetKeepsCids(s, IndexOf(s.conns, fd), svc);
      GetKeepsPorts(s, IndexOf(s.conns, fd), svc);
    case Give(fd, svc, cid) =>
      ReleaseKeeps(s, IndexOf(s.conns, fd), svc, cid);
    case Close(fd) =>
      CleanupFreesAll(s, fd);
    case Server(isNew, v) =>
  }

  lemma {:induction false} ReleaseAllSize(s: Proxy, i: nat)
    requires i < |s.conns|
    ensures |ReleaseAll(s, i).0.ports| == |s.ports|
    decreases |s.conns[i].clients|
  {
    var cs := s.conns[i].clients;
    if cs != [] {
      ReleaseAllSize(Release(s, i, cs[0].svc, cs[0].cid).0, i);
    }
  }

  lemma StepKeepsShape(s: Proxy, e: Event)
    requires |s.cids| > 0 && |s.ports| == PORT_IDS && FdsDistinct(s.conns) && Enabled(s, e)
    ensures |Step(s, e).ports| == PORT_IDS && FdsDistinct(Step(s, e).conns)
  {
    if e.Close? {
      ReleaseAllSize(s, IndexOf(s.conns, e.fd));
      CleanupNums(s, e.fd, true);
    }
  }

  lemma {:induction false} InvAlways(ss: seq<Proxy>, es: seq<Event>, k: nat)
    requires Behavior(ss, es) && k < |ss|
    ensures CidsExact(ss[k]) && |ss[k].ports| == PORT_IDS && FdsDistinct(ss[k].conns)
    ensures (forall j :: 0 <= j <= k ==> Records(ss[j].conns) <= 255) ==> PortsExact(ss[k])
  {
    if k == 0 {
      FreshTable(CLIENT_IDS);
      FreshTable(PORT_IDS);
    } else {
      InvAlways(ss, es, k - 1);
      StepKeepsTables(ss[k - 1], es[k - 1]);
      StepKeepsShape(ss[k - 1], es[k - 1]);
    }
  }

  lemma GetKeepsNonzero(s: Proxy, i: nat, svc: byte)
    requires CidsExact(s) && |s.ports| > 0 && i < |s.conns| && Nums(s.conns, false)[0] == 0
    ensures Records(GetId(s, i, svc).0.conns) <= 239 ==> Nums(GetId(s, i, svc).0.conns, false)[0] == 0
  {
    if FindService(s.services, svc).Some? {
      GrantFailsExactly(s, i, svc);
      NumsSize(s.conns);
      NumsSize(GetId(s, i, svc).0.conns);
    }
  }

  /** An event that leaves at most 239 records adds no record without a client id. */
  lemma StepKeepsNonzero(s: Proxy, e: Event)
    requires CidsExact(s) && |s.ports| == PORT_IDS && Enabled(s, e) && Nums(s.conns, false)[0] == 0
    ensures Records(Step(s, e).conns) <= 239 ==> Nums(Step(s, e).conns, false)[0] == 0
  {
    match e
    case Connect(fd) =>
      NewNums(s.conns, fd, false);
    case Get(fd, svc) =>
      GetKeepsNonzero(s, IndexOf(s.conns, fd), svc);
    case Give(fd, svc, cid) =>
      var i := IndexOf(s.conns, fd);
      var k := Find(s.conns[i].clients, svc, cid);
      if k < |s.conns[i].clients| {
        ReleaseNums(s, i, k, false);
      }
    case Close(fd) =>
      CleanupNums(s, fd, false);
    case Server(isNew, v) =>
  }

  /** In every run that never holds more than 239 records every record has a nonzero client id. */
  lemma {:induction false} IdsNonzero(ss: seq<Proxy>, es: seq<Event>, k: nat)
    requires Behavior(ss, es) && k < |ss| && forall j :: 0 <= j <= k ==> Records(ss[j].conns) <= 239
    ensures Nums(ss[k].conns, false)[0] == 0
  {
    if k > 0 {
      IdsNonzero(ss, es, k - 1);
      InvAlways(ss, es, k - 1);
      StepKeepsNonzero(ss[k - 1], es[k - 1]);
    }
  }

  /** In every run, at every moment: a nonzero client id is in at most one record, and the table marks
      it exactly when it is in one; in runs that never hold more than 239 records no client id is 0. In
      runs that never hold more than 255 records every port is in one record and marked likewise. */
  lemma IdsDistinct(ss: seq<Proxy>, es: seq<Event>, k: nat, id: nat)
    requires Behavior(ss, es) && k < |ss| && id > 0
    ensures (forall j :: 0 <= j <= k ==> Records(ss[j].conns) <= 239) ==> Nums(ss[k].conns, false)[0] == 0
    ensures Nums(ss[k].conns, false)[id] <= 1
    ensures id in Nums(ss[k].conns, false) <==> id < |ss[k].cids| && ss[k].cids[id] != 0
    ensures (forall j :: 0 <= j <= k ==> Records(ss[j].conns) <= 255) ==>
              && Nums(ss[k].conns, true)[0] == 0
              && Nums(ss[k].conns, true)[id] <= 1
              && (id in Nums(ss[k].conns, true) <==> id < |ss[k].ports| && ss[k].ports[id] != 0)
  {
    InvAlways(ss, es, k);
    if forall j :: 0 <= j <= k ==> Records(ss[j].conns) <= 239 {
      IdsNonzero(ss, es, k);
    }
  }

  /** The modem's services among those announced, in order. */
  function Announced(es: seq<Event>): seq<Service> {
    if es == [] then []
    else
      var e := es[|es| - 1];
      Announced(es[..|es| - 1]) + (if e.Server? && e.isNew && e.v.node == 3 then [e.v] else [])
  }

  lemma StepServices(s: Proxy, e: Event)
    requires |s.cids| > 0 && |s.ports| > 0 && Enabled(s, e)
    ensures Step(s, e).services == s.services + (if e.Server? && e.isNew && e.v.node == 3 then [e.v] else [])
  {
    assert s.services + [] == s.services;
    if e.Close? {
      ReleaseAllEffect(s, IndexOf(s.conns, e.fd));
    }
  }

  /** In every run the services listed are those of the modem that have been announced, in order; no
      notice that one is gone ever takes it off the list. */
  lemma {:induction false} ServicesListed(ss: seq<Proxy>, es: seq<Event>, k: nat)
    requires Behavior(ss, es) && k < |ss|
    ensures ss[k].services == ss[0].services + Announced(es[..k])
  {
    if k > 0 {
      ServicesListed(ss, es, k - 1);
      StepServices(ss[k - 1], es[k - 1]);
      assert es[..k][..k - 1] == es[..k - 1];
    }
  }

  // ---------------------------------------------------------------- more records than a byte can mark

  const SVC: byte := 1
  const SOME_SERVICE := Service(1, NODE_MODEM, 16, NODE_MODEM)

  /** Two connections, the first with `n` records, and a known service. */
  predicate Crowded(s: Proxy, n: nat) {
    && |s.conns| == 2 && s.conns[0].fd == 7 && s.conns[1] == Conn(8, []) && |s.conns[0].clients| == n
    && s.services == [SOME_SERVICE] && |s.cids| > 0 && |s.ports| > 0
  }

  lemma CrowdedSize(s: Proxy, n: nat)
    requires Crowded(s, n)
    ensures Nums(s.conns, true) == NumsOf(s.conns[0].clients, true) && Records(s.conns) == n
  {
    NumsOfSize(s.conns[0].clients);
    assert Nums(s.conns[1..], true) == multiset{};
  }

  lemma {:induction false} ExtendRun(ss: seq<Proxy>, es: seq<Event>, e: Event)
    requires Behavior(ss, es)
    requires var s := ss[|es|]; |s.cids| > 0 && |s.ports| > 0 && Enabled(s, e)
    ensures Behavior(ss + [Step(ss[|es|], e)], es + [e])
  {
    var ss', es' := ss + [Step(ss[|es|], e)], es + [e];
    assert forall i :: 0 <= i < |ss| ==> ss'[i] == ss[i];
    assert forall i :: 0 <= i < |es| ==> es'[i] == es[i];
  }

  lemma StartOfCrowd() returns (ss: seq<Proxy>, es: seq<Event>)
    ensures Behavior(ss, es) && Crowded(ss[|es|], 0) && forall j :: 0 <= j < |ss| ==> Records(ss[j].conns) == 0
  {
    var s0 := Proxy([], seq(CLIENT_IDS, _ => 0 as byte), seq(PORT_IDS, _ => 0 as byte), []);
    var s1 := Accept(s0, 7);
    var s2 := Accept(s1, 8);
    var s3 := ServerChange(s2, true, SOME_SERVICE);
    assert s1.conns == [Conn(7, [])] && s2.conns == [Conn(7, []), Conn(8, [])] && s3.services == [SOME_SERVICE];
    es := [Connect(7), Connect(8), Server(true, SOME_SERVICE)];
    ss := [s0, s1, s2, s3];
    NewNums(s0.conns, 7, true);
    NewNums(s1.conns, 8, true);
    assert Nums(s0.conns, true) == multiset{};
  }

  lemma GetCrowds(s: Proxy, n: nat)
    requires Crowded(s, n)
    ensures Enabled(s, Get(7, SVC)) && Crowded(Step(s, Get(7, SVC)), n + 1)
  {
    assert IndexOf(s.conns, 7) == 0;
  }

  /** Any number of records can be reached: refusing a client id does not refuse the record. */
  lemma {:induction false} RunToCrowd(n: nat) returns (ss: seq<Proxy>, es: seq<Event>)
    ensures Behavior(ss, es) && Crowded(ss[|es|], n) && forall j :: 0 <= j < |ss| ==> Records(ss[j].conns) <= n
  {
    if n == 0 {
      ss, es := StartOfCrowd();
    } else {
      ss, es := RunToCrowd(n - 1);
      var s := ss[|es|];
      GetCrowds(s, n - 1);
      ExtendRun(ss, es, Get(7, SVC));
      CrowdedSize(Step(s, Get(7, SVC)), n);
      ss, es := ss + [Step(s, Get(7, SVC))], es + [Get(7, SVC)];
    }
  }

  lemma {:induction false} ListReaches(fd: int, cs: seq<Client>, port: nat, payload: seq<byte>)
    requires port in NumsOf(cs, true)
    ensures exists q :: q in ListDeliveries(fd, cs, NODE_MYSELF, port, payload) && q.fd == fd
  {
    if cs[0].port == port {
      assert ToClient(fd, cs[0], payload) in ListDeliveries(fd, cs, NODE_MYSELF, port, payload);
    } else {
      ListReaches(fd, cs[1..], port, payload);
    }
  }

  /** The port table with 255 records is full as far as it can tell: the next port is 256. */
  lemma FullTable(s: Proxy)
    requires PortsExact(s) && Records(s.conns) == 255
    ensures FirstFree(s.ports, 1) == 256
  {
    FullExactly(s.ports, Nums(s.conns, true));
    assert s.ports[256] == 0;
  }

  /** The bound of 255 is met: after 256 requests by one connection and one by another, both hold port
      256, and data meant for the one is written to the other as well. */
  lemma {:induction false} PortSharedAfter257(payload: seq<byte>) returns (ss: seq<Proxy>, es: seq<Event>)
    ensures Behavior(ss, es)
    ensures var s := ss[|es|];
            && Records(s.conns) == 257 && Nums(s.conns, true)[256] == 2
            && (exists q :: q in Deliver(s.conns, NODE_MYSELF, 256, payload) && q.fd == 7)
            && (exists q :: q in Deliver(s.conns, NODE_MYSELF, 256, payload) && q.fd == 8)
  {
    ss, es := RunToCrowd(255);
    var s := ss[|es|];
    InvAlways(ss, es, |es|);
    CrowdedSize(s, 255);
    FullTable(s);
    IdBeyondByte(s.ports);
    GetCrowds(s, 255);
    ExtendRun(ss, es, Get(7, SVC));
    var s1 := Step(s, Get(7, SVC));
    assert IndexOf(s.conns, 7) == 0;
    assert s1.ports == s.ports;
    GetNums(s, 0, SVC, true);
    CrowdedSize(s1, 256);
    ss, es := ss + [s1], es + [Get(7, SVC)];
    assert IndexOf(s1.conns, 8) == 1;
    ExtendRun(ss, es, Get(8, SVC));
    var s2 := Step(s1, Get(8, SVC));
    GetNums(s1, 1, SVC, true);
    ss, es := ss + [s2], es + [Get(8, SVC)];
    SharedBy(s1, s2, payload);
    assert 256 !in Nums(s.conns, true);
  }

  lemma SharedBy(s1: Proxy, s2: Proxy, payload: seq<byte>)
    requires Crowded(s1, 256) && FirstFree(s1.ports, 1) == 256 && 256 in Nums(s1.conns, true)
    requires s2 == GetId(s1, 1, SVC).0
    ensures exists q :: q in Deliver(s2.conns, NODE_MYSELF, 256, payload) && q.fd == 7
    ensures exists q :: q in Deliver(s2.conns, NODE_MYSELF, 256, payload) && q.fd == 8
  {
    CrowdedSize(s1, 256);
    var a, b := s2.conns[0], s2.conns[1];
    assert a == s1.conns[0] && b.fd == 8 && b.clients == [Client(SVC, FirstFree(s1.cids, 1), 256)];
    ListReaches(7, a.clients, 256, payload);
    ListReaches(8, b.clients, 256, payload);
    var da, db := ListDeliveries(7, a.clients, NODE_MYSELF, 256, payload), ListDeliveries(8, b.clients, NODE_MYSELF, 256, payload);
    var rest := s2.conns[1..];
    assert rest[0] == b && Deliver(rest[1..], NODE_MYSELF, 256, payload) == [];
    assert Deliver(rest, NODE_MYSELF, 256, payload) == db + [];
    assert Deliver(s2.conns, NODE_MYSELF, 256, payload) == da + Deliver(rest, NODE_MYSELF, 256, payload);
  }

  // ---------------------------------------------------------------- translation

  lemma {:induction false} ListDeliversOne(fd: int, cs: seq<Client>, port: nat, payload: seq<byte>, k: nat)
    requires NumsOf(cs, true)[port] <= 1
    ensures k < |cs| && cs[k].port == port ==> ListDeliveries(fd, cs, NODE_MYSELF, port, payload) == [ToClient(fd, cs[k], payload)]
    ensures port !in NumsOf(cs, true) ==> ListDeliveries(fd, cs, NODE_MYSELF, port, payload) == []
    ensures k < |cs| && cs[k].port == port ==> port in NumsOf(cs, true)
  {
    if cs != [] {
      ListDeliversOne(fd, cs[1..], port, payload, if k == 0 then 0 else k - 1);
    }
  }

  lemma {:induction false} DeliversOne(conns: seq<Conn>, port: nat, payload: seq<byte>, i: nat, k: nat)
    requires Nums(conns, true)[port] <= 1
    ensures i < |conns| && k < |conns[i].clients| && conns[i].clients[k].port == port ==>
              && Deliver(conns, NODE_MYSELF, port, payload) == [ToClient(conns[i].fd, conns[i].clients[k], payload)]
              && port in Nums(conns, true)
    ensures port !in Nums(conns, true) ==> Deliver(conns, NODE_MYSELF, port, payload) == []
  {
    if conns != [] {
      ListDeliversOne(conns[0].fd, conns[0].clients, port, payload, k);
      DeliversOne(conns[1..], port, payload, if i == 0 then 0 else i - 1, k);
    }
  }

  /** What it takes to send under a client id. */
  predicate MaySend(s: Proxy, i: nat, svc: byte, cid: nat)
    requires i < |s.conns|
  {
    svc != 0 && HasRecord(s.conns[i].clients, svc, cid) && Listed(s.services, svc)
  }

  /** A message leaves exactly when its id is in the sender's list and a service with its number, which
      is not 0, is listed. */
  lemma SendsExactly(s: Proxy, i: nat, svc: byte, cid: nat, payload: seq<byte>)
    requires i < |s.conns|
    ensures Send(s, i, svc, cid, payload).Some? <==> MaySend(s, i, svc, cid)
  {
  }

  /** Round trip and isolation: what a connection sends under an id of its own leaves unchanged, from
      the proxy's node and the port of that record, to the node and port of the first service listed
      with that number; and any data sent back to that node and port is written once, to that connection,
      with the same service type and client id and the data unchanged. */
  lemma TranslationRoundTrip(s: Proxy, i: nat, svc: byte, cid: nat, payload: seq<byte>, reply: seq<byte>)
    returns (k: nat, j: nat)
    requires PortsExact(s) && i < |s.conns| && MaySend(s, i, svc, cid)
    ensures FirstRecord(s.conns[i].clients, svc, cid, k) && FirstService(s.services, svc, j)
    ensures var port := s.conns[i].clients[k].port;
            && Send(s, i, svc, cid, payload) == Some(Data(1, port, s.services[j].node, s.services[j].port, payload))
            && Deliver(s.conns, 1, port, reply) == [Qmi(s.conns[i].fd, svc, cid, (|reply| + 5) % 0x10000, reply)]
  {
    k := Find(s.conns[i].clients, svc, cid);
    j := FirstListed(s.services, svc);
    FindsFirst(s.services, svc, j);
    var c := s.conns[i].clients[k];
    AtMostOnce(s, c.port);
    DeliversOne(s.conns, c.port, reply, i, k);
  }

  lemma AtMostOnce(s: Proxy, port: nat)
    requires PortsExact(s)
    ensures Nums(s.conns, true)[port] <= 1
  {
    if port >= |s.ports| {
      assert port !in Nums(s.conns, true);
    }
  }

  lemma {:induction false} InNumsOf(cs: seq<Client>, k: nat, port: bool)
    requires k < |cs|
    ensures Num(cs[k], port) in NumsOf(cs, port)
  {
    NumsOfSplit(cs, k, port);
  }

  lemma {:induction false} OtherNode(conns: seq<Conn>, node: nat, port: nat, payload: seq<byte>)
    requires node != 1
    ensures Deliver(conns, node, port, payload) == []
  {
    if conns != [] {
      OtherNodeList(conns[0].fd, conns[0].clients, node, port, payload);
      OtherNode(conns[1..], node, port, payload);
    }
  }

  lemma {:induction false} OtherNodeList(fd: int, cs: seq<Client>, node: nat, port: nat, payload: seq<byte>)
    requires node != 1
    ensures ListDeliveries(fd, cs, node, port, payload) == []
  {
    if cs != [] {
      OtherNodeList(fd, cs[1..], node, port, payload);
    }
  }

  /** Two connections never send from the same port, whatever they send and under whatever id; a message
      leaves only under an id in the sender's list; and data for another node, or for a port in no record,
      reaches nobody. */
  lemma Isolation(s: Proxy, i: nat, j: nat, m: (byte, nat, seq<byte>), n: (byte, nat, seq<byte>), port: nat)
    requires PortsExact(s) && i < |s.conns| && j < |s.conns|
    ensures var p, q := Send(s, i, m.0, m.1, m.2), Send(s, j, n.0, n.1, n.2);
            && (p.Some? && q.Some? && i != j ==> p.value.srcPort != q.value.srcPort)
            && (Find(s.conns[i].clients, m.0, m.1) == |s.conns[i].clients| ==> p.None?)
    ensures port > 0 && port !in Nums(s.conns, true) ==> Deliver(s.conns, NODE_MYSELF, port, m.2) == []
    ensures forall node :: node != 1 ==> Deliver(s.conns, node, port, m.2) == []
  {
    forall node | node != 1 ensures Deliver(s.conns, node, port, m.2) == [] {
      OtherNode(s.conns, node, port, m.2);
    }
    AtMostOnce(s, port);
    DeliversOne(s.conns, port, m.2, |s.conns|, 0);
    var p, q := Send(s, i, m.0, m.1, m.2), Send(s, j, n.0, n.1, n.2);
    if p.Some? && q.Some? && i != j {
      var a, b := Find(s.conns[i].clients, m.0, m.1), Find(s.conns[j].clients, n.0, n.1);
      InNumsOf(s.conns[i].clients, a, true);
      InNumsOf(s.conns[j].clients, b, true);
      AtMostOnce(s, p.value.srcPort);
      TwoLists(s.conns, i, j, p.value.srcPort);
    }
  }

  /** A number in the lists of two connections is counted twice. */
  lemma {:induction false} TwoLists(conns: seq<Conn>, i: nat, j: nat, x: nat)
    requires i < |conns| && j < |conns| && i != j
    ensures x in NumsOf(conns[i].clients, true) && x in NumsOf(conns[j].clients, true) ==> Nums(conns, true)[x] >= 2
  {
    NumsRemove(conns, i, true);
    var rest := conns[..i] + conns[i + 1..];
    var k := if j < i then j else j - 1;
    assert rest[k] == conns[j];
    NumsRemove(rest, k, true);
  }

  /** The length field of what a client is sent agrees with its size exactly up to 65530 bytes of
      data. */
  lemma LengthConsistent(fd: int, c: Client, payload: seq<byte>)
    ensures ToClient(fd, c, payload).length + 1 == 6 + |payload| <==> |payload| <= 65530
  {
  }
}
