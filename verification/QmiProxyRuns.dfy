/** Whole runs of the QMI proxy against a modem that answers control requests in order. */
module QmiProxyRuns {
  import opened Common
  import opened QmiProxy

  /** The proxy, the control requests written to the modem and not yet answered, the client ids the
      modem considers granted through the proxy, those among them that are lost: the modem has refused
      the proxy's own release of them, which the proxy does not look at; and all service messages
      written to the modem so far. */
  datatype Sys = Sys(p: Proxy, outstanding: seq<Pending>, granted: set<Id>, lost: set<Id>, services: seq<Msg>)

  datatype Event =
    | Connect(fd: int)
    | Close(fd: int)
    | Request(fd: int, msg: Msg)
    | Answer(ok: bool, cid: byte)
    | Notify(msg: Msg)

  // ---------------------------------------------------------------- accounts of client ids

  function OwnedIds(conns: seq<Conn>): multiset<Id> {
    if conns == [] then multiset{} else multiset(conns[0].clients) + OwnedIds(conns[1..])
  }

  predicate IsRelease(m: Msg) { m.Ctl? && m.ctlType == RELEASE_CLIENT_ID }

  /** The ids named by the proxy's own queued releases. */
  function ReleasedIds(ctl: seq<Pending>, serverFd: int): multiset<Id> {
    if ctl == [] then multiset{}
    else (if ctl[0].fd == serverFd && ctl[0].msg.Ctl? then multiset{ctl[0].msg.id} else multiset{})
         + ReleasedIds(ctl[1..], serverFd)
  }

  predicate Open(p: Proxy, fd: int) { exists i :: 0 <= i < |p.conns| && p.conns[i].fd == fd }

  predicate Owns(p: Proxy, fd: int, id: Id) {
    exists i :: 0 <= i < |p.conns| && p.conns[i].fd == fd && id in p.conns[i].clients
  }

  predicate Queued(ctl: seq<Pending>, fd: int) { exists i :: 0 <= i < |ctl| && ctl[i].fd == fd }

  /** At most one queued request is the connection's, and it is not the one at the modem. */
  predicate Closable(ctl: seq<Pending>, fd: int) {
    && (ctl != [] ==> ctl[0].fd != fd)
    && forall i, j :: 0 <= i < j < |ctl| && ctl[i].fd == fd ==> ctl[j].fd != fd
  }

  // ---------------------------------------------------------------- steps

  predicate Enabled(s: Sys, e: Event) {
    match e
    case Connect(fd) => fd > 0 && fd != s.p.serverFd && !Open(s.p, fd)
    case Close(fd) => Open(s.p, fd) && Closable(s.p.ctl, fd)
    case Request(fd, _) => Open(s.p, fd)
    case Answer(ok, cid) => s.outstanding != [] && s.outstanding[0].msg.Ctl? && AnswerFits(s, ok, cid)
    case Notify(m) => m.Svc? || m.flags != FLAG_RSP
  }

  /** The modem grants no id twice, and a client's release that it performs names an id of that client's
      own, or of nobody's. Any request may be refused, and clients may ask to release what they like. */
  predicate AnswerFits(s: Sys, ok: bool, cid: byte)
    requires s.outstanding != [] && s.outstanding[0].msg.Ctl?
  {
    var q := s.outstanding[0];
    && (ok && q.msg.ctlType == GET_CLIENT_ID ==> Id(q.msg.id.svc, cid) !in s.granted)
    && (ok && IsRelease(q.msg) && q.fd != s.p.serverFd && q.msg.id in s.granted ==>
          Owns(s.p, q.fd, q.msg.id) || q.msg.id in s.lost)
  }

  /** The modem's answer to a request, which it refuses unless `ok`: a grant names the new id, and the
      release of an id that is not granted fails. */
  function AnswerTo(req: Msg, ok: bool, cid: byte, granted: set<Id>): Msg
    requires req.Ctl?
  {
    if req.ctlType == GET_CLIENT_ID then Ctl(FLAG_RSP, req.tid, req.ctlType, ok, Id(req.id.svc, cid))
    else if req.ctlType == RELEASE_CLIENT_ID then Ctl(FLAG_RSP, req.tid, req.ctlType, ok && req.id in granted, req.id)
    else Ctl(FLAG_RSP, req.tid, req.ctlType, ok, req.id)
  }

  function GrantedAfter(granted: set<Id>, m: Msg): set<Id>
    requires m.Ctl?
  {
    if !m.ok then granted
    else if m.ctlType == GET_CLIENT_ID then granted + {m.id}
    else if m.ctlType == RELEASE_CLIENT_ID then granted - {m.id}
    else granted
  }

  /** A release the modem performs is lost no more; one of the proxy's own that it refuses is. */
  function LostAfter(lost: set<Id>, own: bool, m: Msg): set<Id>
    requires m.Ctl?
  {
    if m.ctlType != RELEASE_CLIENT_ID then lost
    else if m.ok then lost - {m.id}
    else if own then lost + {m.id}
    else lost
  }

  predicate OnlyCtl(p: Proxy) { forall q :: q in p.ctl ==> q.msg.Ctl? }

  function Handle(s: Sys, e: Event): Out
    requires OnlyCtl(s.p) && Enabled(s, e)
  {
    match e
    case Connect(fd) => Accept(s.p, fd)
    case Close(fd) => Cleanup(s.p, fd, true)
    case Request(fd, m) => FromClient(s.p, fd, m)
    case Answer(ok, cid) => FromDev(s.p, AnswerTo(s.outstanding[0].msg, ok, cid, s.granted))
    case Notify(m) => FromDev(s.p, m)
  }

  /** The system after any answer to the first outstanding request. */
  function Answered(s: Sys, ok: bool, cid: byte): Sys
    requires OnlyCtl(s.p) && s.outstanding != [] && s.outstanding[0].msg.Ctl?
  {
    var q := s.outstanding[0];
    var m := AnswerTo(q.msg, ok, cid, s.granted);
    var o := FromDev(s.p, m);
    Sys(o.p, s.outstanding[1..] + o.ctlWrites, GrantedAfter(s.granted, m), LostAfter(s.lost, q.fd == s.p.serverFd, m),
        s.services + o.svcWrites)
  }

  function Step(s: Sys, e: Event): Sys
    requires OnlyCtl(s.p) && Enabled(s, e)
  {
    var o := Handle(s, e);
    if e.Answer? then Answered(s, e.ok, e.cid)
    else s.(p := o.p, outstanding := s.outstanding + o.ctlWrites, services := s.services + o.svcWrites)
  }

  // ---------------------------------------------------------------- the invariant

  /** Exactly the head of the queue is at the modem. */
  predicate HeadOutstanding(s: Sys) {
    s.outstanding == s.p.ctl[..if s.p.ctl == [] then 0 else 1]
  }

  predicate ConnsOk(conns: seq<Conn>, serverFd: int) {
    && (forall i :: 0 <= i < |conns| ==> conns[i].fd != serverFd)
    && (forall i, j :: 0 <= i < j < |conns| ==> conns[i].fd != conns[j].fd)
  }

  predicate UidsOk(ctl: seq<Pending>, nextUid: nat) {
    && (forall i :: 0 <= i < |ctl| ==> ctl[i].uid < nextUid)
    && (forall i, j :: 0 <= i < j < |ctl| ==> ctl[i].uid != ctl[j].uid)
  }

  predicate WellFormed(p: Proxy) {
    p.serverFd > 0 && OnlyCtl(p) && ConnsOk(p.conns, p.serverFd) && UidsOk(p.ctl, p.nextUid)
  }

  /** A queued request is the proxy's own release, or comes from an open connection. */
  predicate EntrySound(p: Proxy, q: Pending) {
    if q.fd == p.serverFd then IsRelease(q.msg) else Open(p, q.fd)
  }

  predicate QueueSound(p: Proxy) {
    forall i :: 0 <= i < |p.ctl| ==> EntrySound(p, p.ctl[i])
  }

  /** The granted ids are, as a disjoint union, those in the connections' lists, those the queued
      releases name, and the lost ones. */
  predicate Conserved(s: Sys) {
    multiset(s.granted) == OwnedIds(s.p.conns) + ReleasedIds(s.p.ctl, s.p.serverFd) + multiset(s.lost)
  }

  predicate Inv(s: Sys) {
    WellFormed(s.p) && HeadOutstanding(s) && QueueSound(s.p) && Conserved(s)
  }

  // ---------------------------------------------------------------- lemmas on the accounts

  lemma {:induction false} OwnedAppend(a: seq<Conn>, b: seq<Conn>)
    ensures OwnedIds(a + b) == OwnedIds(a) + OwnedIds(b)
  {
    if a == [] {
      assert a + b == b;
    } else {
      assert (a + b)[1..] == a[1..] + b;
      OwnedAppend(a[1..], b);
    }
  }

  lemma OwnedSplit(conns: seq<Conn>, i: nat)
    requires i < |conns|
    ensures OwnedIds(conns) == OwnedIds(conns[..i] + conns[i + 1..]) + multiset(conns[i].clients)
    ensures forall c :: OwnedIds(conns[i := c]) == OwnedIds(conns[..i] + conns[i + 1..]) + multiset(c.clients)
  {
    forall c: Conn ensures OwnedIds(conns[i := c]) == OwnedIds(conns[..i] + conns[i + 1..]) + multiset(c.clients) {
      assert conns[i := c] == conns[..i] + ([c] + conns[i + 1..]);
      OwnedAppend(conns[..i], [c] + conns[i + 1..]);
      OwnedAppend(conns[..i], conns[i + 1..]);
      assert ([c] + conns[i + 1..])[1..] == conns[i + 1..];
    }
    assert conns[i := conns[i]] == conns;
  }

  lemma {:induction false} ReleasedAppend(a: seq<Pending>, b: seq<Pending>, serverFd: int)
    ensures ReleasedIds(a + b, serverFd) == ReleasedIds(a, serverFd) + ReleasedIds(b, serverFd)
  {
    if a == [] {
      assert a + b == b;
    } else {
      assert (a + b)[1..] == a[1..] + b;
      ReleasedAppend(a[1..], b, serverFd);
    }
  }

  /** A disconnect's releases name each owned id exactly as often as the list does; each is a release
      request with transaction id 255. */
  lemma {:induction false} ReleasesName(serverFd: int, uid: nat, ids: seq<Id>)
    ensures ReleasedIds(Releases(serverFd, uid, ids), serverFd) == multiset(ids)
    ensures |Releases(serverFd, uid, ids)| == |ids|
    ensures forall k :: 0 <= k < |ids| ==> Releases(serverFd, uid, ids)[k].msg == Ctl(0, 255, 0x23, true, ids[k])
    decreases ids
  {
    if ids != [] {
      assert Releases(serverFd, uid, ids)[1..] == Releases(serverFd, uid + 1, ids[1..]);
      ReleasesName(serverFd, uid + 1, ids[1..]);
      assert ids == [ids[0]] + ids[1..];
    }
  }

  lemma {:induction false} RemoveFirstNone(ctl: seq<Pending>, fd: int)
    requires forall i :: 0 <= i < |ctl| ==> ctl[i].fd != fd
    ensures RemoveFirst(ctl, fd) == ctl
  {
    if ctl != [] {
      RemoveFirstNone(ctl[1..], fd);
    }
  }

  lemma {:induction false} RemoveFirstAppend(ctl: seq<Pending>, rel: seq<Pending>, fd: int)
    requires forall i :: 0 <= i < |rel| ==> rel[i].fd != fd
    ensures RemoveFirst(ctl + rel, fd) == RemoveFirst(ctl, fd) + rel
  {
    if ctl == [] {
      assert ctl + rel == rel;
      RemoveFirstNone(rel, fd);
    } else {
      assert (ctl + rel)[1..] == ctl[1..] + rel;
      RemoveFirstAppend(ctl[1..], rel, fd);
    }
  }

  /** What is left of the queue is all of it, or all but one request of `fd`. */
  lemma RemoveFirstIs(ctl: seq<Pending>, fd: int) returns (c: nat)
    ensures c <= |ctl| && (c < |ctl| ==> ctl[c].fd == fd) && forall j :: 0 <= j < c ==> ctl[j].fd != fd
    ensures RemoveFirst(ctl, fd) == if c < |ctl| then ctl[..c] + ctl[c + 1..] else ctl
  {
    c := 0;
    while c < |ctl| && ctl[c].fd != fd
      invariant c <= |ctl| && forall j :: 0 <= j < c ==> ctl[j].fd != fd
    {
      c := c + 1;
    }
    RemoveFirstAt(ctl, fd, c);
  }

  lemma {:induction false} RemoveIdCounts(ids: seq<Id>, id: Id)
    ensures multiset(RemoveId(ids, id)) == multiset(ids) - multiset{id}
    ensures forall x :: x != id && x in ids ==> x in RemoveId(ids, id)
  {
    if ids != [] {
      assert ids == [ids[0]] + ids[1..];
      if ids[0] != id {
        RemoveIdCounts(ids[1..], id);
      }
    }
  }

  lemma {:induction false} InList(conns: seq<Conn>, i: nat, id: Id)
    requires i < |conns| && id in conns[i].clients
    ensures id in OwnedIds(conns)
  {
    OwnedSplit(conns, i);
  }

  // ---------------------------------------------------------------- each step keeps the invariant

  lemma ConnectKeeps(s: Sys, fd: int)
    requires Inv(s) && Enabled(s, Connect(fd))
    ensures Inv(Step(s, Connect(fd)))
  {
    ConnectAccounts(s.p.conns, fd);
    ConnectQueueSound(s.p, fd);
    assert s.outstanding + [] == s.outstanding && s.services + [] == s.services;
  }

  lemma ConnectAccounts(conns: seq<Conn>, fd: int)
    ensures OwnedIds(conns + [Conn(fd, [])]) == OwnedIds(conns)
  {
    OwnedAppend(conns, [Conn(fd, [])]);
    assert OwnedIds([Conn(fd, [])]) == multiset{};
  }

  lemma ConnectQueueSound(p: Proxy, fd: int)
    requires QueueSound(p)
    ensures QueueSound(Accept(p, fd).p)
  {
    var p' := Accept(p, fd).p;
    assert forall i :: 0 <= i < |p.conns| ==> p'.conns[i] == p.conns[i];
    forall i | 0 <= i < |p'.ctl| ensures EntrySound(p', p'.ctl[i]) {
      assert EntrySound(p, p.ctl[i]);
    }
  }

  /** The proxy once a disconnect has taken the connection's first request off the queue. */
  function Dropped(p: Proxy, fd: int): Proxy { p.(ctl := RemoveFirst(p.ctl, fd)) }

  function Closed(s: Sys, fd: int): Sys {
    var o := Cleanup(s.p, fd, true);
    s.(p := o.p, outstanding := s.outstanding + o.ctlWrites, services := s.services + o.svcWrites)
  }

  lemma CloseQueue(p: Proxy, fd: int)
    requires WellFormed(p) && Open(p, fd)
    ensures var i := IndexOf(p.conns, fd);
            && i < |p.conns|
            && Cleanup(p, fd, true).p.ctl
               == RemoveFirst(p.ctl, fd) + Releases(p.serverFd, p.nextUid, p.conns[i].clients)
            && Cleanup(p, fd, true).p.conns == p.conns[..i] + p.conns[i + 1..]
  {
    var i := IndexOf(p.conns, fd);
    RemoveFirstAppend(p.ctl, Releases(p.serverFd, p.nextUid, p.conns[i].clients), fd);
  }

  /** A descriptor nobody has open is closed without effect; and when the proxy itself ends and closes a
      connection no id is given back: the connection and its first queued request go, and nothing is
      written. */
  lemma OtherCloses(p: Proxy, fd: int, disconnect: bool)
    ensures !Open(p, fd) ==> Cleanup(p, fd, disconnect) == Out(p, [], [], [])
    ensures Open(p, fd) ==>
              var o, i := Cleanup(p, fd, false), IndexOf(p.conns, fd);
              && i < |p.conns| && o.ctlWrites == [] && o.svcWrites == [] && o.toClients == []
              && o.p == p.(conns := p.conns[..i] + p.conns[i + 1..], ctl := RemoveFirst(p.ctl, fd))
  {
    assert p.ctl + [] == p.ctl;
  }

  /** Dropping a connection's queued request disturbs neither the rest of the queue nor the accounts. */
  lemma DropKeeps(p: Proxy, fd: int)
    requires WellFormed(p) && fd != p.serverFd
    ensures WellFormed(Dropped(p, fd))
    ensures QueueSound(p) ==> QueueSound(Dropped(p, fd))
    ensures ReleasedIds(Dropped(p, fd).ctl, p.serverFd) == ReleasedIds(p.ctl, p.serverFd)
    ensures Closable(p.ctl, fd) ==> !Queued(Dropped(p, fd).ctl, fd)
  {
    var c := RemoveFirstIs(p.ctl, fd);
    if c < |p.ctl| {
      DropAccounts(p.ctl, c, p.serverFd);
      DropShape(p.ctl, c, p.nextUid, fd);
      if QueueSound(p) {
        DropQueueSound(p, c, Dropped(p, fd));
      }
    }
  }

  lemma DropShape(ctl: seq<Pending>, c: nat, uid: nat, fd: int)
    requires c < |ctl| && ctl[c].fd == fd && UidsOk(ctl, uid) && forall q :: q in ctl ==> q.msg.Ctl?
    ensures var kept := ctl[..c] + ctl[c + 1..];
            && |kept| == |ctl| - 1 && (forall k :: 0 <= k < |kept| ==> kept[k] == ctl[if k < c then k else k + 1])
            && UidsOk(kept, uid) && (forall q :: q in kept ==> q.msg.Ctl?) && (Closable(ctl, fd) ==> !Queued(kept, fd))
  {
    var kept := ctl[..c] + ctl[c + 1..];
    assert forall k :: 0 <= k < |kept| ==> kept[k] == ctl[if k < c then k else k + 1];
  }

  lemma DropAccounts(ctl: seq<Pending>, c: nat, serverFd: int)
    requires c < |ctl| && ctl[c].fd != serverFd
    ensures ReleasedIds(ctl[..c] + ctl[c + 1..], serverFd) == ReleasedIds(ctl, serverFd)
  {
    assert ctl == ctl[..c] + ctl[c..];
    assert ctl[c..][1..] == ctl[c + 1..];
    ReleasedAppend(ctl[..c], ctl[c..], serverFd);
    ReleasedAppend(ctl[..c], ctl[c + 1..], serverFd);
  }

  lemma DropQueueSound(p: Proxy, c: nat, p0: Proxy)
    requires QueueSound(p) && c < |p.ctl| && p0 == p.(ctl := p0.ctl) && |p0.ctl| == |p.ctl| - 1
    requires forall k :: 0 <= k < |p0.ctl| ==> p0.ctl[k] == p.ctl[if k < c then k else k + 1]
    ensures QueueSound(p0)
  {
    forall k | 0 <= k < |p0.ctl| ensures EntrySound(p0, p0.ctl[k]) {
      assert EntrySound(p, p.ctl[if k < c then k else k + 1]);
    }
  }

  lemma CloseKeeps(s: Sys, fd: int)
    requires Inv(s) && Enabled(s, Close(fd))
    ensures Inv(Step(s, Close(fd)))
  {
    CloseConserves(s, fd);
    CloseShape(s, fd);
    CloseQueueSound(s.p, fd);
  }

  lemma CloseConserves(s: Sys, fd: int)
    requires WellFormed(s.p) && Conserved(s) && Open(s.p, fd)
    ensures Conserved(Closed(s, fd))
  {
    CloseQueue(s.p, fd);
    DropKeeps(s.p, fd);
    CloseAccounts(Dropped(s.p, fd), IndexOf(s.p.conns, fd));
  }

  /** A disconnect moves the connection's ids from its list to the queued releases. */
  lemma CloseAccounts(p: Proxy, i: nat)
    requires i < |p.conns|
    ensures OwnedIds(p.conns) + ReleasedIds(p.ctl, p.serverFd)
         == OwnedIds(p.conns[..i] + p.conns[i + 1..])
            + ReleasedIds(p.ctl + Releases(p.serverFd, p.nextUid, p.conns[i].clients), p.serverFd)
  {
    var ids := p.conns[i].clients;
    OwnedSplit(p.conns, i);
    ReleasedAppend(p.ctl, Releases(p.serverFd, p.nextUid, ids), p.serverFd);
    ReleasesName(p.serverFd, p.nextUid, ids);
  }

  lemma CloseShape(s: Sys, fd: int)
    requires Inv(s) && Open(s.p, fd)
    ensures WellFormed(Closed(s, fd).p)
    ensures HeadOutstanding(Closed(s, fd)) <==> s.p.ctl == [] || s.p.ctl[0].fd != fd
  {
    var p := s.p;
    var i := IndexOf(p.conns, fd);
    CloseQueue(p, fd);
    DropKeeps(p, fd);
    UidsReleases(Dropped(p, fd).ctl, p.nextUid, p.serverFd, p.conns[i].clients);
    ConnsRemoved(p.conns, p.serverFd, i);
    CloseKeepsHeadExactly(s, fd);
  }

  lemma UidsReleases(ctl: seq<Pending>, uid: nat, serverFd: int, ids: seq<Id>)
    requires UidsOk(ctl, uid) && forall q :: q in ctl ==> q.msg.Ctl?
    ensures UidsOk(ctl + Releases(serverFd, uid, ids), uid + |ids|)
    ensures forall q :: q in ctl + Releases(serverFd, uid, ids) ==> q.msg.Ctl?
  {
  }

  lemma ConnsRemoved(conns: seq<Conn>, serverFd: int, i: nat)
    requires ConnsOk(conns, serverFd) && i < |conns|
    ensures ConnsOk(conns[..i] + conns[i + 1..], serverFd)
  {
  }

  lemma CloseQueueSound(p: Proxy, fd: int)
    requires WellFormed(p) && QueueSound(p) && Open(p, fd) && Closable(p.ctl, fd)
    ensures QueueSound(Cleanup(p, fd, true).p)
  {
    CloseQueue(p, fd);
    DropKeeps(p, fd);
    WithoutConn(Dropped(p, fd), IndexOf(p.conns, fd), Cleanup(p, fd, true).p);
  }

  lemma WithoutConn(p: Proxy, i: nat, p': Proxy)
    requires QueueSound(p) && i < |p.conns| && forall k :: 0 <= k < |p.ctl| ==> p.ctl[k].fd != p.conns[i].fd
    requires p'.serverFd == p.serverFd && p'.conns == p.conns[..i] + p.conns[i + 1..]
    requires p'.ctl == p.ctl + Releases(p.serverFd, p.nextUid, p.conns[i].clients)
    ensures QueueSound(p')
  {
    var n := |p.ctl|;
    assert forall k :: n <= k < |p'.ctl| ==> p'.ctl[k].fd == p.serverFd && IsRelease(p'.ctl[k].msg);
    forall k | 0 <= k < |p'.ctl| ensures EntrySound(p', p'.ctl[k]) {
      if k < n {
        assert EntrySound(p, p.ctl[k]);
        StillOpen(p, i, p.ctl[k]);
      }
    }
  }

  /** Requests of other connections survive the removal of connection `i`. */
  lemma StillOpen(p: Proxy, i: nat, q: Pending)
    requires i < |p.conns| && q.fd != p.conns[i].fd && EntrySound(p, q)
    ensures EntrySound(p.(conns := p.conns[..i] + p.conns[i + 1..]), q)
  {
    var conns' := p.conns[..i] + p.conns[i + 1..];
    assert forall j :: 0 <= j < |p.conns| && j != i ==> conns'[if j < i then j else j - 1] == p.conns[j];
  }

  lemma RequestKeeps(s: Sys, fd: int, m: Msg)
    requires Inv(s) && Enabled(s, Request(fd, m))
    ensures Inv(Step(s, Request(fd, m)))
  {
    RequestStep(s, fd, m);
    if m.Ctl? && m.ctlType != SYNC {
      var q := Pending(fd, s.p.nextUid, m);
      RequestSound(s.p, q);
      EnqueuedShape(s, q);
      RequestQueueSound(s.p, q);
    }
  }

  /** The system once a client's request is queued, and at the modem if it is the only one. */
  function Enqueued(s: Sys, q: Pending): Sys {
    s.(p := s.p.(ctl := s.p.ctl + [q], nextUid := s.p.nextUid + 1),
       outstanding := s.outstanding + (if s.p.ctl == [] then [q] else []))
  }

  lemma RequestStep(s: Sys, fd: int, m: Msg)
    requires WellFormed(s.p) && Enabled(s, Request(fd, m))
    ensures Step(s, Request(fd, m)) ==
            if m.Svc? then s.(services := s.services + [m])
            else if m.ctlType != SYNC then Enqueued(s, Pending(fd, s.p.nextUid, m))
            else s
  {
    assert s.outstanding + [] == s.outstanding && s.services + [] == s.services;
  }

  lemma RequestSound(p: Proxy, q: Pending)
    requires ConnsOk(p.conns, p.serverFd) && Open(p, q.fd)
    ensures q.fd != p.serverFd && EntrySound(p, q)
  {
  }

  lemma EnqueuedShape(s: Sys, q: Pending)
    requires WellFormed(s.p) && HeadOutstanding(s) && Conserved(s)
    requires q.fd != s.p.serverFd && q.uid == s.p.nextUid && q.msg.Ctl?
    ensures var s' := Enqueued(s, q); WellFormed(s'.p) && HeadOutstanding(s') && Conserved(s')
  {
    RequestAccounts(s.p.ctl, q, s.p.serverFd);
    RequestShape(s, q);
  }

  lemma RequestAccounts(ctl: seq<Pending>, q: Pending, serverFd: int)
    requires q.fd != serverFd
    ensures ReleasedIds(ctl + [q], serverFd) == ReleasedIds(ctl, serverFd)
  {
    ReleasedAppend(ctl, [q], serverFd);
    assert ReleasedIds([q], serverFd) == multiset{};
  }

  lemma RequestShape(s: Sys, q: Pending)
    requires WellFormed(s.p) && HeadOutstanding(s) && q.uid == s.p.nextUid && q.msg.Ctl?
    ensures var ctl := s.p.ctl + [q];
            && UidsOk(ctl, s.p.nextUid + 1) && (forall r :: r in ctl ==> r.msg.Ctl?)
            && s.outstanding + (if s.p.ctl == [] then [q] else []) == ctl[..if ctl == [] then 0 else 1]
  {
  }

  lemma RequestQueueSound(p: Proxy, q: Pending)
    requires QueueSound(p) && q.fd != p.serverFd && EntrySound(p, q)
    ensures QueueSound(p.(ctl := p.ctl + [q], nextUid := p.nextUid + 1))
  {
    var p' := p.(ctl := p.ctl + [q], nextUid := p.nextUid + 1);
    forall k | 0 <= k < |p'.ctl| ensures EntrySound(p', p'.ctl[k]) {
      if k < |p.ctl| {
        assert EntrySound(p, p.ctl[k]);
      }
    }
  }

  lemma NotifyKeeps(s: Sys, m: Msg)
    requires Inv(s) && Enabled(s, Notify(m))
    ensures Inv(Step(s, Notify(m))) && Step(s, Notify(m)).p == s.p
  {
    assert s.outstanding + [] == s.outstanding;
  }

  /** With distinct descriptors a response changes the requester's record alone. */
  lemma RespondOne(conns: seq<Conn>, i: nat, m: Msg)
    requires m.Ctl? && i < |conns|
    requires forall j, k :: 0 <= j < k < |conns| ==> conns[j].fd != conns[k].fd
    ensures Respond(conns, conns[i].fd, m) == conns[i := AfterResponse(conns[i], m)]
  {
  }

  lemma {:induction false} ResponseWritesOne(conns: seq<Conn>, i: nat, fd: int, m: Msg)
    requires forall j, k :: 0 <= j < k < |conns| ==> conns[j].fd != conns[k].fd
    ensures i < |conns| && conns[i].fd == fd ==> ResponseWrites(conns, fd, m) == [Delivery(fd, m)]
    ensures (forall j :: 0 <= j < |conns| ==> conns[j].fd != fd) ==> ResponseWrites(conns, fd, m) == []
  {
    if conns != [] {
      ResponseWritesOne(conns[1..], if i == 0 then 0 else i - 1, fd, m);
      assert conns[0].fd == fd ==> forall j :: 0 <= j < |conns[1..]| ==> conns[1..][j].fd != fd;
    }
  }

  /** What the invariant says of the request at the modem: it is the queue's head, and if it is the
      proxy's own release, the id it names is granted and not lost. */
  lemma HeadHeld(s: Sys)
    requires Inv(s) && s.outstanding != []
    ensures s.p.ctl != [] && s.outstanding == [s.p.ctl[0]] && s.p.ctl[0].msg.Ctl?
    ensures s.p.ctl[0].fd == s.p.serverFd ==>
              && IsRelease(s.p.ctl[0].msg) && s.p.ctl[0].msg.id in s.granted && s.p.ctl[0].msg.id !in s.lost
  {
    var p := s.p;
    assert EntrySound(p, p.ctl[0]);
    if p.ctl[0].fd == p.serverFd {
      var id := p.ctl[0].msg.id;
      assert ReleasedIds(p.ctl, p.serverFd)[id] >= 1;
      assert multiset(s.granted)[id] <= 1;
    }
  }

  /** The whole effect of an answer while exactly the head is outstanding. */
  lemma AnswerStep(s: Sys, ok: bool, cid: byte)
    requires OnlyCtl(s.p) && s.p.serverFd > 0 && HeadOutstanding(s) && s.outstanding != []
    ensures s.p.ctl != [] && s.outstanding == [s.p.ctl[0]]
    ensures var p := s.p; var q := p.ctl[0]; var m := AnswerTo(q.msg, ok, cid, s.granted);
            Answered(s, ok, cid) ==
            Sys(p.(ctl := p.ctl[1..], conns := if q.fd == p.serverFd then p.conns else Respond(p.conns, q.fd, m)),
                p.ctl[1..if |p.ctl| > 1 then 2 else 1], GrantedAfter(s.granted, m),
                LostAfter(s.lost, q.fd == p.serverFd, m), s.services)
  {
    assert s.outstanding[1..] == [] && s.services + [] == s.services;
  }

  /** The answer to the queue's head, seen by the accounts: they stay balanced exactly when the modem
      grants an id that was free, or performs a release of an id that is the requester's own or nobody's.
      Refusals never unbalance them. */
  lemma AnswerConservesExactly(s: Sys, ok: bool, cid: byte)
    requires Inv(s) && s.outstanding != []
    ensures s.outstanding[0].msg.Ctl? && (Conserved(Answered(s, ok, cid)) <==> AnswerFits(s, ok, cid))
  {
    HeadHeld(s);
    AnswerStep(s, ok, cid);
    var p := s.p;
    var q := p.ctl[0];
    if q.fd == p.serverFd {
      OwnAnswer(s, ok, cid);
    } else {
      assert EntrySound(p, q);
      var i :| 0 <= i < |p.conns| && p.conns[i].fd == q.fd;
      AnswerClient(s, ok, cid, i);
    }
  }

  lemma OwnAnswer(s: Sys, ok: bool, cid: byte)
    requires Inv(s) && s.outstanding != [] && s.p.ctl != [] && s.p.ctl[0].fd == s.p.serverFd
    ensures s.outstanding[0].msg.Ctl? && Conserved(Answered(s, ok, cid))
  {
    HeadHeld(s);
    AnswerStep(s, ok, cid);
    var id := s.p.ctl[0].msg.id;
    assert multiset(s.granted - {id}) == multiset(s.granted) - multiset{id};
    assert multiset(s.lost + {id}) == multiset(s.lost) + multiset{id};
    assert s.lost - {id} == s.lost;
  }

  lemma AnswerClient(s: Sys, ok: bool, cid: byte, i: nat)
    requires WellFormed(s.p) && HeadOutstanding(s) && Conserved(s) && s.p.ctl != []
    requires i < |s.p.conns| && s.p.conns[i].fd == s.p.ctl[0].fd != s.p.serverFd
    ensures s.outstanding == [s.p.ctl[0]] && s.p.ctl[0].msg.Ctl?
    ensures Conserved(Answered(s, ok, cid)) <==> AnswerFits(s, ok, cid)
  {
    AnswerStep(s, ok, cid);
    var p, q := s.p, s.p.ctl[0];
    var m := AnswerTo(q.msg, ok, cid, s.granted);
    RespondOne(p.conns, i, m);
    OneHolder(s, i, m.id);
    ClientConserves(p.conns, i, m, s.granted, s.lost, ReleasedIds(p.ctl[1..], p.serverFd));
    FitsMeans(s, ok, cid, i);
  }

  /** What an answer must not be, in terms of the message. */
  predicate Balances(c: Conn, m: Msg, granted: set<Id>, lost: set<Id>)
    requires m.Ctl?
  {
    && (m.ok && m.ctlType == GET_CLIENT_ID ==> m.id !in granted)
    && (m.ok && m.ctlType == RELEASE_CLIENT_ID ==> m.id in c.clients || m.id in lost)
  }

  lemma FitsMeans(s: Sys, ok: bool, cid: byte, i: nat)
    requires ConnsOk(s.p.conns, s.p.serverFd) && s.outstanding != [] && s.outstanding[0].msg.Ctl?
    requires i < |s.p.conns| && s.p.conns[i].fd == s.outstanding[0].fd
    ensures var m := AnswerTo(s.outstanding[0].msg, ok, cid, s.granted);
            Balances(s.p.conns[i], m, s.granted, s.lost) <==> AnswerFits(s, ok, cid)
  {
    OwnsAt(s.p, i, s.outstanding[0].msg.id);
  }

  lemma ClientConserves(conns: seq<Conn>, i: nat, m: Msg, granted: set<Id>, lost: set<Id>, queued: multiset<Id>)
    requires m.Ctl? && i < |conns| && multiset(granted) == OwnedIds(conns) + queued + multiset(lost)
    requires m.ok && m.ctlType == RELEASE_CLIENT_ID ==> m.id in granted
    requires m.id in conns[i].clients ==> m.id !in lost
    ensures multiset(GrantedAfter(granted, m))
            == OwnedIds(conns[i := AfterResponse(conns[i], m)]) + queued + multiset(LostAfter(lost, false, m))
            <==> Balances(conns[i], m, granted, lost)
  {
    var c, c' := conns[i], AfterResponse(conns[i], m);
    var others := OwnedIds(conns[..i] + conns[i + 1..]) + queued;
    OwnedSplit(conns, i);
    ClientAnswer(c, m, granted, lost);
    Exchange(multiset(granted), multiset(GrantedAfter(granted, m)), multiset(c.clients), multiset(c'.clients),
             multiset(lost), multiset(LostAfter(lost, false, m)), others);
  }

  lemma OwnsAt(p: Proxy, i: nat, id: Id)
    requires ConnsOk(p.conns, p.serverFd) && i < |p.conns|
    ensures Owns(p, p.conns[i].fd, id) <==> id in p.conns[i].clients
  {
  }

  /** No id is both in a list and lost, and what is in a list or lost is granted. */
  lemma OneHolder(s: Sys, i: nat, id: Id)
    requires Conserved(s) && i < |s.p.conns|
    ensures id in s.p.conns[i].clients ==> id in s.granted && id !in s.lost
    ensures id in s.lost ==> id in s.granted
  {
    if id in s.p.conns[i].clients {
      InList(s.p.conns, i, id);
    }
    assert multiset(s.granted)[id] == OwnedIds(s.p.conns)[id] + ReleasedIds(s.p.ctl, s.p.serverFd)[id] + multiset(s.lost)[id];
  }

  lemma Exchange(g: multiset<Id>, g': multiset<Id>, c: multiset<Id>, c': multiset<Id>, l: multiset<Id>, l': multiset<Id>,
                 others: multiset<Id>)
    requires g == others + c + l
    ensures g' == others + c' + l' <==> g' + c + l == g + c' + l'
  {
    if g' + c + l == g + c' + l' {
      forall x ensures g'[x] == (others + c' + l')[x] {
        assert (g' + c + l)[x] == (g + c' + l')[x];
      }
    }
  }

  /** What the modem's set gains or loses is what the requester's list and the lost ids do. */
  lemma ClientAnswer(c: Conn, m: Msg, granted: set<Id>, lost: set<Id>)
    requires m.Ctl? && (m.ok && m.ctlType == RELEASE_CLIENT_ID ==> m.id in granted)
    requires m.id in c.clients ==> m.id !in lost
    ensures var c', g', l' := AfterResponse(c, m), GrantedAfter(granted, m), LostAfter(lost, false, m);
            multiset(g') + multiset(c.clients) + multiset(lost) == multiset(granted) + multiset(c'.clients) + multiset(l')
            <==> Balances(c, m, granted, lost)
  {
    if m.ok && m.ctlType == GET_CLIENT_ID {
      GainAccounts(c.clients, m.id, granted, lost);
    } else if m.ok && m.ctlType == RELEASE_CLIENT_ID {
      LossAccounts(c.clients, m.id, granted, lost);
    }
  }

  lemma GainAccounts(ids: seq<Id>, id: Id, granted: set<Id>, lost: set<Id>)
    ensures multiset(granted + {id}) + multiset(ids) + multiset(lost) == multiset(granted) + multiset(ids + [id]) + multiset(lost)
            <==> id !in granted
  {
    if id !in granted {
      assert multiset(granted + {id}) == multiset(granted) + multiset{id};
    } else {
      assert granted + {id} == granted;
      assert multiset(ids + [id])[id] == multiset(ids)[id] + 1;
      assert (multiset(granted) + multiset(ids) + multiset(lost))[id]
          != (multiset(granted) + multiset(ids + [id]) + multiset(lost))[id];
    }
  }

  lemma LossAccounts(ids: seq<Id>, id: Id, granted: set<Id>, lost: set<Id>)
    requires id in granted && (id in ids ==> id !in lost)
    ensures multiset(granted - {id}) + multiset(ids) + multiset(lost)
            == multiset(granted) + multiset(RemoveId(ids, id)) + multiset(lost - {id})
            <==> id in ids || id in lost
  {
    RemoveIdCounts(ids, id);
    assert multiset(granted - {id}) == multiset(granted) - multiset{id};
    assert multiset(lost - {id}) == multiset(lost) - multiset{id};
    TakenOnce(multiset(granted), multiset(ids), multiset(lost), id);
  }

  /** Taking an element from a whole and from its parts, of which at most one has it. */
  lemma TakenOnce(g: multiset<Id>, c: multiset<Id>, l: multiset<Id>, id: Id)
    requires id in g && (id in c ==> id !in l)
    ensures (g - multiset{id}) + c + l == g + (c - multiset{id}) + (l - multiset{id}) <==> id in c || id in l
  {
    var one, rest := g - multiset{id}, g + (c - multiset{id}) + (l - multiset{id});
    assert one[id] == g[id] - 1;
    if id in c || id in l {
      forall x ensures (one + c + l)[x] == rest[x] {
      }
    } else {
      assert (one + c + l)[id] == rest[id] - 1;
    }
  }

  lemma AnswerKeepsQueue(s: Sys, ok: bool, cid: byte)
    requires Inv(s) && Enabled(s, Answer(ok, cid))
    ensures var s' := Step(s, Answer(ok, cid)); WellFormed(s'.p) && HeadOutstanding(s') && QueueSound(s'.p)
  {
    AnswerShape(s, ok, cid);
    AnswerQueueSound(s, ok, cid);
  }

  lemma AnswerShape(s: Sys, ok: bool, cid: byte)
    requires Inv(s) && Enabled(s, Answer(ok, cid))
    ensures var s' := Step(s, Answer(ok, cid)); WellFormed(s'.p) && HeadOutstanding(s')
  {
    var p := s.p;
    var q := p.ctl[0];
    var m := AnswerTo(q.msg, ok, cid, s.granted);
    AnswerStep(s, ok, cid);
    NextOutstanding(p.ctl, p.nextUid);
    SameFds(p.conns, p.serverFd, q.fd, m);
  }

  lemma NextOutstanding(ctl: seq<Pending>, uid: nat)
    requires ctl != [] && UidsOk(ctl, uid) && forall q :: q in ctl ==> q.msg.Ctl?
    ensures ctl[1..if |ctl| > 1 then 2 else 1] == ctl[1..][..if ctl[1..] == [] then 0 else 1]
    ensures UidsOk(ctl[1..], uid) && forall q :: q in ctl[1..] ==> q.msg.Ctl?
  {
  }

  lemma SameFds(conns: seq<Conn>, serverFd: int, fd: int, m: Msg)
    requires ConnsOk(conns, serverFd) && m.Ctl?
    ensures ConnsOk(Respond(conns, fd, m), serverFd)
  {
    assert forall k :: 0 <= k < |conns| ==> Respond(conns, fd, m)[k].fd == conns[k].fd;
  }

  lemma AnswerQueueSound(s: Sys, ok: bool, cid: byte)
    requires Inv(s) && Enabled(s, Answer(ok, cid))
    ensures QueueSound(Step(s, Answer(ok, cid)).p)
  {
    AnswerStep(s, ok, cid);
    var p, p' := s.p, Step(s, Answer(ok, cid)).p;
    assert |p'.conns| == |p.conns| && forall j :: 0 <= j < |p.conns| ==> p'.conns[j].fd == p.conns[j].fd;
    forall k | 0 <= k < |p'.ctl| ensures EntrySound(p', p'.ctl[k]) {
      assert EntrySound(p, p.ctl[k + 1]);
      SameOpen(p, p', p.ctl[k + 1].fd);
    }
  }

  lemma SameOpen(p: Proxy, p': Proxy, fd: int)
    requires |p'.conns| == |p.conns| && forall j :: 0 <= j < |p.conns| ==> p'.conns[j].fd == p.conns[j].fd
    ensures Open(p, fd) ==> Open(p', fd)
  {
    if Open(p, fd) {
      var j :| 0 <= j < |p.conns| && p.conns[j].fd == fd;
      assert p'.conns[j].fd == fd;
    }
  }

  lemma StepKeeps(s: Sys, e: Event)
    requires Inv(s) && Enabled(s, e)
    ensures Inv(Step(s, e))
  {
    match e
    case Connect(fd) => ConnectKeeps(s, fd);
    case Close(fd) => CloseKeeps(s, fd);
    case Request(fd, m) => RequestKeeps(s, fd, m);
    case Answer(ok, cid) => AnswerConservesExactly(s, ok, cid); AnswerKeepsQueue(s, ok, cid);
    case Notify(m) => NotifyKeeps(s, m);
  }

  // ---------------------------------------------------------------- runs

  predicate Init(s: Sys) {
    s.p.serverFd > 0 && s.p.conns == [] && s.p.ctl == [] && s.outstanding == [] && s.granted == {} && s.lost == {}
    && s.services == []
  }

  predicate Moves(s: Sys, e: Event, s': Sys) {
    OnlyCtl(s.p) && Enabled(s, e) && s' == Step(s, e)
  }

  /** The states a run passes through: each follows from the one before by an enabled event. */
  predicate Behavior(ss: seq<Sys>, es: seq<Event>) {
    && |ss| == |es| + 1 && Init(ss[0])
    && forall i {:trigger es[i]} :: 0 <= i < |es| ==> Moves(ss[i], es[i], ss[i + 1])
  }

  lemma {:induction false} InvAlways(ss: seq<Sys>, es: seq<Event>, k: nat)
    requires Behavior(ss, es) && k < |ss|
    ensures Inv(ss[k])
  {
    if k > 0 {
      InvAlways(ss, es, k - 1);
      StepKeeps(ss[k - 1], es[k - 1]);
    }
  }

  /** In every run, at every moment: exactly the head of a nonempty queue is at the modem, and the
      answer to it is written to the connection that asked and to no other, or to none when the
      request was the proxy's own. */
  lemma ResponsesReachRequester(ss: seq<Sys>, es: seq<Event>, k: nat)
    requires Behavior(ss, es) && k < |es| && es[k].Answer?
    ensures HeadOutstanding(ss[k]) && ss[k].p.ctl != []
    ensures var head := ss[k].p.ctl[0];
            var m := AnswerTo(head.msg, es[k].ok, es[k].cid, ss[k].granted);
            Handle(ss[k], es[k]).toClients == if head.fd == ss[k].p.serverFd then [] else [Delivery(head.fd, m)]
  {
    InvAlways(ss, es, k);
    var p := ss[k].p;
    var head := p.ctl[0];
    var m := AnswerTo(head.msg, es[k].ok, es[k].cid, ss[k].granted);
    if head.fd != p.serverFd {
      var i :| 0 <= i < |p.conns| && p.conns[i].fd == head.fd;
      ResponseWritesOne(p.conns, i, head.fd, m);
    }
  }

  /** At moment `n` the modem refuses to release an id that the proxy gives back for a closed connection. */
  predicate RefusedOwn(ss: seq<Sys>, es: seq<Event>, n: nat)
    requires Behavior(ss, es) && n < |es|
  {
    es[n].Answer? && !es[n].ok && ss[n].outstanding[0].fd == ss[n].p.serverFd
  }

  /** In every run, at every moment: a granted id is held by exactly one connection, once, or is named
      by exactly one queued release, or is lost; nothing else is held. When all connections are gone and
      the queue is empty, exactly the lost ids are granted: none, unless the modem has refused one of the
      proxy's own releases. */
  lemma IdsConserved(ss: seq<Sys>, es: seq<Event>, k: nat, id: Id)
    requires Behavior(ss, es) && k < |ss|
    ensures OwnedIds(ss[k].p.conns)[id] + ReleasedIds(ss[k].p.ctl, ss[k].p.serverFd)[id] + (if id in ss[k].lost then 1 else 0)
         == (if id in ss[k].granted then 1 else 0)
    ensures ss[k].p.conns == [] && ss[k].p.ctl == [] ==> ss[k].granted == ss[k].lost
    ensures (forall n :: 0 <= n < k ==> !RefusedOwn(ss, es, n)) ==> ss[k].lost == {}
  {
    InvAlways(ss, es, k);
    var s := ss[k];
    assert multiset(s.granted)[id] == OwnedIds(s.p.conns)[id] + ReleasedIds(s.p.ctl, s.p.serverFd)[id] + multiset(s.lost)[id];
    if s.p.conns == [] && s.p.ctl == [] {
      assert multiset(s.granted) == multiset(s.lost);
      forall x ensures x in s.granted <==> x in s.lost {
        assert x in multiset(s.granted) <==> x in multiset(s.lost);
      }
    }
    if forall n :: 0 <= n < k ==> !RefusedOwn(ss, es, n) {
      NothingLost(ss, es, k);
    }
  }

  lemma {:induction false} NothingLost(ss: seq<Sys>, es: seq<Event>, k: nat)
    requires Behavior(ss, es) && k < |ss| && forall n :: 0 <= n < k ==> !RefusedOwn(ss, es, n)
    ensures ss[k].lost == {}
  {
    if k > 0 {
      NothingLost(ss, es, k - 1);
      InvAlways(ss, es, k - 1);
      assert !RefusedOwn(ss, es, k - 1);
      if es[k - 1].Answer? {
        HeadHeld(ss[k - 1]);
        AnswerStep(ss[k - 1], es[k - 1].ok, es[k - 1].cid);
      }
    }
  }

  /** While nothing is lost, an answer leaves every granted id in a list or in a queued release exactly
      if it is not the refusal of one of the proxy's own releases. */
  lemma RefusalLosesExactly(s: Sys, ok: bool, cid: byte)
    requires Inv(s) && s.lost == {} && Enabled(s, Answer(ok, cid))
    ensures var s' := Step(s, Answer(ok, cid));
            multiset(s'.granted) == OwnedIds(s'.p.conns) + ReleasedIds(s'.p.ctl, s'.p.serverFd)
            <==> ok || s.outstanding[0].fd != s.p.serverFd
  {
    HeadHeld(s);
    AnswerConservesExactly(s, ok, cid);
    AnswerStep(s, ok, cid);
    var s' := Step(s, Answer(ok, cid));
    assert s'.lost == if !ok && s.p.ctl[0].fd == s.p.serverFd then {s.p.ctl[0].msg.id} else {};
    var held := OwnedIds(s'.p.conns) + ReleasedIds(s'.p.ctl, s'.p.serverFd);
    if s'.lost == {} {
      assert multiset(s'.lost) == multiset{};
    } else {
      var id := s.p.ctl[0].msg.id;
      assert multiset(s'.granted)[id] == held[id] + multiset(s'.lost)[id] == held[id] + 1;
    }
  }

  lemma {:induction false} ConnWritesUnicast(fd: int, ids: seq<Id>, m: Msg)
    requires m.Svc? && m.clientId != 0
    ensures var n := multiset(ids)[Id(m.qmiType, m.clientId)];
            ConnWrites(fd, ids, m) == seq(n, _ => Delivery(fd, m))
  {
    if ids != [] {
      ConnWritesUnicast(fd, ids[1..], m);
      assert ids == [ids[0]] + ids[1..];
    }
  }

  lemma {:induction false} NoOwnerNoWrites(conns: seq<Conn>, m: Msg)
    requires m.Svc? && m.clientId != 0 && Id(m.qmiType, m.clientId) !in OwnedIds(conns)
    ensures ServiceWrites(conns, m) == []
  {
    if conns != [] {
      ConnWritesUnicast(conns[0].fd, conns[0].clients, m);
      assert multiset(conns[0].clients)[Id(m.qmiType, m.clientId)] == 0;
      NoOwnerNoWrites(conns[1..], m);
    }
  }

  lemma {:induction false} OwnerWrites(conns: seq<Conn>, m: Msg, i: nat)
    requires m.Svc? && m.clientId != 0 && OwnedIds(conns)[Id(m.qmiType, m.clientId)] <= 1
    requires i < |conns| && Id(m.qmiType, m.clientId) in conns[i].clients
    ensures ServiceWrites(conns, m) == [Delivery(conns[i].fd, m)]
  {
    var id, first, later := Id(m.qmiType, m.clientId), conns[0], conns[1..];
    ConnWritesUnicast(first.fd, first.clients, m);
    assert OwnedIds(conns)[id] == multiset(first.clients)[id] + OwnedIds(later)[id];
    if i == 0 {
      assert multiset(first.clients)[id] == 1;
      NoOwnerNoWrites(later, m);
    } else {
      InList(later, i - 1, id);
      assert multiset(first.clients)[id] == 0;
      OwnerWrites(later, m, i - 1);
    }
  }

  /** In every run a service message for one client id is written once, to the connection whose list
      holds the id, and to nobody when no list does. */
  lemma UnicastReachesOwner(ss: seq<Sys>, es: seq<Event>, k: nat, m: Msg, i: nat)
    requires Behavior(ss, es) && k < |ss| && m.Svc? && m.clientId != 0
    ensures var p := ss[k].p; var id := Id(m.qmiType, m.clientId);
            && OnlyCtl(p)
            && (i < |p.conns| && id in p.conns[i].clients ==> FromDev(p, m).toClients == [Delivery(p.conns[i].fd, m)])
            && (id !in OwnedIds(p.conns) ==> FromDev(p, m).toClients == [])
  {
    InvAlways(ss, es, k);
    IdsConserved(ss, es, k, Id(m.qmiType, m.clientId));
    if i < |ss[k].p.conns| && Id(m.qmiType, m.clientId) in ss[k].p.conns[i].clients {
      OwnerWrites(ss[k].p.conns, m, i);
    }
    if Id(m.qmiType, m.clientId) !in OwnedIds(ss[k].p.conns) {
      NoOwnerNoWrites(ss[k].p.conns, m);
    }
  }

  /** How many of a connection's records are of a service. */
  function RecordsOf(ids: seq<Id>, svc: byte): nat {
    if ids == [] then 0 else (if ids[0].svc == svc then 1 else 0) + RecordsOf(ids[1..], svc)
  }

  lemma {:induction false} ConnWritesBroadcast(fd: int, ids: seq<Id>, m: Msg)
    requires m.Svc? && m.clientId == 0
    ensures ConnWrites(fd, ids, m) == seq(RecordsOf(ids, m.qmiType), _ => Delivery(fd, m))
  {
    if ids != [] {
      ConnWritesBroadcast(fd, ids[1..], m);
    }
  }

  lemma CountAll(n: nat, d: Delivery, fd: int)
    ensures multiset(seq(n, _ => d))[d] == n
    ensures d.fd != fd ==> multiset(seq(n, _ => d))[Delivery(fd, d.msg)] == 0
  {
    var s := seq(n, _ => d);
    if n > 0 {
      CountAll(n - 1, d, fd);
      assert s == [d] + seq(n - 1, _ => d);
    }
  }

  /** What the first connection is written of a broadcast. */
  lemma FirstCounts(conns: seq<Conn>, m: Msg, fd: int)
    requires m.Svc? && m.clientId == 0 && conns != []
    ensures multiset(ServiceWrites(conns, m))[Delivery(fd, m)]
         == (if conns[0].fd == fd then RecordsOf(conns[0].clients, m.qmiType) else 0)
            + multiset(ServiceWrites(conns[1..], m))[Delivery(fd, m)]
  {
    var c := conns[0];
    ConnWritesBroadcast(c.fd, c.clients, m);
    CountAll(RecordsOf(c.clients, m.qmiType), Delivery(c.fd, m), fd);
  }

  lemma {:induction false} NoBroadcastFor(conns: seq<Conn>, m: Msg, fd: int)
    requires m.Svc? && m.clientId == 0 && forall j :: 0 <= j < |conns| ==> conns[j].fd != fd
    ensures multiset(ServiceWrites(conns, m))[Delivery(fd, m)] == 0
  {
    if conns != [] {
      FirstCounts(conns, m, fd);
      NoBroadcastFor(conns[1..], m, fd);
    }
  }

  lemma {:induction false} BroadcastCounts(conns: seq<Conn>, m: Msg, i: nat)
    requires m.Svc? && m.clientId == 0 && i < |conns|
    requires forall j, k :: 0 <= j < k < |conns| ==> conns[j].fd != conns[k].fd
    ensures multiset(ServiceWrites(conns, m))[Delivery(conns[i].fd, m)] == RecordsOf(conns[i].clients, m.qmiType)
  {
    FirstCounts(conns, m, conns[i].fd);
    if i == 0 {
      NoBroadcastFor(conns[1..], m, conns[0].fd);
    } else {
      BroadcastCounts(conns[1..], m, i - 1);
    }
  }

  lemma {:induction false} WritesAreTheMessage(conns: seq<Conn>, m: Msg)
    requires m.Svc?
    ensures forall d :: d in ServiceWrites(conns, m) ==> d.msg == m
  {
    if conns != [] {
      ConnWritesAreTheMessage(conns[0].fd, conns[0].clients, m);
      WritesAreTheMessage(conns[1..], m);
    }
  }

  lemma {:induction false} ConnWritesAreTheMessage(fd: int, ids: seq<Id>, m: Msg)
    requires m.Svc?
    ensures forall d :: d in ConnWrites(fd, ids, m) ==> d.msg == m
  {
    if ids != [] {
      ConnWritesAreTheMessage(fd, ids[1..], m);
    }
  }

  /** In every run a message for all clients of a service reaches an open connection once per record of
      that service, and no other descriptor; nothing but the message itself is written. */
  lemma BroadcastReachesRecords(ss: seq<Sys>, es: seq<Event>, k: nat, m: Msg, i: nat, fd: int)
    requires Behavior(ss, es) && k < |ss| && m.Svc? && m.clientId == 0
    ensures OnlyCtl(ss[k].p)
    ensures var p, out := ss[k].p, FromDev(ss[k].p, m).toClients;
            && (i < |p.conns| ==> multiset(out)[Delivery(p.conns[i].fd, m)] == RecordsOf(p.conns[i].clients, m.qmiType))
            && (!Open(p, fd) ==> multiset(out)[Delivery(fd, m)] == 0)
            && forall d :: d in out ==> d.msg == m
  {
    InvAlways(ss, es, k);
    var p := ss[k].p;
    WritesAreTheMessage(p.conns, m);
    if i < |p.conns| {
      BroadcastCounts(p.conns, m, i);
    }
    if !Open(p, fd) {
      NoBroadcastFor(p.conns, m, fd);
    }
  }

  // ---------------------------------------------------------------- what is written to the modem

  /** The service messages among the clients' requests, in order. */
  function ServiceRequests(es: seq<Event>): seq<Msg> {
    if es == [] then []
    else
      var e := es[|es| - 1];
      ServiceRequests(es[..|es| - 1]) + (if e.Request? && e.msg.Svc? then [e.msg] else [])
  }

  lemma StepServices(s: Sys, e: Event)
    requires Inv(s) && Enabled(s, e)
    ensures Step(s, e).services == s.services + (if e.Request? && e.msg.Svc? then [e.msg] else [])
    ensures Handle(s, e).svcWrites == if e.Request? && e.msg.Svc? then [e.msg] else []
  {
    assert s.services + [] == s.services;
  }

  /** In every run the service messages written to the modem are those its clients have sent, unchanged,
      in order, once each. */
  lemma {:induction false} ServicesForwarded(ss: seq<Sys>, es: seq<Event>, k: nat)
    requires Behavior(ss, es) && k < |ss|
    ensures ss[k].services == ServiceRequests(es[..k])
  {
    if k > 0 {
      ServicesForwarded(ss, es, k - 1);
      InvAlways(ss, es, k - 1);
      StepServices(ss[k - 1], es[k - 1]);
      assert es[..k][..k - 1] == es[..k - 1];
    }
  }

  predicate NoSync(ctl: seq<Pending>) { forall q :: q in ctl ==> q.msg.Ctl? && q.msg.ctlType != 0x27 }

  lemma {:induction false} RemovedFrom(ctl: seq<Pending>, fd: int)
    ensures forall q :: q in RemoveFirst(ctl, fd) ==> q in ctl
  {
    if ctl != [] {
      RemovedFrom(ctl[1..], fd);
    }
  }

  lemma StepNoSync(s: Sys, e: Event)
    requires Inv(s) && Enabled(s, e) && NoSync(s.p.ctl)
    ensures NoSync(Step(s, e).p.ctl)
  {
    match e
    case Connect(fd) =>
    case Close(fd) =>
      CloseQueue(s.p, fd);
      RemovedFrom(s.p.ctl, fd);
    case Request(fd, m) =>
      RequestStep(s, fd, m);
    case Answer(ok, cid) =>
      AnswerStep(s, ok, cid);
    case Notify(m) =>
      NotifyKeeps(s, m);
  }

  /** In every run no SYNC request is queued or at the modem, whoever asks for one. */
  lemma SyncNeverSent(ss: seq<Sys>, es: seq<Event>, k: nat)
    requires Behavior(ss, es) && k < |ss|
    ensures NoSync(ss[k].p.ctl) && NoSync(ss[k].outstanding)
  {
    NoSyncQueued(ss, es, k);
    InvAlways(ss, es, k);
  }

  lemma {:induction false} NoSyncQueued(ss: seq<Sys>, es: seq<Event>, k: nat)
    requires Behavior(ss, es) && k < |ss|
    ensures NoSync(ss[k].p.ctl)
  {
    if k > 0 {
      NoSyncQueued(ss, es, k - 1);
      InvAlways(ss, es, k - 1);
      StepNoSync(ss[k - 1], es[k - 1]);
    }
  }

  /** Clients are written to only when the modem answers, or sends a service message. */
  lemma OnlyModemWrites(s: Sys, e: Event)
    requires Inv(s) && Enabled(s, e)
    ensures Handle(s, e).toClients != [] ==> e.Answer? || (e.Notify? && e.msg.Svc?)
    ensures e.Notify? ==> Handle(s, e).ctlWrites == [] && Handle(s, e).p == s.p
  {
  }

  /** The front of a queue: nothing, or its head alone. */
  function Front(ctl: seq<Pending>): seq<Pending> { ctl[..if ctl == [] then 0 else 1] }

  /** Any response at all, solicited or not, takes the head off the queue and sends the next request. It
      is written to the requester alone if it bears the head's transaction id and type, and otherwise to
      nobody; with no request queued it does nothing. */
  lemma AnyResponse(p: Proxy, m: Msg, i: nat)
    requires WellFormed(p) && QueueSound(p) && m.Ctl? && m.flags == 1
    requires i < |p.conns|
    ensures var o := FromDev(p, m);
            && o.svcWrites == []
            && (p.ctl == [] ==> o == Out(p, [], [], []))
            && (p.ctl != [] ==>
                  && o.p.ctl == p.ctl[1..] && o.ctlWrites == Front(p.ctl[1..])
                  && ResponseFor(p, m, o.toClients)
                  && |o.p.conns| == |p.conns|
                  && RecordsAfter(p.conns[i], p.ctl[0], m, o.p.conns[i]))
  {
    if p.ctl != [] {
      assert p.ctl[1..if |p.ctl| > 1 then 2 else 1] == Front(p.ctl[1..]);
      ResponseWritten(p, m);
      ResponseRecorded(p, m, i);
    }
  }

  lemma ResponseWritten(p: Proxy, m: Msg)
    requires WellFormed(p) && QueueSound(p) && m.Ctl? && m.flags == 1 && p.ctl != []
    ensures ResponseFor(p, m, FromDev(p, m).toClients)
  {
    var fd := p.ctl[0].fd;
    assert EntrySound(p, p.ctl[0]);
    if fd != p.serverFd {
      var j :| 0 <= j < |p.conns| && p.conns[j].fd == fd;
      ResponseWritesOne(p.conns, j, fd, m);
    }
  }

  lemma ResponseRecorded(p: Proxy, m: Msg, i: nat)
    requires WellFormed(p) && m.Ctl? && m.flags == 1 && p.ctl != [] && i < |p.conns|
    ensures var conns := FromDev(p, m).p.conns;
            |conns| == |p.conns| && RecordsAfter(p.conns[i], p.ctl[0], m, conns[i])
  {
    assert p.conns[i].fd != p.serverFd;
  }

  predicate ResponseFor(p: Proxy, m: Msg, out: seq<Delivery>)
    requires m.Ctl? && p.ctl != [] && p.ctl[0].msg.Ctl?
  {
    var head := p.ctl[0];
    out == if head.msg.tid == m.tid && head.msg.ctlType == m.ctlType && head.fd != p.serverFd
           then [Delivery(head.fd, m)] else []
  }

  /** A connection gains the granted id, or loses the one released, if the answered request was its own;
      otherwise its records stay as they were. */
  predicate RecordsAfter(c: Conn, head: Pending, m: Msg, c': Conn)
    requires m.Ctl? && head.msg.Ctl?
  {
    var mine := c.fd == head.fd && head.msg.tid == m.tid && head.msg.ctlType == m.ctlType && m.ok;
    && c'.fd == c.fd
    && (mine && m.ctlType == 0x22 ==> c'.clients == c.clients + [m.id])
    && (mine && m.ctlType == 0x23 ==> c'.clients == RemoveId(c.clients, m.id))
    && (!(mine && (m.ctlType == 0x22 || m.ctlType == 0x23)) ==> c'.clients == c.clients)
  }

  /** Until the proxy serves, a message from the modem only ends the wait for the SYNC response, and one
      from a client is left unanswered. */
  lemma NotServing(p: Proxy, fd: int, m: Msg)
    requires OnlyCtl(p) && p.serverFd == -1
    ensures FromDev(p, m) == Out(p.(syncDone := true), [], [], []) && FromClient(p, fd, m) == Out(p, [], [], [])
  {
  }

  // ---------------------------------------------------------------- closing at the wrong moment

  lemma ClosedIs(s: Sys, fd: int)
    requires WellFormed(s.p) && Open(s.p, fd)
    ensures var rel := Releases(s.p.serverFd, s.p.nextUid, s.p.conns[IndexOf(s.p.conns, fd)].clients);
            && Closed(s, fd).p.ctl == RemoveFirst(s.p.ctl, fd) + rel
            && Closed(s, fd).outstanding == s.outstanding + (if s.p.ctl == [] then Front(rel) else [])
  {
    CloseQueue(s.p, fd);
  }

  lemma FrontAfterClose(ctl: seq<Pending>, uid: nat, fd: int, rel: seq<Pending>)
    requires UidsOk(ctl, uid) && forall i :: 0 <= i < |rel| ==> rel[i].uid >= uid
    ensures Front(ctl) + (if ctl == [] then Front(rel) else []) == Front(RemoveFirst(ctl, fd) + rel)
            <==> ctl == [] || ctl[0].fd != fd
  {
    if ctl == [] {
      assert RemoveFirst(ctl, fd) + rel == rel;
    } else if ctl[0].fd == fd {
      NextDiffers(ctl, uid, rel);
    } else {
      assert (RemoveFirst(ctl, fd) + rel)[0] == ctl[0];
    }
  }

  /** Closing a connection keeps the queue's head at the modem exactly when that head is not the
      closing connection's own request: otherwise the request in flight is taken off the queue and
      its successor is not sent. */
  lemma CloseKeepsHeadExactly(s: Sys, fd: int)
    requires WellFormed(s.p) && HeadOutstanding(s) && Open(s.p, fd)
    ensures HeadOutstanding(Closed(s, fd)) <==> s.p.ctl == [] || s.p.ctl[0].fd != fd
  {
    ClosedIs(s, fd);
    FrontAfterClose(s.p.ctl, s.p.nextUid, fd,
                    Releases(s.p.serverFd, s.p.nextUid, s.p.conns[IndexOf(s.p.conns, fd)].clients));
  }

  lemma NextDiffers(ctl: seq<Pending>, uid: nat, rel: seq<Pending>)
    requires ctl != [] && UidsOk(ctl, uid) && forall i :: 0 <= i < |rel| ==> rel[i].uid >= uid
    ensures var q := ctl[1..] + rel; q != [] ==> q[0] != ctl[0]
  {
    if |ctl| > 1 {
      assert (ctl[1..] + rel)[0] == ctl[1];
    } else {
      assert ctl[1..] + rel == rel;
    }
  }

  /** Closing a connection keeps the whole invariant exactly when it has at most one queued request and
      that one is not in flight: a second request stays queued under a descriptor nobody has open. */
  lemma CloseKeepsInvExactly(s: Sys, fd: int)
    requires Inv(s) && Open(s.p, fd)
    ensures Inv(Closed(s, fd)) <==> Closable(s.p.ctl, fd)
  {
    CloseShape(s, fd);
    if Closable(s.p.ctl, fd) {
      CloseConserves(s, fd);
      CloseQueueSound(s.p, fd);
    } else if s.p.ctl[0].fd != fd {
      SecondRequestStays(s.p, fd);
    }
  }

  lemma SecondRequestStays(p: Proxy, fd: int)
    requires WellFormed(p) && Open(p, fd) && p.ctl != [] && p.ctl[0].fd != fd && !Closable(p.ctl, fd)
    ensures !QueueSound(Cleanup(p, fd, true).p)
  {
    CloseQueue(p, fd);
    var i, j :| 0 <= i < j < |p.ctl| && p.ctl[i].fd == fd && p.ctl[j].fd == fd;
    var k := LeftBehind(p.ctl, fd, i, j);
    ClosedGone(p, fd);
    OrphanUnsound(Cleanup(p, fd, true).p, fd, k);
  }

  lemma {:induction false} LeftBehind(ctl: seq<Pending>, fd: int, i: nat, j: nat) returns (k: nat)
    requires i < j < |ctl| && ctl[i].fd == fd && ctl[j].fd == fd
    ensures k < |RemoveFirst(ctl, fd)| && RemoveFirst(ctl, fd)[k].fd == fd
  {
    if ctl[0].fd == fd {
      k := j - 1;
    } else {
      k := LeftBehind(ctl[1..], fd, i - 1, j - 1);
      k := k + 1;
    }
  }

  lemma ClosedGone(p: Proxy, fd: int)
    requires WellFormed(p) && Open(p, fd)
    ensures fd != p.serverFd && !Open(Cleanup(p, fd, true).p, fd)
  {
    CloseQueue(p, fd);
    var i := IndexOf(p.conns, fd);
    var left := Cleanup(p, fd, true).p.conns;
    assert forall j :: 0 <= j < |left| ==> left[j] == p.conns[if j < i then j else j + 1];
  }

  lemma OrphanUnsound(p: Proxy, fd: int, k: nat)
    requires k < |p.ctl| && p.ctl[k].fd == fd && fd != p.serverFd && !Open(p, fd)
    ensures !QueueSound(p)
  {
    assert !EntrySound(p, p.ctl[k]);
  }

  /** A client's release keeps the accounts exactly when the modem refuses it, or the id, if granted at
      all, is the client's own or nobody's: releasing somebody else's id takes it from the modem's set and
      from no list. */
  lemma ReleaseConservesExactly(s: Sys, ok: bool, i: nat)
    requires WellFormed(s.p) && HeadOutstanding(s) && Conserved(s) && s.p.ctl != [] && IsRelease(s.p.ctl[0].msg)
    requires i < |s.p.conns| && s.p.conns[i].fd == s.p.ctl[0].fd
    ensures var id := s.p.ctl[0].msg.id;
            && s.outstanding == [s.p.ctl[0]]
            && (Conserved(Answered(s, ok, 0)) <==> (ok && id in s.granted ==> id in s.p.conns[i].clients || id in s.lost))
  {
    AnswerClient(s, ok, 0, i);
    OwnsAt(s.p, i, s.p.ctl[0].msg.id);
  }

  /** The refusal of one of the proxy's own releases, in a whole run: a client is given an id and leaves,
      the modem refuses to take the id back, and with no connection and no request left the id stays
      granted. */
  lemma RefusedReleaseLosesId() returns (ss: seq<Sys>, es: seq<Event>)
    ensures Behavior(ss, es)
    ensures var s := ss[|es|]; s.p.conns == [] && s.p.ctl == [] && s.granted == {Id(1, 7)}
  {
    var get := Ctl(0, 1, GET_CLIENT_ID, true, Id(1, 0));
    var q, r := Pending(10, 0, get), Pending(5, 1, ReleaseReq(Id(1, 7)));
    var s0 := Sys(Proxy(5, [], [], 0, true, false), [], {}, {}, []);
    var s1 := Sys(Proxy(5, [Conn(10, [])], [], 0, true, false), [], {}, {}, []);
    var s2 := Sys(Proxy(5, [Conn(10, [])], [q], 1, true, false), [q], {}, {}, []);
    var s3 := Sys(Proxy(5, [Conn(10, [Id(1, 7)])], [], 1, true, false), [], {Id(1, 7)}, {}, []);
    var s4 := Sys(Proxy(5, [], [r], 2, true, false), [r], {Id(1, 7)}, {}, []);
    var s5 := Sys(Proxy(5, [], [], 2, true, false), [], {Id(1, 7)}, {Id(1, 7)}, []);
    ss, es := [s0], [];
    ConnectGives(s0, s1);
    ss, es := ExtendRun(ss, es, Connect(10), s1);
    RequestGives(s1, s2);
    ss, es := ExtendRun(ss, es, Request(10, get), s2);
    GrantGives(s2, s3);
    ss, es := ExtendRun(ss, es, Answer(true, 7), s3);
    CloseGives(s3, s4);
    ss, es := ExtendRun(ss, es, Close(10), s4);
    RefusalGives(s4, s5);
    ss, es := ExtendRun(ss, es, Answer(false, 0), s5);
  }

  lemma ExtendRun(ss: seq<Sys>, es: seq<Event>, e: Event, s: Sys) returns (ss': seq<Sys>, es': seq<Event>)
    requires Behavior(ss, es) && Moves(ss[|es|], e, s)
    ensures Behavior(ss', es') && ss'[|es'|] == s
  {
    ss', es' := ss + [s], es + [e];
    forall i | 0 <= i < |es'| ensures Moves(ss'[i], es'[i], ss'[i + 1]) {
      assert ss'[i] == ss[i];
      if i < |es| {
        assert es'[i] == es[i] && ss'[i + 1] == ss[i + 1];
        assert Moves(ss[i], es[i], ss[i + 1]);
      } else {
        assert es'[i] == e && ss'[i + 1] == s;
      }
    }
  }

  lemma ConnectGives(s: Sys, s': Sys)
    requires s == Sys(Proxy(5, [], [], 0, true, false), [], {}, {}, [])
    requires s' == Sys(Proxy(5, [Conn(10, [])], [], 0, true, false), [], {}, {}, [])
    ensures Enabled(s, Connect(10)) && Step(s, Connect(10)) == s'
  {
  }

  lemma RequestGives(s: Sys, s': Sys)
    requires s == Sys(Proxy(5, [Conn(10, [])], [], 0, true, false), [], {}, {}, [])
    requires var q := Pending(10, 0, Ctl(0, 1, GET_CLIENT_ID, true, Id(1, 0)));
             s' == Sys(Proxy(5, [Conn(10, [])], [q], 1, true, false), [q], {}, {}, [])
    ensures var e := Request(10, Ctl(0, 1, GET_CLIENT_ID, true, Id(1, 0))); Enabled(s, e) && Step(s, e) == s'
  {
    assert s.p.conns[0].fd == 10;
  }

  lemma GrantGives(s: Sys, s': Sys)
    requires var q := Pending(10, 0, Ctl(0, 1, GET_CLIENT_ID, true, Id(1, 0)));
             s == Sys(Proxy(5, [Conn(10, [])], [q], 1, true, false), [q], {}, {}, [])
    requires s' == Sys(Proxy(5, [Conn(10, [Id(1, 7)])], [], 1, true, false), [], {Id(1, 7)}, {}, [])
    ensures Enabled(s, Answer(true, 7)) && Step(s, Answer(true, 7)) == s'
  {
    AnswerStep(s, true, 7);
    var m := Ctl(FLAG_RSP, 1, GET_CLIENT_ID, true, Id(1, 7));
    assert [] + [Id(1, 7)] == [Id(1, 7)];
    assert Respond(s.p.conns, 10, m) == [Conn(10, [Id(1, 7)])];
    assert {} + {Id(1, 7)} == {Id(1, 7)};
  }

  lemma CloseGives(s: Sys, s': Sys)
    requires s == Sys(Proxy(5, [Conn(10, [Id(1, 7)])], [], 1, true, false), [], {Id(1, 7)}, {}, [])
    requires var r := Pending(5, 1, ReleaseReq(Id(1, 7)));
             s' == Sys(Proxy(5, [], [r], 2, true, false), [r], {Id(1, 7)}, {}, [])
    ensures Enabled(s, Close(10)) && Step(s, Close(10)) == s'
  {
    assert s.p.conns[0].fd == 10 && IndexOf(s.p.conns, 10) == 0;
    var rel := Releases(5, 1, [Id(1, 7)]);
    assert rel == [Pending(5, 1, ReleaseReq(Id(1, 7)))];
    assert [] + rel == rel;
    RemoveFirstNone(rel, 10);
  }

  lemma RefusalGives(s: Sys, s': Sys)
    requires var r := Pending(5, 1, ReleaseReq(Id(1, 7)));
             s == Sys(Proxy(5, [], [r], 2, true, false), [r], {Id(1, 7)}, {}, [])
    requires s' == Sys(Proxy(5, [], [], 2, true, false), [], {Id(1, 7)}, {Id(1, 7)}, [])
    ensures Enabled(s, Answer(false, 0)) && Step(s, Answer(false, 0)) == s'
  {
    AnswerStep(s, false, 0);
  }

  /** The consequence, in one run: A and B each ask for a client id, A closes with its request in
      flight, and the answer to it makes the proxy drop B's request, which is then neither queued nor
      ever written to the modem. */
  lemma CloseInFlightLosesRequest()
    ensures var get1 := Ctl(0, 1, GET_CLIENT_ID, true, Id(1, 0));
            var get2 := Ctl(0, 2, GET_CLIENT_ID, true, Id(3, 0));
            var a := FromClient(Proxy(5, [Conn(10, []), Conn(11, [])], [], 0, true, false), 10, get1);
            var b := FromClient(a.p, 11, get2);
            var c := Cleanup(b.p, 10, true);
            && OnlyCtl(c.p)
            && var d := FromDev(c.p, Ctl(FLAG_RSP, 1, GET_CLIENT_ID, true, Id(1, 7)));
            && a.ctlWrites == [Pending(10, 0, get1)] && b.ctlWrites == [] && c.ctlWrites == [] && d.ctlWrites == []
            && c.p.ctl == [Pending(11, 1, get2)] && d.p.ctl == [] && d.toClients == []
  {
    var get1 := Ctl(0, 1, GET_CLIENT_ID, true, Id(1, 0));
    var get2 := Ctl(0, 2, GET_CLIENT_ID, true, Id(3, 0));
    var b := FromClient(FromClient(Proxy(5, [Conn(10, []), Conn(11, [])], [], 0, true, false), 10, get1).p, 11, get2);
    assert b.p.ctl == [Pending(10, 0, get1), Pending(11, 1, get2)];
    assert IndexOf(b.p.conns, 10) == 0;
    assert b.p.ctl + Releases(5, 2, []) == b.p.ctl;
    assert RemoveFirst(b.p.ctl, 10) == [Pending(11, 1, get2)];
  }

  /** No message from the modem, the revoke notice included, makes the proxy notice a modem reset: its
      test for indications is never true. Had it tested the message's flags, exactly the revoke notice
      would set the flag. */
  lemma ResetNeverNoticed(p: Proxy, m: Msg)
    requires OnlyCtl(p) && !p.modemReset
    ensures !FromDev(p, m).p.modemReset
    ensures m.Ctl? ==> (AfterNotice(p, m.flags, m).modemReset <==> m.flags == 2 && m.ctlType == 0x24)
  {
    assert TypeOf(m) == FLAG_IND ==> m.Svc?;
  }
}
