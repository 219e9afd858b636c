/** The QMI proxy's control queue on the heap: the intrusive list holds the requests, and each thing
    the handlers do to it does to the sequence of requests what the proxy's functions say. */
module CtlQueue {
  import opened Common
  import opened QList
  import opened QmiProxy

  class Queue {
    const head: QNode
    /** The request each node is embedded in. */
    var msg: map<QNode, Pending>
    ghost var nodes: seq<QNode>

    ghost predicate Valid()
      reads this, head, nodes
    {
      Ring(head, nodes) && forall i :: 0 <= i < |nodes| ==> nodes[i] in msg
    }

    /** The queued requests in order. */
    ghost function Contents(): seq<Pending>
      requires Valid()
      reads this, head, nodes
    {
      Requests(nodes, msg)
    }

    constructor ()
      ensures Valid() && Contents() == [] && fresh(head)
    {
      head := new QNode();
      msg, nodes := map[], [];
    }

    /** qlist_empty on the queue */
    method Empty() returns (empty: bool)
      requires Valid()
      ensures empty <==> Contents() == []
    {
      empty := IsEmpty(head, nodes);
    }

    /** The request at the head. */
    method Peek() returns (q: Pending)
      requires Valid() && Contents() != []
      ensures q == Contents()[0]
    {
      var n := First(head, nodes);
      q := msg[n];
    }

    /** A request is given a node of its own and put at the end. */
    method Push(q: Pending)
      requires Valid()
      modifies this, head, nodes
      ensures Valid() && Contents() == old(Contents()) + [q]
      ensures |nodes| == |old(nodes)| + 1 && nodes[..|old(nodes)|] == old(nodes) && fresh(nodes[|old(nodes)|])
    {
      var item := new QNode();
      ghost var before := nodes;
      assert before != [] ==> ([head] + before)[|before|] == before[|before| - 1];
      AddTail(head, item, nodes);
      msg := msg[item := q];
      nodes := nodes + [item];
    }

    /** A client's request: it is written to the modem at once only if nothing else was queued. */
    method Submit(q: Pending) returns (writeNow: bool)
      requires Valid()
      modifies this, head, nodes
      ensures Valid() && Contents() == old(Contents()) + [q] && (writeNow <==> old(Contents()) == [])
    {
      writeNow := Empty();
      Push(q);
    }

    /** A response: the head is taken off, and the request that is now the head is the next to be written. */
    method Answer() returns (head: Option<Pending>, next: Option<Pending>)
      requires Valid()
      modifies `nodes, this.head, nodes
      ensures Valid()
      ensures if old(Contents()) == [] then head == None && next == None && Contents() == []
              else head == Some(old(Contents())[0]) && Contents() == old(Contents())[1..]
                   && next == if Contents() == [] then None else Some(Contents()[0])
    {
      head, next := None, None;
      var empty := Empty();
      if !empty {
        var q := Peek();
        head := Some(q);
        PopHead();
        empty := Empty();
        if !empty {
          q := Peek();
          next := Some(q);
        }
      }
    }

    /** The walk that takes the first request of `fd` off the queue, and stops there. */
    method DropFirst(fd: int)
      requires Valid()
      modifies `nodes, head, nodes
      ensures Valid() && Contents() == RemoveFirst(old(Contents()), fd)
      ensures forall n :: n in nodes ==> n in old(nodes)
    {
      ghost var ns := [head] + nodes;
      ghost var c := 0;
      assert RingAt(ns, 0);
      var node := head.next;
      while node != head && msg[node].fd != fd
        invariant c <= |nodes| && node == (if c == |nodes| then head else nodes[c])
        invariant forall j :: 0 <= j < c ==> msg[nodes[j]].fd != fd
        decreases |nodes| - c
      {
        assert ns[c + 1] == nodes[c] && RingAt(ns, c + 1);
        node := node.next;
        c := c + 1;
      }
      assert c < |nodes| ==> ns[c + 1] == nodes[c] && ns[c + 1] != ns[0];
      RemoveFirstAt(Contents(), fd, c);
      if node != head {
        Unlink(node, c);
      }
    }

    /** What a close does to the queue: a release for each of the connection's client ids is added, and
        then the connection's first request is taken off. */
    method Close(serverFd: int, uid: nat, clients: seq<Id>, fd: int)
      requires Valid()
      modifies this, head, nodes
      ensures Valid() && Contents() == RemoveFirst(old(Contents()) + Releases(serverFd, uid, clients), fd)
    {
      ghost var rel := Releases(serverFd, uid, clients);
      var k := 0;
      while k < |clients|
        invariant k <= |clients| && Valid() && Contents() == old(Contents()) + rel[..k]
        invariant forall i :: 0 <= i < |nodes| ==> nodes[i] in old(nodes) || fresh(nodes[i])
      {
        assert rel[..k + 1] == rel[..k] + [rel[k]];
        Push(Pending(serverFd, uid + k, ReleaseReq(clients[k])));
        k := k + 1;
      }
      assert rel[..k] == rel;
      DropFirst(fd);
    }

    /** The head is taken off. */
    method PopHead()
      requires Valid() && Contents() != []
      modifies `nodes, head, nodes
      ensures Valid() && Contents() == old(Contents())[1..]
    {
      var n := First(head, nodes);
      Unlink(n, 0);
    }

    /** qlist_remove of the node at place `c`. */
    method Unlink(item: QNode, ghost c: nat)
      requires Valid() && c < |nodes| && nodes[c] == item
      modifies `nodes, head, nodes
      ensures Valid() && nodes == old(nodes[..c] + nodes[c + 1..])
      ensures Contents() == old(Contents()[..c] + Contents()[c + 1..])
    {
      assert c > 0 ==> ([head] + nodes)[c] == nodes[c - 1];
      assert ([head] + nodes + [head])[c + 2] == if c + 1 < |nodes| then nodes[c + 1] else head;
      Remove(item, head, nodes, c);
      nodes := nodes[..c] + nodes[c + 1..];
    }
  }

  function Requests(nodes: seq<QNode>, msg: map<QNode, Pending>): seq<Pending>
    requires forall i :: 0 <= i < |nodes| ==> nodes[i] in msg
  {
    seq(|nodes|, i requires 0 <= i < |nodes| => msg[nodes[i]])
  }
}
