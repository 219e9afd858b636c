/** The MBIM proxy: up to 32 clients share one MBIM device. A request's transaction id is tagged with
    its client's slot in the top byte, and the tag directs the reply back. */
module MbimProxy {
  import opened Common

  const MAX_CLIENT := 32
  const TID_SPAN := 0x100_0000
  const U32 := 0x1_0000_0000
  const OPEN_MSG: nat := 1
  const CLOSE_MSG: nat := 2
  const DONE_BIT: nat := 0x8000_0000

  type u32 = n: int | 0 <= n < U32

  /** A slot is in use while its descriptor is positive; its index keeps its value after a close. */
  datatype Slot = Slot(fd: int, idx: nat)

  /** A message with only the header fields the proxy looks at or changes. */
  datatype Message = Message(msgType: u32, tid: u32, body: seq<byte>)

  datatype Delivery = Delivery(fd: int, msg: Message)

  /** What a request leads to: nothing, an answer by the proxy itself, or a message to the device. */
  datatype Outcome = Refused | Answered(reply: Delivery) | Forwarded(msg: Message)

  // ---------------------------------------------------------------- tags

  function Or8(a: nat, b: nat): nat
    requires a < 256 && b < 256
  {
    ((a as bv8) | (b as bv8)) as nat
  }

  /** TransactionId | (client_idx << TID_SHIFT) on 32 bits. */
  function Tag(tid: u32, idx: nat): u32
    requires idx < 256
  {
    Or8(tid / TID_SPAN, idx) * TID_SPAN + tid % TID_SPAN
  }

  lemma OrFacts(a: bv8, b: bv8)
    ensures 0 | b == b
    ensures b != 0 ==> a | b != 0
  {
  }

  /** A tag is never 0, whatever the client's id, so a reply cannot be taken for a broadcast; and the
      slot and the id can be read back from it exactly when the id leaves the top byte free. */
  lemma TagExact(tid: u32, idx: nat)
    requires 1 <= idx <= MAX_CLIENT
    ensures Tag(tid, idx) != 0
    ensures Tag(tid, idx) / TID_SPAN == idx && Tag(tid, idx) % TID_SPAN == tid <==> tid < TID_SPAN
  {
    var hi := tid / TID_SPAN;
    OrFacts(hi as bv8, idx as bv8);
    assert (idx as bv8) != 0;
    var o := Or8(hi, idx);
    assert o != 0;
    assert Tag(tid, idx) / TID_SPAN == o && Tag(tid, idx) % TID_SPAN == tid % TID_SPAN;
    if hi == 0 {
      assert o == idx;
    }
  }

  /** Different slots or different ids give different tags. */
  lemma TagInjective(t1: u32, i1: nat, t2: u32, i2: nat)
    requires 1 <= i1 <= MAX_CLIENT && 1 <= i2 <= MAX_CLIENT && t1 < TID_SPAN && t2 < TID_SPAN
    ensures Tag(t1, i1) == Tag(t2, i2) <==> t1 == t2 && i1 == i2
  {
    TagExact(t1, i1);
    TagExact(t2, i2);
  }

  // ---------------------------------------------------------------- handlers as functions

  /** The first slot that is free, or with descriptor `fd`, or with index `idx` and in use. */
  function FirstFree(slots: seq<Slot>): (i: nat)
    ensures i <= |slots| && (i < |slots| ==> slots[i].fd <= 0)
    ensures forall j :: 0 <= j < i ==> slots[j].fd > 0
  {
    if slots == [] || slots[0].fd <= 0 then 0 else 1 + FirstFree(slots[1..])
  }

  function SlotOf(slots: seq<Slot>, fd: int): (i: nat)
    ensures i <= |slots| && (i < |slots| ==> slots[i].fd == fd)
    ensures forall j :: 0 <= j < i ==> slots[j].fd != fd
  {
    if slots == [] || slots[0].fd == fd then 0 else 1 + SlotOf(slots[1..], fd)
  }

  function Addressee(slots: seq<Slot>, idx: nat): (i: nat)
    ensures i <= |slots| && (i < |slots| ==> slots[i].idx == idx && slots[i].fd > 0)
    ensures forall j :: 0 <= j < i ==> !(slots[j].idx == idx && slots[j].fd > 0)
  {
    if slots == [] || (slots[0].idx == idx && slots[0].fd > 0) then 0 else 1 + Addressee(slots[1..], idx)
  }

  function Connect(slots: seq<Slot>, fd: int): seq<Slot> {
    var i := FirstFree(slots);
    if i < |slots| then slots[i := Slot(fd, i + 1)] else slots
  }

  function Disconnect(slots: seq<Slot>, fd: int): seq<Slot> {
    var i := SlotOf(slots, fd);
    if i < |slots| && fd > 0 then slots[i := slots[i].(fd := -1)] else slots
  }

  function Request(slots: seq<Slot>, fd: int, m: Message): Outcome
    requires forall i :: 0 <= i < |slots| ==> slots[i].idx < 256
  {
    var i := SlotOf(slots, fd);
    if i == |slots| then Refused
    else if m.msgType == OPEN_MSG || m.msgType == CLOSE_MSG then
      Answered(Delivery(fd, Message(DONE_BIT + m.msgType, m.tid, [0, 0, 0, 0])))
    else Forwarded(m.(tid := Tag(m.tid, slots[i].idx)))
  }

  function Broadcast(slots: seq<Slot>, m: Message): seq<Delivery> {
    if slots == [] then []
    else (if slots[0].fd > 0 then [Delivery(slots[0].fd, m)] else []) + Broadcast(slots[1..], m)
  }

  function Response(slots: seq<Slot>, m: Message): seq<Delivery> {
    if m.tid == 0 then Broadcast(slots, m)
    else
      var i := Addressee(slots, m.tid / TID_SPAN);
      if i == |slots| then [] else [Delivery(slots[i].fd, m.(tid := m.tid % TID_SPAN))]
  }

  // ---------------------------------------------------------------- the proxy object

  class Proxy {
    const slots: array<Slot>
    var toClients: seq<Delivery>
    var toDevice: seq<Message>

    constructor ()
      ensures slots.Length == MAX_CLIENT && fresh(slots) && forall i :: 0 <= i < MAX_CLIENT ==> slots[i] == Slot(0, 0)
      ensures toClients == [] && toDevice == []
    {
      slots := new Slot[MAX_CLIENT](_ => Slot(0, 0));
      toClients, toDevice := [], [];
    }

    method HandleConnect(fd: int) returns (ret: int)
      modifies slots
      ensures slots[..] == Connect(old(slots[..]), fd)
      ensures ret == if FirstFree(old(slots[..])) < slots.Length then 0 else -1
    {
      for i := 0 to slots.Length
        invariant forall j :: 0 <= j < i ==> slots[j].fd > 0
        invariant slots[..] == old(slots[..])
      {
        if slots[i].fd <= 0 {
          slots[i] := Slot(fd, i + 1);
          return 0;
        }
      }
      return -1;
    }

    method HandleDisconnect(fd: int)
      modifies slots
      ensures slots[..] == Disconnect(old(slots[..]), fd)
    {
      for i := 0 to slots.Length
        invariant forall j :: 0 <= j < i ==> slots[j].fd != fd
        invariant slots[..] == old(slots[..])
      {
        if slots[i].fd == fd {
          if slots[i].fd > 0 {
            slots[i] := slots[i].(fd := -1);
          }
          return;
        }
      }
    }

    method HandleRequest(fd: int, m: Message) returns (ret: int)
      requires forall i :: 0 <= i < slots.Length ==> slots[i].idx < 256
      modifies this
      ensures match Request(slots[..], fd, m)
              case Refused => ret == -1 && toClients == old(toClients) && toDevice == old(toDevice)
              case Answered(d) => ret == 0 && toClients == old(toClients) + [d] && toDevice == old(toDevice)
              case Forwarded(f) => ret == 0 && toClients == old(toClients) && toDevice == old(toDevice) + [f]
    {
      var i := 0;
      while i < slots.Length && slots[i].fd != fd
        invariant i <= slots.Length && forall j :: 0 <= j < i ==> slots[j].fd != fd
      {
        i := i + 1;
      }
      assert i == SlotOf(slots[..], fd);
      if i == slots.Length {
        return -1;
      }
      if m.msgType == OPEN_MSG || m.msgType == CLOSE_MSG {
        toClients := toClients + [Delivery(fd, Message(DONE_BIT + m.msgType, m.tid, [0, 0, 0, 0]))];
        return 0;
      }
      toDevice := toDevice + [m.(tid := Tag(m.tid, slots[i].idx))];
      return 0;
    }

    method HandleResponse(m: Message)
      modifies this
      ensures toClients == old(toClients) + Response(slots[..], m) && toDevice == old(toDevice)
    {
      if m.tid == 0 {
        for i := 0 to slots.Length
          invariant toClients + Broadcast(slots[i..], m) == old(toClients) + Broadcast(slots[..], m)
          invariant toDevice == old(toDevice)
        {
          assert slots[i..][1..] == slots[i + 1..];
          if slots[i].fd > 0 {
            toClients := toClients + [Delivery(slots[i].fd, m)];
          }
        }
        return;
      }
      var idx := m.tid / TID_SPAN;
      var i := 0;
      while i < slots.Length && !(slots[i].idx == idx && slots[i].fd > 0)
        invariant i <= slots.Length && forall j :: 0 <= j < i ==> !(slots[j].idx == idx && slots[j].fd > 0)
      {
        i := i + 1;
      }
      assert i == Addressee(slots[..], idx);
      if i < slots.Length {
        toClients := toClients + [Delivery(slots[i].fd, m.(tid := m.tid % TID_SPAN))];
      }
    }
  }

  // ---------------------------------------------------------------- runs

  datatype Event = Join(fd: int) | Leave(fd: int) | Ask(fd: int, msg: Message) | Reply(msg: Message)

  /** The system gives a new connection a positive descriptor that none of the open ones has. */
  predicate Enabled(slots: seq<Slot>, e: Event) {
    e.Join? ==> e.fd > 0 && SlotOf(slots, e.fd) == |slots|
  }

  function Step(slots: seq<Slot>, e: Event): seq<Slot> {
    match e
    case Join(fd) => Connect(slots, fd)
    case Leave(fd) => Disconnect(slots, fd)
    case Ask(_, _) => slots
    case Reply(_) => slots
  }

  predicate Behavior(ss: seq<seq<Slot>>, es: seq<Event>) {
    && |ss| == |es| + 1 && ss[0] == seq(MAX_CLIENT, _ => Slot(0, 0))
    && forall k :: 0 <= k < |es| ==> Enabled(ss[k], es[k]) && ss[k + 1] == Step(ss[k], es[k])
  }

  /** Open descriptors are distinct, an open slot carries its own place, and a slot never used or used
      before carries 0 or its own place. */
  predicate Inv(slots: seq<Slot>) {
    && |slots| == MAX_CLIENT
    && (forall i, j :: 0 <= i < j < |slots| && slots[i].fd > 0 ==> slots[i].fd != slots[j].fd)
    && (forall i :: 0 <= i < |slots| ==> slots[i].idx == i + 1 || (slots[i].idx == 0 && slots[i].fd == 0))
  }

  lemma StepKeeps(slots: seq<Slot>, e: Event)
    requires Inv(slots) && Enabled(slots, e)
    ensures Inv(Step(slots, e))
  {
  }

  lemma {:induction false} InvAlways(ss: seq<seq<Slot>>, es: seq<Event>, k: nat)
    requires Behavior(ss, es) && k < |ss|
    ensures Inv(ss[k])
  {
    if k > 0 {
      InvAlways(ss, es, k - 1);
      StepKeeps(ss[k - 1], es[k - 1]);
    }
  }

  /** A client that does not leave keeps its slot. */
  lemma {:induction false} SlotKept(ss: seq<seq<Slot>>, es: seq<Event>, i: nat, j: nat, k: nat)
    requires Behavior(ss, es) && j <= k < |ss| && i < MAX_CLIENT && |ss[j]| == MAX_CLIENT && ss[j][i].fd > 0
    requires forall n :: j <= n < k ==> es[n] != Leave(ss[j][i].fd)
    ensures |ss[k]| == MAX_CLIENT && ss[k][i] == ss[j][i]
  {
    if j < k {
      SlotKept(ss, es, i, j, k - 1);
    }
  }

  /** In every run: a request with an id below 2^24, made at moment `j` by the client in slot `i`, goes
      to the device under a nonzero tag of its own, and a reply under that tag at any later moment `k`
      is given, with the client's own id, to whoever is in that slot then and to nobody else: to that
      same client if it has not left, and to nobody if the slot is empty. */
  lemma ReplyReachesSlot(ss: seq<seq<Slot>>, es: seq<Event>, j: nat, k: nat, i: nat, m: Message, reply: Message)
    requires Behavior(ss, es) && j <= k < |ss| && i < MAX_CLIENT
    requires |ss[j]| == MAX_CLIENT && ss[j][i].fd > 0 && m.tid < TID_SPAN && m.msgType != OPEN_MSG && m.msgType != CLOSE_MSG
    requires reply.tid == Tag(m.tid, i + 1)
    ensures Inv(ss[j]) && Inv(ss[k]) && reply.tid != 0
    ensures Request(ss[j], ss[j][i].fd, m) == Forwarded(m.(tid := reply.tid))
    ensures Response(ss[k], reply) == if ss[k][i].fd > 0 then [Delivery(ss[k][i].fd, reply.(tid := m.tid))] else []
    ensures (forall n :: j <= n < k ==> es[n] != Leave(ss[j][i].fd)) ==>
              Response(ss[k], reply) == [Delivery(ss[j][i].fd, reply.(tid := m.tid))]
  {
    InvAlways(ss, es, j);
    InvAlways(ss, es, k);
    TagExact(m.tid, i + 1);
    assert SlotOf(ss[j], ss[j][i].fd) == i;
    var a := Addressee(ss[k], i + 1);
    assert ss[k][i].fd > 0 ==> a == i;
    if forall n :: j <= n < k ==> es[n] != Leave(ss[j][i].fd) {
      SlotKept(ss, es, i, j, k);
    }
  }

  /** How many of the first `i` slots are open. */
  function OpenBefore(slots: seq<Slot>, i: nat): nat
    requires i <= |slots|
  {
    if i == 0 then 0 else (if slots[0].fd > 0 then 1 else 0) + OpenBefore(slots[1..], i - 1)
  }

  /** A broadcast is written to every open slot exactly once, in slot order: the message for an open slot
      is preceded by just those for the open slots before it, and there are no others. */
  lemma {:induction false} BroadcastInOrder(slots: seq<Slot>, m: Message, i: nat)
    requires i < |slots|
    ensures |Broadcast(slots, m)| == OpenBefore(slots, |slots|)
    ensures slots[i].fd > 0 ==>
              OpenBefore(slots, i) < |Broadcast(slots, m)| && Broadcast(slots, m)[OpenBefore(slots, i)] == Delivery(slots[i].fd, m)
  {
    if |slots| == 1 {
      assert Broadcast(slots[1..], m) == [] && OpenBefore(slots[1..], 0) == 0;
    } else {
      BroadcastInOrder(slots[1..], m, if i == 0 then 0 else i - 1);
    }
  }

  /** A broadcast goes to the descriptors of the open slots and to no other. */
  lemma {:induction false} BroadcastReaches(slots: seq<Slot>, m: Message, fd: int)
    ensures Delivery(fd, m) in Broadcast(slots, m) <==> fd > 0 && exists i :: 0 <= i < |slots| && slots[i].fd == fd
    ensures |Broadcast(slots, m)| <= |slots|
  {
    if slots != [] {
      BroadcastReaches(slots[1..], m, fd);
      if exists i :: 0 <= i < |slots| && slots[i].fd == fd {
        var i :| 0 <= i < |slots| && slots[i].fd == fd;
        assert i > 0 ==> slots[1..][i - 1].fd == fd;
      }
    }
  }

  /** In every run: a client's request to open or close the device is answered to that client alone, by
      the proxy itself: with the message type of the answer, the client's own id and the status success.
      A request is refused exactly when its descriptor is in no slot. */
  lemma OpenAnswered(ss: seq<seq<Slot>>, es: seq<Event>, k: nat, fd: int, m: Message)
    requires Behavior(ss, es) && k < |ss|
    ensures Inv(ss[k])
    ensures var o := Request(ss[k], fd, m);
            var seated := exists i :: 0 <= i < MAX_CLIENT && ss[k][i].fd == fd;
            && (o == Refused <==> !seated)
            && (o.Answered? <==> seated && (m.msgType == 1 || m.msgType == 2))
            && (o.Answered? ==> o.reply == Delivery(fd, Message(0x8000_0000 + m.msgType, m.tid, [0, 0, 0, 0])))
  {
    InvAlways(ss, es, k);
  }

  /** In every run a reply to one client reaches nobody exactly when its tag names no slot, or an empty
      one. */
  lemma StrayReply(ss: seq<seq<Slot>>, es: seq<Event>, k: nat, m: Message)
    requires Behavior(ss, es) && k < |ss| && m.tid != 0
    ensures |ss[k]| == MAX_CLIENT
    ensures Response(ss[k], m) == [] <==> var n := m.tid / TID_SPAN; n == 0 || n > 32 || ss[k][n - 1].fd <= 0
  {
    InvAlways(ss, es, k);
    var n, a := m.tid / TID_SPAN, Addressee(ss[k], m.tid / TID_SPAN);
    if 0 < n <= 32 && ss[k][n - 1].fd > 0 {
      assert ss[k][n - 1].idx == n;
    }
  }

  /** A new client gets the first free slot, and is turned away exactly when all 32 are in use. */
  lemma JoinSeats(ss: seq<seq<Slot>>, es: seq<Event>, k: nat, fd: int, i: nat)
    requires Behavior(ss, es) && k < |ss|
    ensures |ss[k]| == 32
    ensures i < 32 && ss[k][i].fd <= 0 && (forall j :: 0 <= j < i ==> ss[k][j].fd > 0) ==>
              Connect(ss[k], fd) == ss[k][i := Slot(fd, i + 1)]
    ensures (forall j :: 0 <= j < 32 ==> ss[k][j].fd > 0) ==> Connect(ss[k], fd) == ss[k]
  {
    InvAlways(ss, es, k);
  }

  /** A leaving client's slot is free afterwards, and every other slot is as it was. */
  lemma LeaveFrees(ss: seq<seq<Slot>>, es: seq<Event>, k: nat, fd: int, i: nat)
    requires Behavior(ss, es) && k < |ss| && i < MAX_CLIENT && fd > 0
    ensures |ss[k]| == MAX_CLIENT == |Disconnect(ss[k], fd)|
    ensures if ss[k][i].fd == fd then Disconnect(ss[k], fd)[i].fd <= 0 else Disconnect(ss[k], fd)[i] == ss[k][i]
  {
    InvAlways(ss, es, k);
  }
}
