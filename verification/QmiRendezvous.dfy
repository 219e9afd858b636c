/** The rendezvous between the thread that sends QMI requests and the thread that reads responses:
    one slot for the request in progress, one for its response, and a condition variable whose waits
    can also end by timeout or for no reason. */
module QmiRendezvous {
  import opened Common

  const CTL: byte := 0
  const MUX_SPAN := 0xFFFF
  const CTL_SPAN := 0xFF

  /** A request: which allocation it is, how many requests of its kind were composed before it, its
      service type and client id, and its transaction id. */
  datatype Req = Req(uid: nat, ord: nat, svc: byte, client: byte, tid: nat)

  datatype Rsp = Rsp(svc: byte, client: byte, tid: nat)

  function Span(svc: byte): nat { if svc == CTL then CTL_SPAN else MUX_SPAN }

  /** The transaction id of the request composed after `n` others of its kind: 1 follows the highest. */
  function Tid(n: nat, span: nat): nat
    requires span > 0
  {
    n % span + 1
  }

  /** is_response */
  predicate Matches(q: Req, r: Rsp) { q.svc == r.svc && q.client == r.client && q.tid == r.tid }

  // ---------------------------------------------------------------- transaction ids

  class Counter {
    const span: nat
    var last: nat
    /** How many ids were handed out. */
    ghost var calls: nat

    ghost predicate Valid()
      reads this
    {
      span > 0 && last == if calls == 0 then 0 else Tid(calls - 1, span)
    }

    constructor (span: nat)
      requires span > 0
      ensures Valid() && calls == 0 && this.span == span
    {
      this.span, last, calls := span, 0, 0;
    }

    /** GetQMUXTransactionId, and GetQCTLTransactionId with its smaller span. */
    method Next() returns (tid: nat)
      requires Valid()
      modifies this
      ensures Valid() && calls == old(calls) + 1 && tid == Tid(old(calls), span)
    {
      NextAfter(calls, span, last);
      last := last + 1;
      if last > span {
        last := 1;
      }
      calls := calls + 1;
      tid := last;
    }
  }

  lemma NextAfter(calls: nat, span: nat, last: nat)
    requires span > 0 && last == if calls == 0 then 0 else Tid(calls - 1, span)
    ensures Tid(calls, span) == if last + 1 > span then 1 else last + 1
  {
    if calls > 0 {
      NextTid(calls, span);
    }
  }

  lemma NextTid(n: nat, span: nat)
    requires n > 0 && span > 0
    ensures Tid(n, span) == if Tid(n - 1, span) + 1 > span then 1 else Tid(n - 1, span) + 1
  {
    var q, r := (n - 1) / span, (n - 1) % span;
    assert n - 1 == q * span + r;
    AddTimes(q, 1, span);
    if r + 1 == span {
      ModUnique(n, span, q + 1, 0);
    } else {
      ModUnique(n, span, q, r + 1);
    }
  }

  lemma ModUnique(n: nat, span: nat, q: nat, r: nat)
    requires span > 0 && r < span && n == q * span + r
    ensures n % span == r
  {
    var q', r' := n / span, n % span;
    if q > q' {
      MulAtLeast(q' + 1, q, span);
    } else if q < q' {
      MulAtLeast(q + 1, q', span);
    }
  }

  lemma MulAtLeast(a: nat, b: nat, c: nat)
    requires a > 0 && a <= b
    ensures (a - 1) * c + c <= b * c
  {
    assert (a - 1) * c + c == a * c;
    assert b * c == a * c + (b - a) * c;
  }

  /** Two requests of a kind carry the same transaction id exactly when the number of requests between
      them is a multiple of the span. */
  lemma TidRepeats(m: nat, n: nat, span: nat)
    requires span > 0 && m <= n
    ensures Tid(m, span) == Tid(n, span) <==> (n - m) % span == 0
  {
    var q, r := m / span, m % span;
    var d, e := (n - m) / span, (n - m) % span;
    AddTimes(q, d, span);
    if r + e < span {
      ModUnique(n, span, q + d, r + e);
    } else {
      AddTimes(q + d, 1, span);
      ModUnique(n, span, q + d + 1, r + e - span);
    }
  }

  lemma AddTimes(a: nat, b: nat, c: nat)
    ensures (a + b) * c == a * c + b * c
  {
  }

  // ---------------------------------------------------------------- steps under the mutex

  /** s_pRequest, s_pResponse and the requests given back to the allocator. */
  datatype Slots = Slots(request: Option<Req>, response: Option<Rsp>, freed: seq<nat>)

  /** A send call up to its wait. */
  function Begin(s: Slots, q: Req): Slots { Slots(Some(q), None, s.freed) }

  /** The end of a send call, with a place for the response (`wanted`) or without. */
  function End(s: Slots, timedOut: bool, wanted: bool): (Slots, Option<Rsp>) {
    if timedOut then (s, None) else if wanted then (s, s.response) else (s.(response := None), None)
  }

  /** What the reader thread does with a response, or with the null it passes at shutdown. */
  function Receive(s: Slots, r: Option<Rsp>): Slots {
    if s.request.Some? && (r.None? || Matches(s.request.value, r.value))
    then Slots(None, r, s.freed + [s.request.value.uid])
    else s
  }

  /** The shared slots; the request whose sender is waiting; how many requests were sent, and how many
      of each kind composed; what each finished call returned; and the request of the latest call. */
  datatype State = State(
    slots: Slots, waiting: Option<Req>, sent: nat, muxCalls: nat, ctlCalls: nat,
    returned: seq<(Req, Option<Rsp>)>, current: Option<Req>)

  datatype Event =
    | Send(svc: byte, client: byte, written: bool)
    | Wake(timedOut: bool, wanted: bool)
    | Recv(rsp: Option<Rsp>)

  predicate Enabled(s: State, e: Event) {
    match e
    case Send(_, _, _) => s.waiting.None?
    case Wake(_, _) => s.waiting.Some?
    case Recv(_) => true
  }

  function Composed(s: State, svc: byte, client: byte): Req {
    var n := if svc == CTL then s.ctlCalls else s.muxCalls;
    Req(s.sent, n, svc, client, Tid(n, Span(svc)))
  }

  function Step(s: State, e: Event): State
    requires Enabled(s, e)
  {
    match e
    case Send(svc, client, written) =>
      var q := Composed(s, svc, client);
      var s1 := s.(slots := Begin(s.slots, q), sent := s.sent + 1, current := Some(q),
                   muxCalls := if svc == CTL then s.muxCalls else s.muxCalls + 1,
                   ctlCalls := if svc == CTL then s.ctlCalls + 1 else s.ctlCalls);
      if written then s1.(waiting := Some(q)) else s1.(returned := s.returned + [(q, None)])
    case Wake(timedOut, wanted) =>
      var (slots, result) := End(s.slots, timedOut, wanted);
      s.(slots := slots, waiting := None, returned := s.returned + [(s.waiting.value, result)])
    case Recv(r) =>
      s.(slots := Receive(s.slots, r))
  }

  predicate Init(s: State) {
    s == State(Slots(None, None, []), None, 0, 0, 0, [], None)
  }

  predicate Genuine(s: State, q: Req) {
    && q.uid < s.sent && q.ord < (if q.svc == CTL then s.ctlCalls else s.muxCalls)
    && q.tid == Tid(q.ord, Span(q.svc))
  }

  predicate Inv(s: State) {
    && (s.current.Some? ==> Genuine(s, s.current.value))
    && (s.waiting.Some? ==> s.waiting == s.current)
    && (s.slots.request.Some? ==> s.slots.request == s.current && s.slots.request.value.uid !in s.slots.freed)
    && (s.slots.response.Some? ==> s.current.Some? && Matches(s.current.value, s.slots.response.value))
    && (forall i :: 0 <= i < |s.slots.freed| ==> s.slots.freed[i] < s.sent)
    && (forall i, j :: 0 <= i < j < |s.slots.freed| ==> s.slots.freed[i] != s.slots.freed[j])
    && (forall i :: 0 <= i < |s.returned| ==>
          && Genuine(s, s.returned[i].0)
          && (s.returned[i].1.Some? ==> Matches(s.returned[i].0, s.returned[i].1.value)))
  }

  lemma StepKeeps(s: State, e: Event)
    requires Inv(s) && Enabled(s, e)
    ensures Inv(Step(s, e))
  {
  }

  predicate Behavior(ss: seq<State>, es: seq<Event>) {
    && |ss| == |es| + 1 && Init(ss[0])
    && forall k :: 0 <= k < |es| ==> Enabled(ss[k], es[k]) && ss[k + 1] == Step(ss[k], es[k])
  }

  lemma {:induction false} InvAlways(ss: seq<State>, es: seq<Event>, k: nat)
    requires Behavior(ss, es) && k < |ss|
    ensures Inv(ss[k])
  {
    if k > 0 {
      InvAlways(ss, es, k - 1);
      StepKeeps(ss[k - 1], es[k - 1]);
    }
  }

  /** In every interleaving, a response that a send call returns agrees with that call's request in
      service type, client id and transaction id, and no request is freed twice. */
  lemma ResponsesMatch(ss: seq<State>, es: seq<Event>, k: nat, i: nat)
    requires Behavior(ss, es) && k < |ss|
    ensures i < |ss[k].returned| && ss[k].returned[i].1.Some? ==>
              var (q, r) := (ss[k].returned[i].0, ss[k].returned[i].1.value);
              q.svc == r.svc && q.client == r.client && q.tid == r.tid
    ensures forall a, b :: 0 <= a < b < |ss[k].slots.freed| ==> ss[k].slots.freed[a] != ss[k].slots.freed[b]
  {
    InvAlways(ss, es, k);
  }

  /** The reader thread's message ends the wait for a reply to `q`: a reply with its service type, client
      id and transaction id, or the null it passes at shutdown. */
  predicate Ends(q: Req, e: Event) {
    && e.Recv?
    && (e.rsp.Some? ==> e.rsp.value.svc == q.svc && e.rsp.value.client == q.client && e.rsp.value.tid == q.tid)
  }

  /** A send call waits from moment `i` to moment `k`. */
  predicate WaitsOver(ss: seq<State>, es: seq<Event>, i: nat, k: nat) {
    && Behavior(ss, es) && i < k < |ss| && es[i].Send? && es[i].written
    && forall n :: i < n < k ==> es[n].Recv?
  }

  lemma {:induction false} StillWaiting(ss: seq<State>, es: seq<Event>, i: nat, k: nat)
    requires WaitsOver(ss, es, i, k)
    requires forall n :: i < n < k ==> !Ends(Composed(ss[i], es[i].svc, es[i].client), es[n])
    ensures var q := Composed(ss[i], es[i].svc, es[i].client);
            ss[k].slots == Slots(Some(q), None, ss[i].slots.freed) && ss[k].waiting == Some(q) && ss[k].returned == ss[i].returned
  {
    if k > i + 1 {
      StillWaiting(ss, es, i, k - 1);
    }
  }

  lemma {:induction false} ReplyKept(ss: seq<State>, es: seq<Event>, i: nat, n: nat, k: nat)
    requires WaitsOver(ss, es, i, k) && i < n < k && Ends(Composed(ss[i], es[i].svc, es[i].client), es[n])
    requires forall m :: i < m < n ==> !Ends(Composed(ss[i], es[i].svc, es[i].client), es[m])
    ensures var q := Composed(ss[i], es[i].svc, es[i].client);
            && ss[k].slots == Slots(None, es[n].rsp, ss[i].slots.freed + [q.uid])
            && ss[k].waiting == Some(q) && ss[k].returned == ss[i].returned
  {
    if k == n + 1 {
      StillWaiting(ss, es, i, n);
    } else {
      ReplyKept(ss, es, i, n, k - 1);
    }
  }

  /** In every interleaving a call that is woken in time returns the first reply to its own request that
      was received during its wait, whatever came before, between and after; it returns nothing when none
      came, when the shutdown null came first, when it timed out, or when it did not want the response. */
  lemma CallReturnsFirstReply(ss: seq<State>, es: seq<Event>, i: nat, n: nat, k: nat)
    requires WaitsOver(ss, es, i, k) && k < |es| && es[k].Wake? && i < n <= k
    requires var q := Composed(ss[i], es[i].svc, es[i].client);
             (n < k ==> Ends(q, es[n])) && forall m :: i < m < n ==> !Ends(q, es[m])
    ensures var q := Composed(ss[i], es[i].svc, es[i].client);
            ss[k + 1].returned == ss[i].returned + [(q, if n < k && !es[k].timedOut && es[k].wanted then es[n].rsp else None)]
  {
    if n < k {
      ReplyKept(ss, es, i, n, k);
    } else {
      StillWaiting(ss, es, i, k);
    }
  }

  /** A reply to one request can be returned by the call of a later one only when the number of
      requests of that kind from the first to the second is a positive multiple of the span: never
      within the next 65534 service requests, or 254 control requests. */
  lemma LateReplyNotReturned(ss: seq<State>, es: seq<Event>, k: nat, i: nat, j: nat, r: Rsp)
    requires Behavior(ss, es) && k < |ss| && i < |ss[k].returned| && j < |ss[k].returned|
    requires Matches(ss[k].returned[i].0, r) && ss[k].returned[j].1 == Some(r)
    requires ss[k].returned[i].0.ord < ss[k].returned[j].0.ord
    ensures var p, q := ss[k].returned[i].0, ss[k].returned[j].0;
            && p.svc == q.svc && (q.ord - p.ord) % Span(p.svc) == 0 && q.ord - p.ord >= Span(p.svc)
            && Span(p.svc) == if p.svc == 0 then 255 else 65535
  {
    InvAlways(ss, es, k);
    var p, q := ss[k].returned[i].0, ss[k].returned[j].0;
    assert Genuine(ss[k], p) && Genuine(ss[k], q) && Matches(q, r);
    TidRepeats(p.ord, q.ord, Span(p.svc));
  }

  /** And after exactly that many requests it is: a service request timed out, 65534 others later, the
      next one has its transaction id, and its late reply answers that one. */
  lemma LateReplyAfterSpan(p: Req, q: Req, r: Rsp)
    requires p.tid == Tid(p.ord, MUX_SPAN) && q.tid == Tid(q.ord, MUX_SPAN) && q.ord == p.ord + MUX_SPAN
    requires p.svc == q.svc != CTL && p.client == q.client && Matches(p, r)
    ensures Matches(q, r)
  {
    TidRepeats(p.ord, q.ord, MUX_SPAN);
  }

  /** A request still unanswered when the next one is sent is never freed. */
  lemma {:induction false} AbandonedNeverFreed(ss: seq<State>, es: seq<Event>, j: nat, k: nat, q: Req)
    requires Behavior(ss, es) && j < k < |ss| && es[j].Send? && ss[j].slots.request == Some(q)
    ensures q.uid !in ss[k].slots.freed && q.uid < ss[k].sent
    ensures ss[k].slots.request.Some? ==> ss[k].slots.request.value.uid > q.uid
  {
    if k == j + 1 {
      InvAlways(ss, es, j);
    } else {
      AbandonedNeverFreed(ss, es, j, k - 1, q);
    }
  }

  const SVC: byte := 1
  const CLIENT: byte := 1

  lemma ExtendRun(ss: seq<State>, es: seq<Event>, e: Event) returns (ss': seq<State>, es': seq<Event>)
    requires Behavior(ss, es) && Enabled(ss[|es|], e)
    ensures Behavior(ss', es') && ss'[|es'|] == Step(ss[|es|], e)
  {
    ss', es' := ss + [Step(ss[|es|], e)], es + [e];
    assert forall i :: 0 <= i < |ss| ==> ss'[i] == ss[i];
    assert forall i :: 0 <= i < |es| ==> es'[i] == es[i];
  }

  /** A run whose first request has timed out and in which `n` more were composed but not written. */
  lemma {:induction false} RunOfSends(n: nat) returns (ss: seq<State>, es: seq<Event>)
    ensures Behavior(ss, es)
    ensures var s := ss[|es|];
            && s.waiting.None? && s.sent == n + 1 && s.muxCalls == n + 1
            && |s.returned| == n + 1 && s.returned[0] == (Req(0, 0, SVC, CLIENT, 1), None)
  {
    if n == 0 {
      ss, es := [State(Slots(None, None, []), None, 0, 0, 0, [], None)], [];
      ss, es := ExtendRun(ss, es, Send(SVC, CLIENT, true));
      ss, es := ExtendRun(ss, es, Wake(true, true));
    } else {
      ss, es := RunOfSends(n - 1);
      ss, es := ExtendRun(ss, es, Send(SVC, CLIENT, false));
    }
  }

  /** The bound is met: in a run in which the first request timed out, the call 65535 requests later is
      given the late reply to it. */
  lemma LateReplyReturned() returns (ss: seq<State>, es: seq<Event>)
    ensures Behavior(ss, es)
    ensures var returned := ss[|es|].returned; var r := Rsp(SVC, CLIENT, 1); var last := |returned| - 1;
            && last == MUX_SPAN && returned[0].1 == None && Matches(returned[0].0, r)
            && returned[last].1 == Some(r) && returned[last].0.ord == returned[0].0.ord + MUX_SPAN
  {
    ss, es := RunOfSends(MUX_SPAN - 1);
    ss, es := ExtendRun(ss, es, Send(SVC, CLIENT, true));
    assert Tid(MUX_SPAN, MUX_SPAN) == 1;
    ss, es := ExtendRun(ss, es, Recv(Some(Rsp(SVC, CLIENT, 1))));
    ss, es := ExtendRun(ss, es, Wake(false, true));
  }

  /** From its sending until the next request is sent, a request is in the slot or it has been freed. */
  lemma {:induction false} HeldOrFreed(ss: seq<State>, es: seq<Event>, i: nat, m: nat)
    requires Behavior(ss, es) && i < m < |ss| && es[i].Send? && forall n :: i < n < m ==> !es[n].Send?
    ensures var uid := ss[i].sent;
            if ss[m].slots.request.Some? then ss[m].slots.request.value.uid == uid else uid in ss[m].slots.freed
  {
    if m > i + 1 {
      HeldOrFreed(ss, es, i, m - 1);
    }
  }

  lemma {:induction false} FreedGrows(ss: seq<State>, es: seq<Event>, j: nat, k: nat, uid: nat)
    requires Behavior(ss, es) && j <= k < |ss| && uid in ss[j].slots.freed
    ensures uid in ss[k].slots.freed
  {
    if k > j {
      FreedGrows(ss, es, j, k - 1, uid);
    }
  }

  /** A request is ever freed exactly if its slot is empty when the next request is sent, that is, if
      the reader has answered it, or passed a null for it, by then. */
  lemma FreedExactly(ss: seq<State>, es: seq<Event>, i: nat, j: nat, k: nat)
    requires Behavior(ss, es) && i < j < k < |ss| && es[i].Send? && es[j].Send?
    requires forall n :: i < n < j ==> !es[n].Send?
    ensures ss[i].sent in ss[k].slots.freed <==> ss[j].slots.request.None?
  {
    HeldOrFreed(ss, es, i, j);
    if ss[j].slots.request.None? {
      FreedGrows(ss, es, j, k, ss[i].sent);
    } else {
      AbandonedNeverFreed(ss, es, j, k, ss[j].slots.request.value);
    }
  }

  // ---------------------------------------------------------------- the two threads' code

  class Rendezvous {
    var pRequest: Option<Req>
    var pResponse: Option<Rsp>
    var freed: seq<nat>

    function Shared(): Slots
      reads this
    {
      Slots(pRequest, pResponse, freed)
    }

    constructor ()
      ensures Shared() == Slots(None, None, [])
    {
      pRequest, pResponse, freed := None, None, [];
    }

    /** QmiThreadSendQMITimeout up to its wait. */
    method SendBegin(q: Req)
      modifies this
      ensures Shared() == Begin(old(Shared()), q)
    {
      pRequest := Some(q);
      pResponse := None;
    }

    /** Its end, once the wait is over. */
    method SendEnd(timedOut: bool, wanted: bool) returns (result: Option<Rsp>)
      modifies this
      ensures (Shared(), result) == End(old(Shared()), timedOut, wanted)
    {
      result := None;
      if !timedOut {
        if pResponse.Some? && wanted {
          result := pResponse;
        } else if pResponse.Some? {
          pResponse := None;
        }
      }
    }

    /** QmiThreadRecvQMI */
    method RecvQmi(r: Option<Rsp>)
      modifies this
      ensures Shared() == Receive(old(Shared()), r)
    {
      match r {
        case None =>
          if pRequest.Some? {
            freed := freed + [pRequest.value.uid];
            pRequest, pResponse := None, None;
          }
        case Some(rsp) =>
          if pRequest.Some? {
            var same := IsResponse(pRequest.value, rsp);
            if same {
              freed := freed + [pRequest.value.uid];
              pRequest, pResponse := None, Some(rsp);
            }
          }
      }
    }

    method IsResponse(q: Req, r: Rsp) returns (yes: bool)
      ensures yes <==> Matches(q, r)
    {
      yes := false;
      if q.svc == r.svc && q.client == r.client {
        yes := q.tid == r.tid;
      }
    }
  }
}
