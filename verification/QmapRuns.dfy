/** Whole runs of the uplink: transmits, their second sections, the flush timer, the flush work and
    the switch-on of aggregation, in any interleaving the lock allows; and the round trip through
    the receive handler. */
module QmapRuns {
  import opened Common
  import opened QmapFrame
  import opened QmapAgg

  /** Where the one transmitting thread is: outside, between two sections with its packet still in
      hand, or past the last section and about to look at the timer. */
  datatype Phase = Idle | Between(tx: Tx) | Closing(tx: Tx)

  datatype Sys = Sys(
    limits: Limits, agg: Agg, phase: Phase, timer: bool, work: bool,
    sent: seq<Buffer>, submitted: seq<Buffer>)

  datatype Event =
    | Submit(tx: Tx, env: Env)
    | Again(env: Env)
    | Arm
    | TimerFires
    | RunWork(now: int)
    | Adopt(maxDatagrams: nat, maxSize: nat)

  predicate Init(s: Sys) {
    && s.limits.maxDatagrams == 1 && s.limits.maxSize == 2048
    && s.agg.skb.None? && s.agg.count == 0
    && s.phase.Idle? && !s.timer && !s.work && s.sent == [] && s.submitted == []
  }

  predicate Enabled(s: Sys, e: Event) {
    match e
    case Submit(_, _) => s.phase.Idle?
    case Again(_) => s.phase.Between?
    case Arm => s.phase.Closing?
    case TimerFires => s.timer
    case RunWork(_) => s.work
    case Adopt(n, _) => s.limits.maxDatagrams == 1 && n > 1
  }

  function SectionStep(s: Sys, tx: Tx, env: Env): Sys {
    var o := Section(s.agg, tx, env, s.limits);
    s.(agg := o.agg, sent := Sent(s.sent, o.claimed), phase := if o.left then Between(tx) else Closing(tx))
  }

  function Step(s: Sys, e: Event): Sys
    requires Enabled(s, e)
  {
    match e
    case Submit(tx, env) =>
      var s1 := s.(submitted := s.submitted + [tx.frame]);
      if s.limits.maxDatagrams == 1 then s1.(sent := s.sent + [tx.frame]) else SectionStep(s1, tx, env)
    case Again(env) => SectionStep(s, s.phase.tx, env)
    case Arm => s.(phase := Idle, timer := s.timer || s.agg.skb.Some?)
    case TimerFires => s.(timer := false, work := true)
    case RunWork(now) =>
      if s.agg.skb.None? then s.(work := false)
      else s.(work := false, agg := Agg(None, 0, now), sent := s.sent + [s.agg.skb.value])
    case Adopt(n, size) => s.(limits := s.limits.(maxDatagrams := n, maxSize := size))
  }

  /** The state after `es`, when every event of it was enabled in its turn. */
  function Run(s: Sys, es: seq<Event>): Option<Sys>
    decreases es
  {
    if es == [] then Some(s)
    else if Enabled(s, es[0]) then Run(Step(s, es[0]), es[1..])
    else None
  }

  // ---------------------------------------------------------------- the books

  /** Which submitted frames each sent buffer carries, and which are held. */
  datatype Ledger = Ledger(groups: seq<seq<Buffer>>, pend: seq<Buffer>)

  function InHand(p: Phase): seq<Buffer> { if p.Between? then [p.tx.frame] else [] }

  ghost predicate Balanced(s: Sys, l: Ledger) {
    && s.agg.count == |l.pend|
    && s.agg.skb == (if l.pend == [] then None else Some(Concat(l.pend)))
    && |l.groups| == |s.sent|
    && (forall i :: 0 <= i < |s.sent| ==> l.groups[i] != [] && s.sent[i] == Concat(l.groups[i]))
    && Concat(l.groups) + l.pend + InHand(s.phase) == s.submitted
  }

  /** What holds between any two steps: the count stays below its limit; a packet is in hand only
      while nothing is held; an urgent packet's call ends with nothing held; and whatever is held
      has a timer or scheduled work that will flush it, unless the call that put it there has not
      reached its end. */
  predicate Steady(s: Sys) {
    && s.limits.maxDatagrams >= 1
    && s.agg.count < s.limits.maxDatagrams
    && (!s.phase.Idle? ==> s.limits.maxDatagrams > 1)
    && (s.phase.Between? ==> s.agg.skb.None?)
    && (s.phase.Closing? && !s.phase.tx.xmitMore && s.phase.tx.urgent ==> s.agg.skb.None?)
    && (s.agg.skb.Some? ==> s.timer || s.work || s.phase.Closing?)
  }

  lemma SectionKeeps(s: Sys, tx: Tx, env: Env, l: Ledger) returns (l': Ledger)
    requires s.limits.maxDatagrams > 1
    requires Balanced(s.(phase := Between(tx)), l) && s.agg.count < s.limits.maxDatagrams
    ensures Balanced(SectionStep(s, tx, env), l')
  {
    var o := Section(s.agg, tx, env, s.limits);
    var s' := SectionStep(s, tx, env);
    var f := tx.frame;
    ConcatOne(l.pend, f);
    if l.pend == [] {
      assert Concat([f]) == f;
    }
    if o.claimed.None? {
      l' := Ledger(l.groups, l.pend + [f]);
      assert Concat(l'.groups) + l'.pend + [] == Concat(l.groups) + l.pend + [f];
    } else if o.left {
      l' := Ledger(l.groups + [l.pend], []);
      ConcatOne(l.groups, l.pend);
      assert Concat(l'.groups) + [] == Concat(l.groups) + l.pend;
    } else {
      l' := Ledger(l.groups + [l.pend + [f]], []);
      ConcatOne(l.groups, l.pend + [f]);
      assert Concat(l'.groups) + [] + [] == Concat(l.groups) + l.pend + [f];
    }
  }

  /** A submission while aggregation is off. */
  lemma DirectKeeps(s: Sys, f: Buffer, l: Ledger) returns (l': Ledger)
    requires Balanced(s, l) && s.phase.Idle? && l.pend == []
    ensures Balanced(s.(submitted := s.submitted + [f], sent := s.sent + [f]), l')
  {
    l' := Ledger(l.groups + [[f]], []);
    ConcatOne(l.groups, [f]);
    assert Concat([f]) == f;
    assert Concat(l.groups) + [] + [] == Concat(l.groups);
    assert Concat(l'.groups) + [] + [] == Concat(l.groups) + [f];
  }

  /** The flush work. */
  lemma FlushKeeps(s: Sys, now: int, l: Ledger) returns (l': Ledger)
    requires Balanced(s, l) && s.agg.skb.Some?
    ensures Balanced(s.(agg := Agg(None, 0, now), sent := s.sent + [s.agg.skb.value]), l')
  {
    l' := Ledger(l.groups + [l.pend], []);
    ConcatOne(l.groups, l.pend);
    assert Concat(l'.groups) + [] == Concat(l.groups) + l.pend;
  }

  lemma StepKeeps(s: Sys, e: Event, l: Ledger) returns (l': Ledger)
    requires Enabled(s, e) && Balanced(s, l) && Steady(s)
    ensures Balanced(Step(s, e), l') && Steady(Step(s, e))
  {
    l' := l;
    match e
    case Submit(tx, env) =>
      assert Concat(l.groups) + l.pend + [] == s.submitted;
      if s.limits.maxDatagrams == 1 {
        l' := DirectKeeps(s, tx.frame, l);
      } else {
        l' := SectionKeeps(s.(submitted := s.submitted + [tx.frame]), tx, env, l);
      }
    case Again(env) =>
      l' := SectionKeeps(s, s.phase.tx, env, l);
    case RunWork(now) =>
      if s.agg.skb.Some? {
        l' := FlushKeeps(s.(work := false), now, l);
      }
    case _ =>
  }

  /** Every run keeps exact books: each submitted frame is in exactly one sent buffer, in the held
      buffer or in hand, whole and in submission order. */
  lemma {:induction false} RunKeeps(s: Sys, es: seq<Event>, l: Ledger) returns (l': Ledger)
    requires Balanced(s, l) && Steady(s) && Run(s, es).Some?
    ensures Balanced(Run(s, es).value, l') && Steady(Run(s, es).value)
    decreases es
  {
    l' := l;
    if es != [] {
      var l1 := StepKeeps(s, es[0], l);
      l' := RunKeeps(Step(s, es[0]), es[1..], l1);
    }
  }

  lemma InitBalanced(s: Sys)
    requires Init(s)
    ensures Balanced(s, Ledger([], [])) && Steady(s)
  {
    assert Concat<seq<Buffer>>([]) + [] + [] == [];
  }

  lemma {:induction false} ConcatGroups(groups: seq<seq<Buffer>>, bufs: seq<Buffer>)
    requires |groups| == |bufs| && forall i :: 0 <= i < |bufs| ==> bufs[i] == Concat(groups[i])
    ensures Concat(bufs) == Concat(Concat(groups))
  {
    if bufs != [] {
      ConcatGroups(groups[1..], bufs[1..]);
      ConcatAppend(groups[0], Concat(groups[1..]));
    }
  }

  /** Nothing is lost, duplicated or reordered in any run from the initial state, and held traffic
      never lacks a pending flush once its call has ended. */
  lemma TrafficConserved(s: Sys, es: seq<Event>)
    requires Init(s) && Run(s, es).Some?
    ensures var r := Run(s, es).value;
            && Concat(r.sent) + Bytes(r.agg.skb) + Concat(InHand(r.phase)) == Concat(r.submitted)
            && (r.agg.skb.None? <==> r.agg.count == 0) && r.agg.count < r.limits.maxDatagrams
            && (r.phase.Idle? && r.agg.skb.Some? ==> r.timer || r.work)
  {
    InitBalanced(s);
    var l := RunKeeps(s, es, Ledger([], []));
    var r := Run(s, es).value;
    ConcatGroups(l.groups, r.sent);
    ConcatAppend(Concat(l.groups) + l.pend, InHand(r.phase));
    ConcatAppend(Concat(l.groups), l.pend);
  }

  /** When an urgent packet's call ends, everything submitted so far has been sent. */
  lemma UrgentSendsAll(s: Sys, es: seq<Event>)
    requires Init(s) && Run(s, es).Some?
    requires var r := Run(s, es).value; r.phase.Closing? && !r.phase.tx.xmitMore && r.phase.tx.urgent
    ensures var r := Run(s, es).value; Concat(r.sent) == Concat(r.submitted)
  {
    InitBalanced(s);
    var _ := RunKeeps(s, es, Ledger([], []));
    TrafficConserved(s, es);
    var r := Run(s, es).value;
    assert Concat(r.sent) + [] + [] == Concat(r.sent);
  }

  // ---------------------------------------------------------------- the age of an aggregate

  /** The clock an event samples, when it runs a section or the flush work. */
  function Clock(s: Sys, e: Event): Option<int> {
    match e
    case Submit(_, env) => if s.limits.maxDatagrams == 1 then None else Some(env.now)
    case Again(env) => Some(env.now)
    case RunWork(now) => Some(now)
    case _ => None
  }

  /** The clock of the last section or flush of the run that sent something, or `t` if none did. */
  function LastSent(s: Sys, es: seq<Event>, t: int): int
    requires Run(s, es).Some?
    decreases es
  {
    if es == [] then t
    else
      var s1 := Step(s, es[0]);
      LastSent(s1, es[1..], if |s1.sent| > |s.sent| && Clock(s, es[0]).Some? then Clock(s, es[0]).value else t)
  }

  lemma StepTime(s: Sys, e: Event)
    requires Enabled(s, e)
    ensures Step(s, e).agg.time == if |Step(s, e).sent| > |s.sent| && Clock(s, e).Some? then Clock(s, e).value else s.agg.time
  {
  }

  /** In every run `agg_time` is the clock of the last section or flush that sent something: the age a
      section measures is the time since then. */
  lemma {:induction false} AgeSinceLastSent(s: Sys, es: seq<Event>)
    requires Run(s, es).Some?
    ensures Run(s, es).value.agg.time == LastSent(s, es, s.agg.time)
    decreases es
  {
    if es != [] {
      StepTime(s, es[0]);
      AgeSinceLastSent(Step(s, es[0]), es[1..]);
    }
  }

  // ---------------------------------------------------------------- sizes

  /** Every packet fits an aggregate on its own, at the limit in force when it is submitted. */
  predicate FramesFit(s: Sys, es: seq<Event>)
    requires Run(s, es).Some?
    decreases es
  {
    es == [] || ((es[0].Submit? ==> |es[0].tx.frame| <= s.limits.maxSize) && FramesFit(Step(s, es[0]), es[1..]))
  }

  predicate WithinSize(s: Sys) {
    && (s.agg.skb.Some? ==> |s.agg.skb.value| <= s.limits.maxSize && s.limits.maxDatagrams > 1)
    && (s.phase.Between? ==> |s.phase.tx.frame| <= s.limits.maxSize && s.limits.maxDatagrams > 1)
  }

  /** What the code tests before it copies a frame into a new aggregate, and the frame does not fit. */
  predicate Oversized(a: Agg, tx: Tx, env: Env, c: Limits) {
    && a.skb.None? && !Elapsed(env.now - a.time, c.bypassTime) && (tx.xmitMore || !tx.urgent) && env.allocOk
    && |tx.frame| > c.maxSize
  }

  predicate HeldFits(a: Agg, c: Limits) { a.skb.Some? ==> |a.skb.value| <= c.maxSize }

  /** One section keeps the held buffer inside its allocation exactly unless it opens a new one for
      a frame that does not fit: appending never overruns. */
  lemma SectionSizeExact(a: Agg, tx: Tx, env: Env, c: Limits)
    requires HeldFits(a, c)
    ensures HeldFits(Section(a, tx, env, c).agg, c) <==> !Oversized(a, tx, env, c)
  {
  }

  /** An event that opens a new aggregate for a frame that does not fit. */
  predicate Overruns(s: Sys, e: Event)
    requires Enabled(s, e)
  {
    match e
    case Submit(tx, env) => s.limits.maxDatagrams != 1 && Oversized(s.agg, tx, env, s.limits)
    case Again(env) => Oversized(s.agg, s.phase.tx, env, s.limits)
    case _ => false
  }

  /** The held buffer fits at every moment of the run. */
  predicate AlwaysFits(s: Sys, es: seq<Event>)
    requires Run(s, es).Some?
    decreases es
  {
    HeldFits(s.agg, s.limits) && (es == [] || AlwaysFits(Step(s, es[0]), es[1..]))
  }

  predicate NeverOverruns(s: Sys, es: seq<Event>)
    requires Run(s, es).Some?
    decreases es
  {
    es == [] || (!Overruns(s, es[0]) && NeverOverruns(Step(s, es[0]), es[1..]))
  }

  /** In a run the held buffer stays inside its allocation exactly as long as no event opens an aggregate
      for a frame that does not fit. */
  lemma {:induction false} AlwaysFitsExactly(s: Sys, es: seq<Event>)
    requires HeldFits(s.agg, s.limits) && (s.limits.maxDatagrams == 1 ==> s.agg.skb.None? && s.phase.Idle?)
    requires Run(s, es).Some?
    ensures AlwaysFits(s, es) <==> NeverOverruns(s, es)
    decreases es
  {
    if es != [] {
      StepFitsExactly(s, es[0]);
      if !Overruns(s, es[0]) {
        AlwaysFitsExactly(Step(s, es[0]), es[1..]);
      }
    }
  }

  lemma StepFitsExactly(s: Sys, e: Event)
    requires HeldFits(s.agg, s.limits) && (s.limits.maxDatagrams == 1 ==> s.agg.skb.None? && s.phase.Idle?) && Enabled(s, e)
    ensures var s' := Step(s, e);
            && (HeldFits(s'.agg, s'.limits) <==> !Overruns(s, e))
            && (s'.limits.maxDatagrams == 1 ==> s'.agg.skb.None? && s'.phase.Idle?)
  {
    match e
    case Submit(tx, env) => SectionSizeExact(s.agg, tx, env, s.limits);
    case Again(env) => SectionSizeExact(s.agg, s.phase.tx, env, s.limits);
    case _ =>
  }

  /** And it does happen: the first frame after the modem's limits are adopted overruns the aggregate if
      it is longer than the limit, not urgent, and no time has passed. */
  lemma OverrunReached(s: Sys, n: nat, size: nat, tx: Tx, env: Env)
    requires Init(s) && n > 1 && |tx.frame| > size && !tx.urgent && env.allocOk
    requires !Elapsed(env.now - s.agg.time, s.limits.bypassTime)
    ensures var r := Run(s, [Adopt(n, size), Submit(tx, env)]);
            r.Some? && r.value.agg.skb == Some(tx.frame) && |tx.frame| > r.value.limits.maxSize
  {
    var es := [Adopt(n, size), Submit(tx, env)];
    var s1 := Step(s, es[0]);
    assert es[1..] == [Submit(tx, env)];
    assert Run(s1, [Submit(tx, env)]) == Run(Step(s1, Submit(tx, env)), []) by {
      assert [Submit(tx, env)][1..] == [];
    }
  }

  lemma {:induction false} SizeKept(s: Sys, es: seq<Event>)
    requires WithinSize(s) && s.limits.maxDatagrams >= 1 && Run(s, es).Some? && FramesFit(s, es)
    ensures WithinSize(Run(s, es).value)
    decreases es
  {
    if es != [] {
      SizeKept(Step(s, es[0]), es[1..]);
    }
  }

  /** A buffer that is one submitted frame, or an aggregate below the size limit. */
  predicate Sized(b: Buffer, s: Sys) { b in s.submitted || |b| < s.limits.maxSize }

  predicate AllSized(s: Sys) {
    && (forall b :: b in s.sent ==> Sized(b, s))
    && (s.agg.skb.Some? ==> Sized(s.agg.skb.value, s))
    && (s.phase.Between? ==> s.phase.tx.frame in s.submitted)
    && (s.limits.maxDatagrams == 1 ==> s.agg.skb.None? && forall b :: b in s.sent ==> b in s.submitted)
    && (s.limits.maxDatagrams == 1 ==> s.phase.Idle?)
  }

  lemma SizedStep(s: Sys, e: Event)
    requires AllSized(s) && s.limits.maxDatagrams >= 1 && Enabled(s, e)
    ensures AllSized(Step(s, e))
  {
    if e.Submit? {
      assert forall b :: b in s.submitted ==> b in Step(s, e).submitted;
      assert e.tx.frame in [e.tx.frame];
    }
  }

  /** In every run, with no assumption on the frames: only a frame sent alone can reach the size
      limit; anything made of two or more frames stays below it. */
  lemma {:induction false} AggregatesBelowLimit(s: Sys, es: seq<Event>)
    requires AllSized(s) && s.limits.maxDatagrams >= 1 && Run(s, es).Some?
    ensures AllSized(Run(s, es).value)
    decreases es
  {
    if es != [] {
      SizedStep(s, es[0]);
      AggregatesBelowLimit(Step(s, es[0]), es[1..]);
    }
  }

  // ---------------------------------------------------------------- end to end

  datatype RawPacket = RawPacket(v: Version, mux: byte, pkt: seq<byte>, pad: seq<byte>)

  /** A packet as the uplink frames it, with the tail bytes used as padding. */
  type Packet = p: RawPacket | |p.pad| < 4 && |p.pkt| > 0 && p.mux >= MUX_BASE
    witness RawPacket(V1, MUX_BASE, [0x40], [])

  function FrameOf(p: Packet): Buffer { Frame(p.v, p.mux, p.pkt, p.pad) }

  function Framed(ps: seq<Packet>): seq<Buffer> {
    seq(|ps|, i requires 0 <= i < |ps| => FrameOf(ps[i]))
  }

  function Received(ps: seq<Packet>): seq<Rx> {
    seq(|ps|, i requires 0 <= i < |ps| => AsRx(ps[i].mux, ps[i].pkt))
  }

  predicate AllCarried(ps: seq<Packet>, cfg: RxCfg) {
    forall i :: 0 <= i < |ps| ==> Carried(ps[i].mux, ps[i].pkt, cfg)
  }

  /** What the receive handler hands up for a sequence of buffers, and whether it faults on any. */
  function DeframeAll(bufs: seq<Buffer>, cfg: RxCfg): Walk {
    if bufs == [] then Walk([], false)
    else
      var first, later := Deframe(bufs[0], cfg), DeframeAll(bufs[1..], cfg);
      Walk(first.delivered + later.delivered, first.fault || later.fault)
  }

  /** An aggregate of framed packets is taken apart into exactly those packets. */
  lemma {:induction false} DeframeAggregate(ps: seq<Packet>, cfg: RxCfg)
    requires AllCarried(ps, cfg)
    ensures Deframe(Concat(Framed(ps)), cfg) == Walk(Received(ps), false)
  {
    if ps == [] {
      assert Received(ps) == [];
    } else {
      DeframeAggregate(ps[1..], cfg);
      FirstPacket(ps);
      FirstDeframed(ps[0], Concat(Framed(ps[1..])), cfg);
    }
  }

  lemma FirstPacket(ps: seq<Packet>)
    requires ps != []
    ensures Concat(Framed(ps)) == FrameOf(ps[0]) + Concat(Framed(ps[1..]))
    ensures Received(ps) == [AsRx(ps[0].mux, ps[0].pkt)] + Received(ps[1..])
  {
    assert Framed(ps)[1..] == Framed(ps[1..]);
  }

  lemma FirstDeframed(p: Packet, rest: Buffer, cfg: RxCfg)
    requires Carried(p.mux, p.pkt, cfg)
    ensures var w := Deframe(rest, cfg);
            Deframe(FrameOf(p) + rest, cfg) == Walk([AsRx(p.mux, p.pkt)] + w.delivered, w.fault)
  {
    assert p.pkt + [] == p.pkt;
    DeframeFrame(p.v, p.mux, p.pkt, [], p.pad, rest, cfg);
  }

  lemma SplitPackets(ps: seq<Packet>, first: seq<Buffer>, later: seq<Buffer>, cfg: RxCfg)
    requires AllCarried(ps, cfg) && first + later == Framed(ps)
    ensures |first| <= |ps|
    ensures var n := |first|;
            && first == Framed(ps[..n]) && later == Framed(ps[n..])
            && AllCarried(ps[..n], cfg) && AllCarried(ps[n..], cfg)
            && Received(ps) == Received(ps[..n]) + Received(ps[n..])
  {
    var n := |first|;
    assert |first| + |later| == |ps|;
    assert first == (first + later)[..n] && later == (first + later)[n..];
  }

  /** Buffers that are aggregates of consecutive groups of the packets. */
  lemma {:induction false} DeframeGroups(ps: seq<Packet>, groups: seq<seq<Buffer>>, bufs: seq<Buffer>, cfg: RxCfg)
    requires AllCarried(ps, cfg) && Concat(groups) == Framed(ps)
    requires |groups| == |bufs| && forall i :: 0 <= i < |bufs| ==> bufs[i] == Concat(groups[i])
    ensures DeframeAll(bufs, cfg) == Walk(Received(ps), false)
    decreases |bufs|
  {
    if bufs == [] {
      assert |Framed(ps)| == 0;
      assert Received(ps) == [];
    } else {
      var n := |groups[0]|;
      SplitPackets(ps, groups[0], Concat(groups[1..]), cfg);
      DeframeAggregate(ps[..n], cfg);
      DeframeGroups(ps[n..], groups[1..], bufs[1..], cfg);
    }
  }

  /** End to end: after any run that submitted framed packets, the receive handler, given the sent
      buffers in order and then what is still held or in hand, delivers exactly those packets with
      their mux ids, in order, without their padding, and meets no fault on the way. */
  lemma EndToEnd(s: Sys, es: seq<Event>, ps: seq<Packet>, cfg: RxCfg)
    requires Init(s) && Run(s, es).Some?
    requires AllCarried(ps, cfg) && Run(s, es).value.submitted == Framed(ps)
    ensures var r := Run(s, es).value;
            DeframeAll(r.sent + [Bytes(r.agg.skb) + Concat(InHand(r.phase))], cfg) == Walk(Received(ps), false)
  {
    InitBalanced(s);
    var l := RunKeeps(s, es, Ledger([], []));
    var r := Run(s, es).value;
    var rest := l.pend + InHand(r.phase);
    assert Concat(l.groups) + rest == Concat(l.groups) + l.pend + InHand(r.phase);
    ConcatAppend(l.pend, InHand(r.phase));
    ConcatOne(l.groups, rest);
    DeframeGroups(ps, l.groups + [rest], r.sent + [Concat(rest)], cfg);
  }
}
