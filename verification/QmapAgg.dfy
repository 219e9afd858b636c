/** Uplink aggregation in the GobiNet driver: framed packets are copied into one pending buffer
    until its count, size or age, or an urgent packet, or the flush timer, sends it. The decisions
    are taken in sections under `agg_lock`; the flush work runs between them. */
module QmapAgg {
  import opened Common

  type Buffer = seq<byte>

  datatype Limits = Limits(maxDatagrams: nat, maxSize: nat, timeLimit: int, bypassTime: int)

  /** A framed packet, whether the stack announced more, and whether it must not be held back. */
  datatype Tx = Tx(frame: Buffer, xmitMore: bool, urgent: bool)

  /** What one locked section samples: the clock in nanoseconds and the allocator's answer. */
  datatype Env = Env(now: int, allocOk: bool)

  datatype Agg = Agg(skb: Option<Buffer>, count: nat, time: int)

  /** The buffer taken for sending, if any, and whether the packet still has to be dealt with. */
  datatype Outcome = Outcome(agg: Agg, claimed: Option<Buffer>, left: bool)

  const NSEC_PER_SEC := 1_000_000_000

  /** The test on a normalised timespec difference: whole seconds, or the nanosecond field alone. */
  predicate Elapsed(diff: int, limit: int) {
    diff / NSEC_PER_SEC > 0 || diff % NSEC_PER_SEC > limit
  }

  function Section(a: Agg, tx: Tx, env: Env, c: Limits): (o: Outcome) {
    var diff := env.now - a.time;
    var skip := !tx.xmitMore && tx.urgent;
    match a.skb
    case Some(held) =>
      if |held| + |tx.frame| < c.maxSize then
        var ready := Elapsed(diff, c.timeLimit) || a.count + 1 == c.maxDatagrams || skip;
        if ready then Outcome(Agg(None, 0, env.now), Some(held + tx.frame), false)
        else Outcome(Agg(Some(held + tx.frame), a.count + 1, a.time), None, false)
      else Outcome(Agg(None, 0, env.now), Some(held), true)
    case None =>
      if Elapsed(diff, c.bypassTime) || skip || !env.allocOk then Outcome(a.(time := env.now), Some(tx.frame), false)
      else Outcome(Agg(Some(tx.frame), a.count + 1, a.time), None, false)
  }

  /** The test measures the time: while the clock has not gone back, it is whether more than `limit`
      nanoseconds have passed, for any limit below a second. */
  lemma ElapsedExactly(diff: int, limit: int)
    requires diff >= 0 && 0 <= limit < NSEC_PER_SEC
    ensures Elapsed(diff, limit) <==> diff > limit
  {
  }

  /** When a section sends, whom, and what it makes of the clock, for a packet that comes `age` after
      `agg_time`. A held aggregate goes with the packet when it is full, or too old, or the packet is
      urgent and the last of its burst; alone when the packet does not fit; and stays otherwise. With
      nothing held the packet goes alone when the queue was idle for long, or the packet is urgent, or
      there is no memory, and else starts an aggregate. */
  lemma SectionSendsExactly(a: Agg, tx: Tx, env: Env, c: Limits)
    requires env.now >= a.time && 0 <= c.timeLimit < NSEC_PER_SEC && 0 <= c.bypassTime < NSEC_PER_SEC
    ensures var o := Section(a, tx, env, c); var age := env.now - a.time; var last := tx.urgent && !tx.xmitMore;
            && (a.skb.Some? && |a.skb.value| + |tx.frame| >= c.maxSize ==>
                  o.claimed == a.skb && o.left && o.agg.skb == None && o.agg.count == 0)
            && (a.skb.Some? && |a.skb.value| + |tx.frame| < c.maxSize ==>
                  && !o.left && (o.claimed.Some? <==> age > c.timeLimit || a.count + 1 == c.maxDatagrams || last)
                  && (if o.claimed.Some? then o.claimed == Some(a.skb.value + tx.frame) && o.agg.skb == None && o.agg.count == 0
                      else o.agg.skb == Some(a.skb.value + tx.frame) && o.agg.count == a.count + 1))
            && (a.skb.None? ==>
                  && !o.left && (o.claimed.Some? <==> age > c.bypassTime || last || !env.allocOk)
                  && (if o.claimed.Some? then o.claimed == Some(tx.frame) && o.agg.skb == None && o.agg.count == a.count
                      else o.agg.skb == Some(tx.frame) && o.agg.count == a.count + 1))
            && o.agg.time == if o.claimed.Some? then env.now else a.time
  {
    ElapsedExactly(env.now - a.time, c.timeLimit);
    ElapsedExactly(env.now - a.time, c.bypassTime);
  }

  /** Nothing stays held once it is older than the limit: the next packet that fits takes it along. */
  lemma OldAggregateSent(a: Agg, tx: Tx, env: Env, c: Limits)
    requires a.skb.Some? && |a.skb.value| + |tx.frame| < c.maxSize && 0 <= c.timeLimit < NSEC_PER_SEC
    requires env.now - a.time > c.timeLimit
    ensures var o := Section(a, tx, env, c);
            o.agg.skb == None && o.claimed == Some(a.skb.value + tx.frame) && !o.left && o.agg.time == env.now
  {
    ElapsedExactly(env.now - a.time, c.timeLimit);
  }

  // ---------------------------------------------------------------- the driver object

  function Bytes(b: Option<Buffer>): Buffer {
    match b case Some(x) => x case None => []
  }

  function Sent(sent: seq<Buffer>, claimed: Option<Buffer>): seq<Buffer> {
    match claimed case Some(b) => sent + [b] case None => sent
  }

  /** All bytes that were sent or are held. */
  ghost function Flow(sent: seq<Buffer>, held: Option<Buffer>): Buffer {
    Concat(sent) + Bytes(held)
  }

  class TxAggregator {
    var limits: Limits
    var aggSkb: Option<Buffer>
    var aggCount: nat
    var aggTime: int
    var timerQueued: bool
    /** Buffers in the order they were claimed under the lock. */
    var sent: seq<Buffer>

    constructor (now: int, timeLimit: int, bypassTime: int)
      ensures Valid() && limits == Limits(1, 2048, timeLimit, bypassTime) && State() == Agg(None, 0, now) && sent == []
    {
      limits, aggSkb, aggCount, aggTime := Limits(1, 2048, timeLimit, bypassTime), None, 0, now;
      timerQueued, sent := false, [];
    }

    function State(): Agg
      reads this
    {
      Agg(aggSkb, aggCount, aggTime)
    }

    /** Nothing is held exactly when the count is zero, nothing is ever held before aggregation is
        switched on, and the count stays below its limit. */
    ghost predicate Valid()
      reads this
    {
      && limits.maxDatagrams >= 1
      && (aggSkb.None? <==> aggCount == 0)
      && aggCount < limits.maxDatagrams
    }

    /** Everything accepted so far: what was claimed, then what is still held. */
    ghost function Traffic(): Buffer
      reads this
    {
      Flow(sent, aggSkb)
    }

    /** qmap_open: the modem's limits replace the initial ones, once. */
    method AdoptLimits(maxDatagrams: nat, maxSize: nat)
      requires Valid()
      modifies `limits
      ensures Valid()
      ensures limits == if old(limits).maxDatagrams == 1 && maxDatagrams > 1
                        then old(limits).(maxDatagrams := maxDatagrams, maxSize := maxSize) else old(limits)
    {
      if limits.maxDatagrams == 1 && maxDatagrams > 1 {
        limits := limits.(maxDatagrams := maxDatagrams, maxSize := maxSize);
      }
    }

    /** One critical section of rmnet_usb_tx_agg. */
    method LockedSection(tx: Tx, env: Env) returns (claimed: Option<Buffer>, left: bool)
      modifies `aggSkb, `aggCount, `aggTime
      ensures Outcome(State(), claimed, left) == Section(old(State()), tx, env, limits)
    {
      claimed, left := None, true;
      var ready := false;
      var diff := env.now - aggTime;
      match aggSkb {
        case Some(held) =>
          if |held| + |tx.frame| < limits.maxSize {
            aggSkb := Some(held + tx.frame);
            aggCount := aggCount + 1;
            if Elapsed(diff, limits.timeLimit) {
              ready := true;
            } else if aggCount == limits.maxDatagrams {
              ready := true;
            } else if !tx.xmitMore {
              ready := tx.urgent;
            }
            left := false;
          } else {
            ready := true;
          }
          if ready {
            claimed := aggSkb;
            aggSkb, aggCount := None, 0;
          }
        case None =>
          if Elapsed(diff, limits.bypassTime) {
            ready := true;
          } else if !tx.xmitMore {
            ready := tx.urgent;
          }
          if !ready {
            if env.allocOk {
              aggSkb := Some(tx.frame);
              aggCount := aggCount + 1;
              left := false;
            } else {
              ready := true;
            }
          }
          if ready {
            claimed, left := Some(tx.frame), false;
          }
      }
      if ready {
        aggTime := env.now;
      }
    }

    /** rmnet_usb_tx_agg_work: the work item the flush timer schedules. */
    method AggWork(now: int)
      requires Valid()
      modifies `aggSkb, `aggCount, `aggTime, `sent
      ensures Valid() && aggSkb == None && Traffic() == old(Traffic())
      ensures old(aggSkb).Some? ==> aggCount == 0 && sent == old(sent) + [old(aggSkb).value]
      ensures old(aggSkb).None? ==> aggCount == old(aggCount) && sent == old(sent)
    {
      match aggSkb {
        case Some(skb) =>
          ConcatOne(sent, skb);
          sent := sent + [skb];
          aggSkb, aggCount, aggTime := None, 0, now;
        case None =>
      }
    }

    /** A critical section and the transmission of what it claimed. */
    method Round(tx: Tx, env: Env) returns (left: bool)
      requires Valid() && limits.maxDatagrams > 1
      modifies `aggSkb, `aggCount, `aggTime, `sent
      ensures Valid() && old(sent) <= sent
      ensures Traffic() + (if left then tx.frame else []) == old(Traffic()) + tx.frame
      ensures left ==> old(aggSkb).Some? && aggSkb.None?
      ensures !left && !tx.xmitMore && tx.urgent ==> aggSkb.None?
    {
      SectionTraffic(sent, State(), tx, env, limits);
      var claimed;
      claimed, left := LockedSection(tx, env);
      if claimed.Some? {
        sent := sent + [claimed.value];
      }
    }

    /** rmnet_usb_tx_agg: at most two critical sections, with the flush work possibly in between. */
    method TxAgg(tx: Tx) returns (rounds: nat)
      requires Valid()
      modifies `aggSkb, `aggCount, `aggTime, `sent, `timerQueued
      ensures Valid()
      ensures Traffic() == old(Traffic()) + tx.frame
      ensures old(sent) <= sent && rounds <= 2
      ensures aggSkb.Some? ==> timerQueued
      ensures !tx.xmitMore && tx.urgent ==> aggSkb.None?
    {
      rounds := 0;
      if limits.maxDatagrams == 1 {
        ConcatOne(sent, tx.frame);
        sent := sent + [tx.frame];
        return;
      }
      var left := true;
      while left
        invariant Valid()
        invariant Traffic() + (if left then tx.frame else []) == old(Traffic()) + tx.frame
        invariant old(sent) <= sent && rounds <= 2 && (left ==> rounds == 0 || (aggSkb.None? && rounds == 1))
        invariant !left && !tx.xmitMore && tx.urgent ==> aggSkb.None?
        decreases left, aggSkb.Some?
      {
        var env: Env := *;
        left := Round(tx, env);
        rounds := rounds + 1;
        if * {
          var now: int := *;
          AggWork(now);
        }
      }
      if aggSkb.Some? {
        timerQueued := true;
      }
    }
  }

  // ---------------------------------------------------------------- one section

  /** A section neither loses, duplicates nor reorders bytes, and leaves the packet over only when
      it has just emptied the aggregator. */
  lemma SectionConserves(a: Agg, tx: Tx, env: Env, c: Limits)
    ensures var o := Section(a, tx, env, c);
            && Bytes(o.claimed) + Bytes(o.agg.skb) + (if o.left then tx.frame else []) == Bytes(a.skb) + tx.frame
            && (o.left ==> a.skb.Some? && o.agg.skb.None?)
  {
  }

  lemma SectionTraffic(sent: seq<Buffer>, a: Agg, tx: Tx, env: Env, c: Limits)
    ensures var o := Section(a, tx, env, c);
            Flow(Sent(sent, o.claimed), o.agg.skb) + (if o.left then tx.frame else []) == Flow(sent, a.skb) + tx.frame
  {
    SectionConserves(a, tx, env, c);
    var o := Section(a, tx, env, c);
    var rest := if o.left then tx.frame else [];
    if o.claimed.Some? {
      ConcatOne(sent, o.claimed.value);
    }
    assert Concat(Sent(sent, o.claimed)) == Concat(sent) + Bytes(o.claimed);
    Regroup(Concat(sent), Bytes(o.claimed), Bytes(o.agg.skb), rest, Bytes(a.skb), tx.frame);
  }

  lemma Regroup(s: Buffer, a: Buffer, b: Buffer, c: Buffer, d: Buffer, e: Buffer)
    requires a + b + c == d + e
    ensures (s + a) + b + c == (s + d) + e
  {
    assert (s + a) + b + c == s + (a + b + c);
    assert (s + d) + e == s + (d + e);
  }
}
